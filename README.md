# Gesture mapping table update

The hand-gesture controller keeps its gesture-to-action table in a
line-oriented text file, one `gesture:action` entry per line. The settings page
posts a form keyed by action, whose value is the gesture the user now wants for
that action. `update_gesture_mappings` reads the table and walks it line by line:

- Blank lines are copied.
- A line whose action the form does not name is copied verbatim.
- A line whose action the form names is rewritten as `newGesture:action` plus a
  newline.

The update is refused as a whole when a rewritten line would get a gesture that
an earlier rewritten line already received (HTTP 400, naming the gesture). It is
also refused when a non-blank line cannot be unpacked into one
`gesture:action` pair. Only when the walk finishes is the table written back.

The project has three modules:

- `PyStr` (`py_str.dfy`) models the Python string builtins the loop relies on.
  - `str.strip()` uses the full `str.isspace()` character set.
  - `str.split(':')` has `join` as its partner.
  - Lemmas state what the builtins compute.
- `GestureMappings` (`gesture_mappings.dfy`) has two sides.
  - The loop itself is the method `RewriteLines`: an early-returning `for` loop
    that grows the output lines and the set of handed-out gestures.
  - The reference definition is `Rewrite`: find the first line that stops the
    update, otherwise render every line.
  - `RewriteLines` is proved to return exactly `Rewrite`'s outcome.
- `MappingLaws` (`mapping_laws.dfy`) proves properties that relate several
  lines or several updates:
  - distinct gestures
  - which conflict is reported
  - refusal of malformed lines
  - idempotence
  - the gaps in the duplicate check

The outcome is `Updated(lines)`, `Conflict(gesture)` or `Malformed(index)`.

What the duplicate check compares:

- It compares only the gestures given to rewritten lines. A gesture that a
  line left unchanged still carries is never compared.
- It never compares actions. An action the form names that appears on two
  lines is caught only because both lines receive the same gesture.
- The conflict answer names the gesture, not an action.

So a table can end up with one gesture on two lines, and
`UnchangedLinesNotCompared` shows such an accepted update.
`SameActionTwiceRefused` shows how a repeated named action is refused.

## Model

| member | source | states |
|---|---|---|
| PyStr.StripLeftIsSuffix | Project_Files/app.py:84-85 | characterises `StripLeft`: stripping the front removes only a whitespace prefix and leaves an empty string or one starting with a non-whitespace character |
| PyStr.StripRightIsPrefix | Project_Files/app.py:84-85 | characterises `StripRight`: stripping the back removes only a whitespace suffix and leaves an empty string or one ending with a non-whitespace character |
| PyStr.StripIsTrim | Project_Files/app.py:84-85 | characterises `Strip`, the model of `str.strip()`: `line.strip()` is empty exactly when the line is all whitespace; otherwise it is a slice of the line with whitespace on both sides cut away, and it neither starts nor ends with whitespace |
| PyStr.StripKeeps | Project_Files/app.py:84-85 | about `Strip`: strip never removes a non-whitespace character, so the stripped text has as many colons as the line |
| PyStr.SplitPieces | Project_Files/app.py:85 | characterises `Split`, the model of `str.split`: `split(':')` yields one more piece than there are colons, and no piece holds a colon |
| PyStr.JoinSplit | Project_Files/app.py:85 | round trip of `Split` with its partner `Join`: joining the pieces of a split with the separator gives back the text |
| PyStr.SplitJoin | Project_Files/app.py:85 | round trip of `Split` with its partner `Join`: splitting a join of colon-free pieces gives back those pieces |
| PyStr.SplitPair | Project_Files/app.py:85 | about `Split`: the two-name unpacking of `x:y` succeeds and yields `x` and `y` when neither holds a colon |
| GestureMappings.ClassifyMeaning | Project_Files/app.py:84-87 | characterises `Classify`, the per-line branch of the loop: a line is treated as blank exactly when it is all whitespace, and as unpackable-failure exactly when it is non-blank without exactly one colon; otherwise its action is the colon-free text after the colon up to the trailing whitespace, and it is rewritten exactly when the form has that action, to the form's gesture |
| GestureMappings.FirstFault | Project_Files/app.py:83-89 | the search returns the first line at or after its start that stops the loop, or the end of the table when no line does |
| GestureMappings.Rewrite | Project_Files/app.py:81-98 | the update succeeds exactly when no line stops it. On success it has one output line per input line, and blank and unnamed-action lines are copied verbatim. A named-action line becomes `form[action]:action` plus a newline. A malformed refusal points at the first line to stop the update, which cannot be unpacked. A conflict names the gesture of the first stopping line, which an earlier rewritten line already received |
| GestureMappings.RewriteLines | Project_Files/app.py:81-95 | the loop, with its early returns, ends with exactly the outcome of the reference definition `Rewrite` |
| MappingLaws.UsedGesturesAre | Project_Files/app.py:82-90 | characterises `UsedGestures`, the set `used_gestures`: after n lines the handed-out gesture set holds exactly the gestures of the rewritten lines among them |
| MappingLaws.RewrittenGesturesDistinct | Project_Files/app.py:82-90 | on success, no two rewritten lines receive the same gesture |
| MappingLaws.ConflictIsFirstRepeat | Project_Files/app.py:86-89 | a conflict names a gesture that two rewritten lines would receive. Before the later of those lines, every line unpacks and the rewritten gestures are distinct, so it is the first repeat in line order |
| MappingLaws.SameActionTwiceRefused | Project_Files/app.py:86-90 | two lines with the same form-named action make the update fail |
| MappingLaws.MalformedLineRefused | Project_Files/app.py:84-85 | a non-blank line without exactly one colon makes the update fail, never passing through; a malformed refusal points at that line or an earlier one |
| MappingLaws.StripLeftAppend | Project_Files/app.py:84-85 | stripping the front of `x + y` stays inside `x` when `y` starts with a non-whitespace character |
| MappingLaws.WrittenLineReadsBack | Project_Files/app.py:85-91 | about `Classify` on what `Render` writes: a line the update writes, `gesture:action` plus newline, reads back with the same action and the same treatment, given colon-free parts and an action not ending in whitespace |
| MappingLaws.RenderKeepsClass | Project_Files/app.py:84-93 | about `Render`, the line the loop appends: re-reading any line the update outputs gives it the same treatment as the input line, provided its new gesture holds no colon |
| MappingLaws.UsedGesturesAgree | Project_Files/app.py:82-90 | about `UsedGestures`: two tables whose lines are treated alike hand out the same gestures |
| MappingLaws.RewriteIdempotent | Project_Files/app.py:83-95 | applying the same form again to a successful update's output gives the same output, when no rewritten line received a gesture holding a colon |
| MappingLaws.RewriteTwiceWithColonRefused | Project_Files/app.py:85-91 | a new gesture holding a colon makes the written line unpackable, so applying the form again is refused |
| MappingLaws.UnchangedLinesNotCompared | Project_Files/app.py:86-93 | an unchanged line's gesture is not compared: moving a named action onto a gesture an unnamed line still uses is accepted |
| MappingLaws.ConflictNamesGesture | Project_Files/app.py:88-89 | two named actions given the same gesture are refused with a conflict naming that gesture |

## Left out

- The following are not modelled; only the update's outcome is:
  - the Flask route
  - `render_template`
  - the redirect after success
  - the HTTP status codes (Project_Files/app.py:53-70, 89, 100, 117-118)
- The debug print of the form (Project_Files/app.py:76) is output only.
- Reading and writing `mappings.txt` (Project_Files/app.py:78-79, 97-98) is I/O.
  - The model takes the list of lines and returns the list to be written.
  - Splitting the file into lines by `readlines()` is not modelled. In the
    source, a gesture value holding k line breaks is read back the next time
    as k + 1 lines.
- `Malformed` carries the index of the failing line. The source raises a
  `ValueError` out of the tuple unpacking (HTTP 500), which carries no index.
- The form is a map from action to one gesture. A form field sent several times
  is read by its first value in the source; the model sees only that value.
- MappingLaws.RewriteIdempotent: is stated on lists of lines, not on the file.
  - It holds when no rewritten line received a gesture holding a ':'.
  - RewriteTwiceWithColonRefused proves that when one did, the second update
    is refused.
  - Re-reading the file is not modelled. In the source, a new gesture holding
    k line breaks (`\n` or `\r`) comes back from `readlines()` as k + 1 lines,
    so the file is not idempotent even when the lemma's hypothesis holds.
    - If the text before a break is not all whitespace, that piece has no ':'
      and the second update fails at the unpacking on
      Project_Files/app.py:85.
    - If the text before every break is all whitespace, those pieces are blank
      and copied through (Project_Files/app.py:84, 94-95). The second update
      then succeeds and the file gains a line on every pass.
    - For example, the form `{a: "\nx"}` turns `g:a` into `\nx:a`. That is read
      back as a blank line followed by `x:a`, and is written again as a blank
      line, a blank line and `x:a`.
- These are not modelled because their point is cross-thread signalling, or
  because they are foreign library calls on images:
  - frame capture, the worker thread and the detection on/off event
    (Project_Files/app.py:10-11, 15-23, 50, 103-114)
  - the camera streaming generator (Project_Files/app.py:26-44)
- `GestureController` and the `gesture_detection` module are not part of this
  model.
