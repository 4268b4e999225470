/**
 The rewrite of the gesture mapping table performed by `update_gesture_mappings`
 (Project_Files/app.py). The table is line oriented, one `gesture:action` entry
 per line; the settings form is keyed by ACTION and gives the new GESTURE for
 it. The update either produces the new list of lines, or is refused as a
 whole: with a conflict when two rewritten lines would get the same gesture,
 or because a non-blank line is not one `gesture:action` pair.
 */
module GestureMappings {
  import opened PyStr

  /** The submitted settings form: action name -> newly chosen gesture. */
  type Form = map<string, string>

  /** What the update handler ends with. `Updated` carries the lines written
      back to the table; the other two write nothing. The source's conflict
      answer (HTTP 400) names the gesture; a malformed line makes the tuple
      unpacking raise, and the model records which line did it. */
  datatype Outcome =
    | Updated(lines: seq<string>)
    | Conflict(gesture: string)
    | Malformed(index: nat)

  /** How one line of the table is treated by the update loop. */
  datatype Entry =
    | Blank                                      // only whitespace: copied
    | Kept(action: string)                       // action not in the form: copied
    | Reassigned(gesture: string, action: string) // action in the form: rewritten
    | Unparsable                                 // not exactly one ':'

  /** Classifies one line as the loop body does: strip it, split what is
      left on ':', and look the action (the second piece) up in the form. */
  function Classify(line: string, form: Form): Entry {
    var text := Strip(line);
    if text == [] then Blank
    else
      var parts := Split(text, ':');
      if |parts| != 2 then Unparsable
      else
        var action := parts[1];
        if action in form then Reassigned(form[action], action) else Kept(action)
  }

  /** What the classification means for the line's text: blank lines are
      the whitespace-only ones; a non-blank line is unparsable exactly when
      it does not hold exactly one ':'; otherwise its action is the text
      after that colon up to the trailing whitespace, and the line is
      rewritten exactly when the form names that action, to the gesture the
      form gives for it. */
  lemma ClassifyMeaning(line: string, form: Form)
    ensures Classify(line, form).Blank? <==> AllSpace(line)
    ensures Classify(line, form).Unparsable? <==> !AllSpace(line) && multiset(line)[':'] != 1
    ensures var e := Classify(line, form);
            (e.Kept? || e.Reassigned?) ==>
              && ':' !in e.action && EndsWith(Strip(line), [':'] + e.action)
              && (e.Reassigned? <==> e.action in form)
    ensures var e := Classify(line, form);
            e.Reassigned? ==> e.gesture == form[e.action]
  {
    StripIsTrim(line);
    StripKeeps(line, ':');
    var text := Strip(line);
    if text != [] {
      SplitPieces(text, ':');
      var parts := Split(text, ':');
      if |parts| == 2 {
        ActionField(text);
      }
    }
  }

  /** When the split yields two pieces, the text is the first piece, a
      colon, and the second piece. */
  lemma ActionField(text: string)
    requires |Split(text, ':')| == 2
    ensures var parts := Split(text, ':');
            text == parts[0] + [':'] + parts[1] && EndsWith(text, [':'] + parts[1])
  {
    var parts := Split(text, ':');
    JoinSplit(text, ':');
    assert Join(parts, ':') == parts[0] + [':'] + parts[1] by {
      assert parts[1..] == [parts[1]];
    }
  }

  /** The line the update writes in place of `line`. */
  function Render(line: string, form: Form): string {
    match Classify(line, form)
    case Reassigned(gesture, action) => gesture + ":" + action + "\n"
    case _ => line
  }

  /** The gestures given to rewritten lines among the first `n` lines: the
      contents of `used_gestures` after `n` iterations of the loop. */
  function UsedGestures(lines: seq<string>, form: Form, n: nat): set<string>
    requires n <= |lines|
  {
    if n == 0 then {}
    else
      var e := Classify(lines[n - 1], form);
      UsedGestures(lines, form, n - 1) + (if e.Reassigned? then {e.gesture} else {})
  }

  /** Line `i` stops the update: it cannot be unpacked, or it is rewritten to
      a gesture that an earlier rewritten line already received. Lines that
      are copied unchanged never take part in the comparison. */
  predicate Fault(lines: seq<string>, form: Form, i: nat)
    requires i < |lines|
  {
    var e := Classify(lines[i], form);
    e.Unparsable? || (e.Reassigned? && e.gesture in UsedGestures(lines, form, i))
  }

  /** The first faulty line at or after `from`, or `|lines|` if none is. */
  function FirstFault(lines: seq<string>, form: Form, from: nat): (k: nat)
    requires from <= |lines|
    ensures from <= k <= |lines|
    ensures forall i :: from <= i < k ==> !Fault(lines, form, i)
    ensures k < |lines| ==> Fault(lines, form, k)
    decreases |lines| - from
  {
    if from == |lines| || Fault(lines, form, from) then from
    else FirstFault(lines, form, from + 1)
  }

  /** No line before `k` stops the update. */
  predicate FaultFreeBefore(lines: seq<string>, form: Form, k: nat)
    requires k <= |lines|
  {
    forall i :: 0 <= i < k ==> !Fault(lines, form, i)
  }

  /** FirstFault finds the one line that stops the update first. */
  lemma FirstFaultIs(lines: seq<string>, form: Form, k: nat)
    requires k <= |lines| && FaultFreeBefore(lines, form, k)
    requires k < |lines| ==> Fault(lines, form, k)
    ensures FirstFault(lines, form, 0) == k
  {
  }

  /** Reference definition of the update: find the first line that stops it;
      without one, every line is rendered in place. */
  function Rewrite(lines: seq<string>, form: Form): (o: Outcome)
    ensures o.Updated? <==> FaultFreeBefore(lines, form, |lines|)
    ensures o.Updated? ==> |o.lines| == |lines|
    // lines that are blank or whose action the form does not name are copied verbatim
    ensures o.Updated? ==>
              forall i :: 0 <= i < |lines| && !Classify(lines[i], form).Reassigned? ==>
                o.lines[i] == lines[i]
    // a line whose action the form names becomes `form[action]:action` plus a newline
    ensures o.Updated? ==>
              forall i :: 0 <= i < |lines| && Classify(lines[i], form).Reassigned? ==>
                o.lines[i] == Classify(lines[i], form).gesture + ":" + Classify(lines[i], form).action + "\n"
    ensures o.Malformed? ==>
              && o.index < |lines| && FaultFreeBefore(lines, form, o.index)
              && Classify(lines[o.index], form).Unparsable?
    ensures o.Conflict? ==>
              exists k :: 0 <= k < |lines| && FaultFreeBefore(lines, form, k)
                          && Classify(lines[k], form).Reassigned?
                          && Classify(lines[k], form).gesture == o.gesture
                          && o.gesture in UsedGestures(lines, form, k)
  {
    var k := FirstFault(lines, form, 0);
    if k == |lines| then
      Updated(seq(|lines|, i requires 0 <= i < |lines| => Render(lines[i], form)))
    else
      var e := Classify(lines[k], form);
      assert Fault(lines, form, k);
      if e.Unparsable? then
        Malformed(k)
      else
        assert e.Reassigned? && e.gesture in UsedGestures(lines, form, k);
        Conflict(e.gesture)
  }

  /** `done` holds the rendering of the first `|done|` lines. */
  predicate RenderedPrefix(done: seq<string>, lines: seq<string>, form: Form) {
    |done| <= |lines| && forall j :: 0 <= j < |done| ==> done[j] == Render(lines[j], form)
  }

  /** The state of the loop after `i` lines: `updated` renders them, `used`
      holds the gestures handed out among them, and none stopped the update. */
  predicate LoopState(lines: seq<string>, form: Form, i: nat, updated: seq<string>, used: set<string>)
    requires i <= |lines|
  {
    |updated| == i && RenderedPrefix(updated, lines, form)
    && used == UsedGestures(lines, form, i) && FaultFreeBefore(lines, form, i)
  }

  lemma RenderedPrefixExtend(done: seq<string>, lines: seq<string>, form: Form, out: string)
    requires RenderedPrefix(done, lines, form) && |done| < |lines|
    requires out == Render(lines[|done|], form)
    ensures RenderedPrefix(done + [out], lines, form)
  {
  }

  // The step lemmas below keep the loop's proof small. Dafny could find
  // their proofs unaided, but the calls and assertions in their bodies point
  // it at the facts it needs and keep each proof well within its budget.

  /** The three ways the update ends, read off the first line that stops it. */
  lemma RewriteStopsAt(lines: seq<string>, form: Form, i: nat)
    requires i < |lines| && FaultFreeBefore(lines, form, i) && Fault(lines, form, i)
    ensures Classify(lines[i], form).Unparsable? ==> Rewrite(lines, form) == Malformed(i)
    ensures Classify(lines[i], form).Reassigned? ==>
              Rewrite(lines, form) == Conflict(Classify(lines[i], form).gesture)
  {
    FirstFaultIs(lines, form, i);
  }

  lemma RewriteCompletes(lines: seq<string>, form: Form, done: seq<string>)
    requires FaultFreeBefore(lines, form, |lines|)
    requires |done| == |lines| && RenderedPrefix(done, lines, form)
    ensures Rewrite(lines, form) == Updated(done)
  {
  }

  /** A line that does not stop the update extends the fault-free prefix. */
  lemma FaultFreeExtend(lines: seq<string>, form: Form, i: nat)
    requires i < |lines| && FaultFreeBefore(lines, form, i) && !Fault(lines, form, i)
    ensures FaultFreeBefore(lines, form, i + 1)
  {
  }

  /** One step of the loop on a line it copies: a blank one, or one whose
      action the form does not name. */
  lemma CopyStep(lines: seq<string>, form: Form, i: nat, updated: seq<string>, used: set<string>)
    requires i < |lines| && LoopState(lines, form, i, updated, used)
    requires var text := Strip(lines[i]);
             text == [] || (|Split(text, ':')| == 2 && Split(text, ':')[1] !in form)
    ensures LoopState(lines, form, i + 1, updated + [lines[i]], used)
  {
    assert !Classify(lines[i], form).Reassigned? && !Classify(lines[i], form).Unparsable?;
    FaultFreeExtend(lines, form, i);
    RenderedPrefixExtend(updated, lines, form, lines[i]);
  }

  /** One step of the loop on a line whose action the form names, with a
      gesture not handed out yet. */
  lemma RewriteStep(lines: seq<string>, form: Form, i: nat, updated: seq<string>, used: set<string>,
                    action: string)
    requires i < |lines| && LoopState(lines, form, i, updated, used)
    requires Strip(lines[i]) != []
    requires |Split(Strip(lines[i]), ':')| == 2 && action == Split(Strip(lines[i]), ':')[1]
    requires action in form && form[action] !in used
    ensures LoopState(lines, form, i + 1, updated + [form[action] + ":" + action + "\n"],
                      used + {form[action]})
  {
    assert Classify(lines[i], form) == Reassigned(form[action], action);
    FaultFreeExtend(lines, form, i);
    RenderedPrefixExtend(updated, lines, form, form[action] + ":" + action + "\n");
  }

  /** The loop gives up on a line it cannot unpack, or whose new gesture was
      already handed out; that is where the reference definition stops too. */
  lemma StopStep(lines: seq<string>, form: Form, i: nat, used: set<string>)
    requires i < |lines| && FaultFreeBefore(lines, form, i) && used == UsedGestures(lines, form, i)
    requires Strip(lines[i]) != []
    ensures var parts := Split(Strip(lines[i]), ':');
            |parts| != 2 ==> Rewrite(lines, form) == Malformed(i)
    ensures var parts := Split(Strip(lines[i]), ':');
            |parts| == 2 && parts[1] in form && form[parts[1]] in used ==>
              Rewrite(lines, form) == Conflict(form[parts[1]])
  {
    var parts := Split(Strip(lines[i]), ':');
    if |parts| != 2 || (parts[1] in form && form[parts[1]] in used) {
      RewriteStopsAt(lines, form, i);
    }
  }

  /** The loop of `update_gesture_mappings`: walk the lines once, copying or
      rewriting each, growing the set of gestures handed out so far, and
      giving up at the first line that cannot be unpacked or that repeats a
      handed-out gesture. */
  method RewriteLines(lines: seq<string>, form: Form) returns (outcome: Outcome)
    ensures outcome == Rewrite(lines, form)
  {
    var updated: seq<string> := [];
    var used: set<string> := {};
    for i := 0 to |lines|
      invariant LoopState(lines, form, i, updated, used)
    {
      var line := lines[i];
      var text := Strip(line);
      if text != [] {
        var parts := Split(text, ':');
        StopStep(lines, form, i, used);
        if |parts| != 2 {
          outcome := Malformed(i);
          return;
        }
        var action := parts[1];
        if action in form {
          var updatedGesture := form[action];
          if updatedGesture in used {
            outcome := Conflict(updatedGesture);
            return;
          }
          RewriteStep(lines, form, i, updated, used, action);
          used := used + {updatedGesture};
          updated := updated + [updatedGesture + ":" + action + "\n"];
        } else {
          CopyStep(lines, form, i, updated, used);
          updated := updated + [line];
        }
      } else {
        CopyStep(lines, form, i, updated, used);
        updated := updated + [line];
      }
    }
    RewriteCompletes(lines, form, updated);
    outcome := Updated(updated);
  }
}
