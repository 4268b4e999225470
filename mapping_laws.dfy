/**
 Properties of the mapping-table update that relate several lines or several
 updates: gestures handed out are distinct, a repeated action or a malformed
 line refuses the update, and applying the same form twice changes nothing
 more than applying it once.
 */
module MappingLaws {
  import opened PyStr
  import opened GestureMappings

  /** `used_gestures` after `n` lines holds exactly the gestures of the
      rewritten lines among them. */
  lemma {:induction false} UsedGesturesAre(lines: seq<string>, form: Form, n: nat, g: string)
    requires n <= |lines|
    ensures g in UsedGestures(lines, form, n) <==>
              exists j :: 0 <= j < n && Classify(lines[j], form).Reassigned?
                          && Classify(lines[j], form).gesture == g
  {
    if n > 0 {
      UsedGesturesAre(lines, form, n - 1, g);
    }
  }

  /** On success, no two rewritten lines received the same gesture. */
  lemma RewrittenGesturesDistinct(lines: seq<string>, form: Form)
    requires Rewrite(lines, form).Updated?
    ensures forall i, j :: 0 <= i < j < |lines| && Classify(lines[i], form).Reassigned?
              && Classify(lines[j], form).Reassigned?
              ==> Classify(lines[i], form).gesture != Classify(lines[j], form).gesture
  {
    forall i, j | 0 <= i < j < |lines| && Classify(lines[i], form).Reassigned?
                  && Classify(lines[j], form).Reassigned?
      ensures Classify(lines[i], form).gesture != Classify(lines[j], form).gesture
    {
      var g := Classify(lines[j], form).gesture;
      assert !Fault(lines, form, j);
      UsedGesturesAre(lines, form, j, g);
    }
  }

  /** A conflict names a gesture that two rewritten lines would receive,
      the earlier one and the line where the update stops; before that line
      every line unpacks and the rewritten gestures are still distinct, so
      the gesture named is the first repeat in line order. */
  lemma ConflictIsFirstRepeat(lines: seq<string>, form: Form)
    requires Rewrite(lines, form).Conflict?
    ensures exists j, k :: 0 <= j < k < |lines|
              && Classify(lines[j], form).Reassigned? && Classify(lines[k], form).Reassigned?
              && Classify(lines[j], form).gesture == Rewrite(lines, form).gesture
              && Classify(lines[k], form).gesture == Rewrite(lines, form).gesture
              && (forall i :: 0 <= i < k ==> !Classify(lines[i], form).Unparsable?)
              && (forall i1, i2 :: 0 <= i1 < i2 < k && Classify(lines[i1], form).Reassigned?
                    && Classify(lines[i2], form).Reassigned?
                    ==> Classify(lines[i1], form).gesture != Classify(lines[i2], form).gesture)
  {
    var g := Rewrite(lines, form).gesture;
    var k :| 0 <= k < |lines| && FaultFreeBefore(lines, form, k)
             && Classify(lines[k], form).Reassigned? && Classify(lines[k], form).gesture == g
             && g in UsedGestures(lines, form, k);
    UsedGesturesAre(lines, form, k, g);
    var j :| 0 <= j < k && Classify(lines[j], form).Reassigned? && Classify(lines[j], form).gesture == g;
    forall i | 0 <= i < k ensures !Classify(lines[i], form).Unparsable? {
      assert !Fault(lines, form, i);
    }
    forall i1, i2 | 0 <= i1 < i2 < k && Classify(lines[i1], form).Reassigned?
                    && Classify(lines[i2], form).Reassigned?
      ensures Classify(lines[i1], form).gesture != Classify(lines[i2], form).gesture
    {
      assert !Fault(lines, form, i2);
      UsedGesturesAre(lines, form, i2, Classify(lines[i2], form).gesture);
    }
  }

  /** Two lines carrying the same action that the form names both get the
      form's gesture for it, so the update is refused; the check compares
      gestures, and this is how a repeated action is caught. */
  lemma SameActionTwiceRefused(lines: seq<string>, form: Form, i: nat, j: nat)
    requires i < j < |lines|
    requires Classify(lines[i], form).Reassigned? && Classify(lines[j], form).Reassigned?
    requires Classify(lines[i], form).action == Classify(lines[j], form).action
    ensures !Rewrite(lines, form).Updated?
  {
    ClassifyMeaning(lines[i], form);
    ClassifyMeaning(lines[j], form);
    if Rewrite(lines, form).Updated? {
      RewrittenGesturesDistinct(lines, form);
    }
  }

  /** A non-blank line without exactly one ':' refuses the update; it is
      never copied through. */
  lemma MalformedLineRefused(lines: seq<string>, form: Form, i: nat)
    requires i < |lines| && !AllSpace(lines[i]) && multiset(lines[i])[':'] != 1
    ensures !Rewrite(lines, form).Updated?
    ensures Rewrite(lines, form).Malformed? ==> Rewrite(lines, form).index <= i
  {
    ClassifyMeaning(lines[i], form);
    assert Fault(lines, form, i);
  }

  /** Cutting leading whitespace off `x + y` stops inside `x` when `y`
      starts with a non-whitespace character. */
  lemma {:induction false} StripLeftAppend(x: string, y: string)
    requires y != [] && !IsSpace(y[0])
    ensures StripLeft(x + y) == StripLeft(x) + y
  {
    if x != [] {
      assert (x + y)[0] == x[0];
      if IsSpace(x[0]) {
        assert (x + y)[1..] == x[1..] + y;
        StripLeftAppend(x[1..], y);
      }
    } else {
      assert x + y == y;
    }
  }

  /** A line the update writes, `gesture:action` plus a newline, reads back
      with the same action when neither part holds a ':' and the action is
      empty or ends in a non-whitespace character. */
  lemma {:induction false} WrittenLineReadsBack(g: string, a: string, form: Form)
    requires ':' !in g && ':' !in a
    requires a == [] || !IsSpace(a[|a| - 1])
    ensures Classify(g + ":" + a + "\n", form)
            == if a in form then Reassigned(form[a], a) else Kept(a)
  {
    var o := g + ":" + a + "\n";
    var w := StripLeft(g) + [':'] + a;
    assert o == g + ([':'] + a + ['\n']);
    StripLeftAppend(g, [':'] + a + ['\n']);
    assert StripLeft(o) == w + ['\n'];
    assert (w + ['\n'])[..|w|] == w;
    assert StripRight(w) == w;
    assert Strip(o) == w;
    StripLeftIsSuffix(g);
    assert ':' !in StripLeft(g) by {
      assert forall c :: c in StripLeft(g) ==> c in g;
    }
    SplitPair(StripLeft(g), a, ':');
  }

  /** Re-reading a line the update produced gives the same classification,
      provided the new gesture holds no ':'. */
  lemma RenderKeepsClass(line: string, form: Form)
    requires !Classify(line, form).Unparsable?
    requires Classify(line, form).Reassigned? ==> ':' !in Classify(line, form).gesture
    ensures Classify(Render(line, form), form) == Classify(line, form)
  {
    var e := Classify(line, form);
    if e.Reassigned? {
      ClassifyMeaning(line, form);
      StripIsTrim(line);
      var t := Strip(line);
      assert e.action == [] || !IsSpace(e.action[|e.action| - 1]) by {
        if e.action != [] {
          assert t[|t| - |[':'] + e.action|..] == [':'] + e.action;
          assert e.action[|e.action| - 1] == t[|t| - 1];
        }
      }
      WrittenLineReadsBack(e.gesture, e.action, form);
    }
  }

  /** Two tables whose lines classify alike hand out the same gestures. */
  lemma {:induction false} UsedGesturesAgree(xs: seq<string>, ys: seq<string>, form: Form, n: nat)
    requires n <= |xs| == |ys|
    requires forall i :: 0 <= i < |xs| ==> Classify(xs[i], form) == Classify(ys[i], form)
    ensures UsedGestures(xs, form, n) == UsedGestures(ys, form, n)
  {
    if n > 0 {
      UsedGesturesAgree(xs, ys, form, n - 1);
    }
  }

  /** Applying the same form to the result of a successful update returns
      that result again, when no rewritten line received a gesture holding a
      ':'. RewriteTwiceWithColonRefused shows that when one did, the second
      update is refused, so the two lemmas together say exactly when the
      update is idempotent. */
  lemma RewriteIdempotent(lines: seq<string>, form: Form)
    requires Rewrite(lines, form).Updated?
    requires forall i :: 0 <= i < |lines| && Classify(lines[i], form).Reassigned? ==>
               ':' !in Classify(lines[i], form).gesture
    ensures Rewrite(Rewrite(lines, form).lines, form) == Rewrite(lines, form)
  {
    var out := Rewrite(lines, form).lines;
    forall i | 0 <= i < |lines| ensures Classify(out[i], form) == Classify(lines[i], form) {
      assert !Fault(lines, form, i);
      ClassifyMeaning(lines[i], form);
      RenderKeepsClass(lines[i], form);
    }
    forall i | 0 <= i < |out| ensures !Fault(out, form, i) {
      assert !Fault(lines, form, i);
      UsedGesturesAgree(out, lines, form, i);
    }
    forall i | 0 <= i < |out| ensures Render(out[i], form) == out[i] { }
    RewriteCompletes(out, form, out);
  }

  /** A new gesture holding a ':' makes the written line unreadable, so the
      same form applied again is refused. */
  lemma RewriteTwiceWithColonRefused(lines: seq<string>, form: Form, i: nat)
    requires Rewrite(lines, form).Updated?
    requires i < |lines| && Classify(lines[i], form).Reassigned?
    requires ':' in Classify(lines[i], form).gesture
    ensures !Rewrite(Rewrite(lines, form).lines, form).Updated?
  {
    var out := Rewrite(lines, form).lines;
    var e := Classify(lines[i], form);
    assert out[i] == e.gesture + ":" + e.action + "\n";
    assert multiset(out[i])[':'] >= 2 by {
      assert out[i] == e.gesture + ([':'] + e.action + ['\n']);
      assert ':' in multiset(e.gesture);
    }
    assert out[i][|e.gesture|] == ':';
    MalformedLineRefused(out, form, i);
  }

  /** Lines left unchanged take no part in the gesture check: a form that
      moves action `a2` onto gesture `g1` is accepted although `g1` still
      drives action `a1` on the line above, which the form does not name. */
  lemma UnchangedLinesNotCompared(g1: string, a1: string, g2: string, a2: string, form: Form)
    requires ':' !in g1 && ':' !in a1 && ':' !in g2 && ':' !in a2
    requires a1 != [] && !IsSpace(a1[|a1| - 1]) && a2 != [] && !IsSpace(a2[|a2| - 1])
    requires a1 !in form && a2 in form && form[a2] == g1
    ensures Rewrite([g1 + ":" + a1 + "\n", g2 + ":" + a2 + "\n"], form)
            == Updated([g1 + ":" + a1 + "\n", g1 + ":" + a2 + "\n"])
  {
    var lines := [g1 + ":" + a1 + "\n", g2 + ":" + a2 + "\n"];
    WrittenLineReadsBack(g1, a1, form);
    WrittenLineReadsBack(g2, a2, form);
    assert UsedGestures(lines, form, 1) == {};
    assert !Fault(lines, form, 0) && !Fault(lines, form, 1);
    RewriteCompletes(lines, form, [g1 + ":" + a1 + "\n", g1 + ":" + a2 + "\n"]);
  }

  /** Giving two listed actions the same gesture is refused with a conflict
      that names that gesture. */
  lemma ConflictNamesGesture(g1: string, a1: string, g2: string, a2: string, form: Form)
    requires ':' !in g1 && ':' !in a1 && ':' !in g2 && ':' !in a2
    requires a1 != [] && !IsSpace(a1[|a1| - 1]) && a2 != [] && !IsSpace(a2[|a2| - 1])
    requires a1 in form && a2 in form && form[a1] == form[a2]
    ensures Rewrite([g1 + ":" + a1 + "\n", g2 + ":" + a2 + "\n"], form) == Conflict(form[a1])
  {
    var lines := [g1 + ":" + a1 + "\n", g2 + ":" + a2 + "\n"];
    WrittenLineReadsBack(g1, a1, form);
    WrittenLineReadsBack(g2, a2, form);
    assert UsedGestures(lines, form, 1) == {form[a1]};
    assert !Fault(lines, form, 0);
    RewriteStopsAt(lines, form, 1);
  }
}
