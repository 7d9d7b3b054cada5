/**
 What a tailer can still hand over, and what is lost for good: a write to a file no longer read, and a file rotated
 away before it was looked at.
 */
module LateWrites {
  import opened Wrappers
  import opened LogLines
  import opened LogPlace
  import opened Refusals
  import opened Follow
  import opened NoLineLost

  // Any run, whatever the writer and the rotation do.
  predicate CanRun(w: World, steps: seq<Step>)
    decreases |steps|
  {
    steps == [] || (Can(w, steps[0]) && CanRun(Do(w, steps[0]), steps[1..]))
  }

  function End(w: World, steps: seq<Step>): World
    requires CanRun(w, steps)
    decreases |steps|
  {
    if steps == [] then w else End(Do(w, steps[0]), steps[1..])
  }

  predicate Handed(w: World, l: Line) {
    l in w.done || (w.tail.Up? && l in w.tail.unflushed)
  }

  ghost predicate Hands(w: World, l: Line) {
    exists steps :: CanRun(w, steps) && l in End(w, steps).done
  }

  // The log, a file the tailer has open, or the renamed log with the place saved in it, under its fingerprint.
  predicate StillRead(w: World, file: nat) {
    || file == Log(w)
    || (w.tail.Up? && (file == w.tail.cur || (w.tail.rotated.Some? && file == w.tail.rotated.value.file)))
    || (file == Log(w) - 1 && w.stored.Some? && w.stored.value.fp == Some(file))
  }

  // ---- what is not read any more

  predicate Over(w: World, file: nat) {
    && file < Log(w) && !StillRead(w, file)
    && (w.tail.Up? && w.tail.adopted && file == Log(w) - 1 ==> w.tail.track.fp != Some(file))
  }

  lemma StepOver(w: World, step: Step, l: Line)
    requires Over(w, l.file) && !Handed(w, l) && Can(w, step)
    ensures Over(Do(w, step), l.file) && !Handed(Do(w, step), l)
  {
    hide LineEnd, Held, ToTheEnd;
  }

  lemma {:induction false} NeverAgain(w: World, steps: seq<Step>, l: Line)
    requires Over(w, l.file) && !Handed(w, l) && CanRun(w, steps)
    ensures !Handed(End(w, steps), l)
    decreases |steps|
  {
    if steps != [] {
      StepOver(w, steps[0], l);
      hide Over, Handed, Can, Do;
      NeverAgain(Do(w, steps[0]), steps[1..], l);
    }
  }

  lemma NotHanded(w: World, l: Line)
    requires Over(w, l.file) && !Handed(w, l)
    ensures !Hands(w, l)
  {
    forall steps | CanRun(w, steps) ensures l !in End(w, steps).done {
      NeverAgain(w, steps, l);
    }
  }

  // ---- what is

  lemma {:induction false} RunCan(w: World, steps: seq<Step>)
    requires Run(w, steps)
    ensures CanRun(w, steps) && End(w, steps) == After(w, steps)
    decreases |steps|
  {
    if steps != [] {
      RunCan(Do(w, steps[0]), steps[1..]);
    }
  }

  lemma LeadsHands(w: World, steps: seq<Step>, w': World, l: Line)
    requires Leads(w, steps, w') && l in w'.done
    ensures Hands(w, l)
  {
    RunCan(w, steps);
  }

  lemma HandsAfter(w: World, step: Step, l: Line)
    requires Can(w, step) && Hands(Do(w, step), l)
    ensures Hands(w, l)
  {
    var steps :| CanRun(Do(w, step), steps) && l in End(Do(w, step), steps).done;
    assert ([step] + steps)[1..] == steps;
    assert CanRun(w, [step] + steps) && End(w, [step] + steps) == End(Do(w, step), steps);
  }

  // Ahead of the reading, in a file the tailer has open.
  predicate Ahead(w: World, l: Line) {
    && w.tail.Up? && IsLine(w.files, l)
    && ((l.file == w.tail.cur && l.start >= w.tail.at)
        || (w.tail.rotated.Some? && l.file == w.tail.rotated.value.file && l.start >= w.tail.rotated.value.at))
  }

  lemma AheadIsHanded(w: World, l: Line)
    requires Attached(w) && (Ahead(w, l) || Handed(w, l))
    ensures Hands(w, l)
  {
    var steps, w' := Pass(w);
    if Ahead(w, l) && l.file == w.tail.cur && l.start >= w.tail.at {
      LinesCover(w.files[l.file], w.tail.at, l.start, l.end);
    } else if Ahead(w, l) {
      LinesCover(w.files[l.file], w.tail.rotated.value.at, l.start, l.end);
    }
    LeadsHands(w, steps, w', l);
  }

  // From wherever the tailer stands.
  lemma OpenIsHanded(w: World, l: Line)
    requires w.tail.Up? && w.tail.cur < |w.files| && (w.tail.rotated.Some? ==> w.tail.rotated.value.file < |w.files|)
    requires Ahead(w, l) || Handed(w, l)
    ensures Hands(w, l)
  {
    if w.tail.adopted {
      AheadIsHanded(w, l);
    } else {
      var w1 := Do(w, Flush([]));
      var w2 := Do(w1, Adopt);
      hide Held, LineEnd, Last;
      assert Ahead(w, l) ==> Ahead(w2, l);
      AheadIsHanded(w2, l);
      HandsAfter(w1, Adopt, l);
      HandsAfter(w, Flush([]), l);
    }
  }

  // By the next start.
  lemma DownIsHanded(w: World, l: Line)
    requires Sound(w) && w.tail.Down? && w.stored.Some? && IsLine(w.files, l)
    requires l.file == w.savedFile ==> l.start >= w.stored.value.offset
    requires l.file == Log(w) || (l.file == Log(w) - 1 && w.stored.value.fp == Some(l.file))
    ensures Hands(w, l)
  {
    var step := Start([], {});
    var up, from := Do(w, step), w.stored.value.offset;
    if l.file == Log(w) {
      assert Ahead(up, l);
      hide LineEnd, Last, Complete;
      AheadIsHanded(up, l);
    } else {
      LinesCover(w.files[l.file], from, l.start, l.end);
      EndCovers(w.files[l.file], from);
      assert Span(l.start, l.end) in ToTheEnd(w.files[l.file], from);
      assert l in up.done;
      LeadsHands(up, [], up, l);
    }
    HandsAfter(w, step, l);
  }

  // ---- the proviso on the writer

  lemma WriteIsOver(w: World, file: nat, more: string)
    requires Sound(w) && Can(w, Append(file, more)) && !StillRead(w, file)
    ensures Over(Do(w, Append(file, more)), file)
  {
    hide Last;
  }

  lemma WriteIsRead(w: World, file: nat, more: string, l: Line)
    requires Inv(w) && w.stored.Some? && Can(w, Append(file, more)) && StillRead(w, file)
    requires Owed(Do(w, Append(file, more)), l) && !IsLine(w.files, l)
    ensures Hands(Do(w, Append(file, more)), l)
  {
    var step := Append(file, more);
    var w' := Do(w, step);
    Grown(w, file, more, l);
    AppendKeepsSound(w, file, more);
    hide Complete, Last;
    if w.tail.Down? {
      DownIsHanded(w', l);
    } else if file == w.tail.cur || (w.tail.rotated.Some? && file == w.tail.rotated.value.file) {
      OpenIsHanded(w', l);
    } else if file == Log(w) {
      StepKeeps(w, step);
      var steps, w'' := CatchesUp(w');
      LeadsHands(w', steps, w'', l);
    } else {
      DownIsHanded(Do(w', Crash), l);
      HandsAfter(w', Crash, l);
    }
  }

  // A line that a write completes, at any moment of a run, can still be handed over exactly if the file is the log,
  // or one the tailer has open, or the renamed log with the place saved in it, under its fingerprint.
  lemma LateWriteExactly(w: World, before: seq<Step>, file: nat, more: string, l: Line)
    requires Fresh(w) && Run(w, before)
    requires var w1 := After(w, before);
             && w1.stored.Some? && Can(w1, Append(file, more))
             && Owed(Do(w1, Append(file, more)), l) && !IsLine(w1.files, l) && !Handed(w1, l)
    ensures var w1 := After(w, before);
            Hands(Do(w1, Append(file, more)), l) <==> StillRead(w1, file)
  {
    EveryRun(w, before);
    var w1 := After(w, before);
    var w' := Do(w1, Append(file, more));
    hide Run, After;
    if StillRead(w1, file) {
      WriteIsRead(w1, file, more, l);
    } else {
      Grown(w1, file, more, l);
      WriteIsOver(w1, file, more);
      assert l.file == file && !Handed(w', l);
      hide Inv, Owed, IsLine, StillRead, Over, Handed;
      NotHanded(w', l);
    }
  }

  // ---- the proviso on rotations

  // Of a log rotated away before the tailer has looked at it, no line is ever handed over, written by then or later;
  // of any other file, all that is owed still is.
  lemma TwoRotationsLoseExactly(w: World, before: seq<Step>, l: Line)
    requires Fresh(w) && Run(w, before)
    requires var w1 := After(w, before);
             && w1.tail.Up? && w1.tail.cur != Log(w1) && Can(w1, Rotate) && !Handed(w1, l)
             && (l.file == Log(w1) || Owed(Do(w1, Rotate), l))
    ensures var w1 := After(w, before);
            Hands(Do(w1, Rotate), l) <==> l.file != Log(w1)
  {
    EveryRun(w, before);
    var w1 := After(w, before);
    var w' := Do(w1, Rotate);
    hide Run, After;
    if l.file == Log(w1) {
      hide Reading, Recoverable;
      assert Over(w', l.file) && !Handed(w', l);
      hide *;
      NotHanded(w', l);
    } else {
      assert Owed(w1, l);
      assert Ahead(w', l);
      hide Last;
      OpenIsHanded(w', l);
    }
  }

  // ---- runs that need them

  lemma SavedAndRotated()
    ensures var steps := [Start([], {})] + [Append(0, "a\n")] + [Read(Nothing)] + [Flush([])] + [Record(true)]
                         + [Rotate];
            && Fresh(Zero()) && Run(Zero(), steps)
            && After(Zero(), steps) == World(["a\n", ""], Some(Saved(None, 2)), Short(0, 2, 2, true, None, {}), 0,
                 {Line(0, 0, 2)}, Some(Spot(0, 2)))
  {
    FirstLineSaved();
    var steps := [Start([], {})] + [Append(0, "a\n")] + [Read(Nothing)] + [Flush([])] + [Record(true)];
    RunOn(Zero(), steps, Rotate);
    hide Run, After;
  }

  // A log written to, and rotated away before the tailer has looked at it.
  lemma LogPassedOver() returns (before: seq<Step>)
    ensures Fresh(Zero()) && Run(Zero(), before)
    ensures var w := After(Zero(), before);
            && Can(w, Rotate) && !Proviso(w, Rotate)
            && Owed(Do(w, Rotate), Line(1, 0, 2)) && !Hands(Do(w, Rotate), Line(1, 0, 2))
  {
    SavedAndRotated();
    var steps := [Start([], {})] + [Append(0, "a\n")] + [Read(Nothing)] + [Flush([])] + [Record(true)] + [Rotate];
    RunOn(Zero(), steps, Append(1, "b\n"));
    before := steps + [Append(1, "b\n")];
    assert "" + "b\n" == "b\n";
    assert After(Zero(), before) == World(["a\n", "b\n"], Some(Saved(None, 2)), Short(0, 2, 2, true, None, {}), 0,
        {Line(0, 0, 2)}, Some(Spot(0, 2)));
    hide Run, After;
    TwoRotationsLoseExactly(Zero(), before, Line(1, 0, 2));
  }

  // A line written to the renamed file after the tailer has closed it.
  lemma WrittenTooLate() returns (before: seq<Step>)
    ensures Fresh(Zero()) && Run(Zero(), before)
    ensures var (w, late) := (After(Zero(), before), Append(0, "b\n"));
            && Can(w, late) && !Proviso(w, late)
            && Owed(Do(w, late), Line(0, 2, 4)) && !Hands(Do(w, late), Line(0, 2, 4))
  {
    SavedAndRotated();
    before := [Start([], {})] + [Append(0, "a\n")] + [Read(Nothing)] + [Flush([])] + [Record(true)] + [Rotate];
    var w := After(Zero(), before);
    var w1 := w.(tail := Short(1, 0, 2, false, Some(Old(0, 2, None)), {}));
    var w2 := w.(stored := Some(Saved(None, 0)), savedFile := 1,
        tail := Short(1, 0, 0, true, Some(Old(0, 2, None)), {}));
    var w3 := w2.(tail := Short(1, 0, 0, true, None, {}));
    assert w1 == Do(w, Switch);
    assert w2 == Do(w1, Adopt);
    assert w3 == Do(w2, CloseOld);
    assert "a\n" + "b\n" == "a\nb\n";
    assert Complete("a\nb\n", 2, 4) && !Complete("a\n", 2, 4);
    hide Run, After;
    RunOn(Zero(), before, Switch);
    before := before + [Switch];
    RunOn(Zero(), before, Adopt);
    before := before + [Adopt];
    RunOn(Zero(), before, CloseOld);
    before := before + [CloseOld];
    LateWriteExactly(Zero(), before, 0, "b\n", Line(0, 2, 4));
  }
}
