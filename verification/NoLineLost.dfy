/** In every run, every complete line from the first saved place on is handed over and flushed. */
module NoLineLost {
  import opened Wrappers
  import opened LogLines
  import opened LogPlace
  import opened Refusals
  import opened Follow

  predicate IsLine(files: seq<string>, l: Line) {
    l.file < |files| && Complete(files[l.file], l.start, l.end)
  }

  predicate From(l: Line, file: nat, at: nat) {
    l.file > file || (l.file == file && l.start >= at)
  }

  // A complete line, written after the first saved place or standing at it.
  predicate Owed(w: World, l: Line) {
    w.origin.Some? && IsLine(w.files, l) && From(l, w.origin.value.file, w.origin.value.at)
  }

  // Still to come from the file rotated away.
  predicate Late(w: World, l: Line) {
    && w.tail.Up? && w.tail.rotated.Some? && l.file == w.tail.rotated.value.file
    && (l.start >= w.tail.rotated.value.at || l in w.tail.unflushed)
  }

  // Still to come from a file that the saved place is past.
  predicate LostInCrash(w: World, l: Line) {
    Late(w, l) && w.tail.rotated.value.file < w.savedFile
  }

  // It is done with, or the saved place is not past it; but for what comes late to the file rotated away.
  ghost predicate Recoverable(w: World) {
    forall l | Owed(w, l) ::
      l in w.done || LostInCrash(w, l) || (w.stored.Some? && From(l, w.savedFile, w.stored.value.offset))
  }

  // The tailer as it runs has it, or has yet to read it.
  ghost predicate Reading(w: World) {
    w.tail.Up? ==> forall l | Owed(w, l) ::
      l in w.done || l in w.tail.unflushed || Late(w, l) || From(l, w.tail.cur, w.tail.at)
  }

  predicate Fits(w: World, fp: Fingerprint, file: nat) {
    file < |w.files| && (fp.Some? ==> fp.value == file && |w.files[file]| >= FINGERPRINT_SIZE)
  }

  predicate Place0(w: World) {
    && |w.files| > 0
    && (w.origin.Some? <==> w.stored.Some?)
    && (w.stored.Some? ==>
          && Fits(w, w.stored.value.fp, w.savedFile)
          && w.stored.value.offset <= Last(w.files[w.savedFile])
          && w.origin.value.file <= w.savedFile)
  }

  predicate Position(w: World)
    requires Place0(w)
  {
    var t := w.tail;
    t.Up? ==>
      && t.cur < |w.files| <= t.cur + 2 && t.at <= |w.files[t.cur]|
      && (t.rotated.Some? ==> t.rotated.value.file < t.cur && t.rotated.value.at <= |w.files[t.rotated.value.file]|)
      && (t.adopted ==> Fits(w, t.track.fp, t.cur))
      && (!t.adopted ==> t.rotated.Some? && t.at == 0)
      && (w.stored.Some? ==>
            && w.savedFile <= t.cur
            && t.at <= Last(w.files[t.cur])
            && (!t.adopted ==> w.savedFile <= t.rotated.value.file)
            && (t.rotated.Some? ==>
                  t.rotated.value.at <= Last(w.files[t.rotated.value.file])
                      || t.rotated.value.file < w.origin.value.file))
      && (w.stored.None? && t.adopted ==>
            t.rotated.None? && 0 <= t.track.saved <= t.at && (t.at == t.track.saved || t.at <= Last(w.files[t.cur])))
  }

  predicate Sound(w: World) {
    Place0(w) && Position(w)
  }

  // Until the first place is saved: what is in memory is of the one file read so far, and of its lines none was
  // left out.
  predicate Young(w: World) {
    w.stored.None? && w.tail.Up? && w.tail.adopted
  }

  ghost predicate YoungMarks(w: World) {
    Young(w) ==>
      && (forall x | x in w.tail.waits :: x.mark.file == w.tail.cur && x.mark.start.at >= w.tail.track.saved)
      && (forall m | m in w.tail.logins :: m.file == w.tail.cur && m.start.at >= w.tail.track.saved)
  }

  ghost predicate YoungRead(w: World) {
    Young(w) ==> forall l | IsLine(w.files, l) && l.file == w.tail.cur && w.tail.track.saved <= l.start < w.tail.at ::
      l in w.done || l in w.tail.unflushed
  }

  ghost predicate Inv(w: World) {
    Sound(w) && YoungMarks(w) && YoungRead(w) && Recoverable(w) && Reading(w)
  }

  // ---- what is saved

  lemma HeldIs(waits: seq<Wait>, fp: Fingerprint)
    ensures var r := Held(waits, fp);
            && (r.Some? ==> exists x :: x in waits && x.mark.start == Place(fp, r.value))
            && forall x | x in waits && x.mark.start.fp == fp :: r.Some? && r.value <= x.mark.start.at
  {
    var places := seq(|waits|, i requires 0 <= i < |waits| => waits[i].mark.start);
    OldestIs(places, fp);
    forall x | x in waits && x.mark.start.fp == fp
        ensures Held(waits, fp).Some? && Held(waits, fp).value <= x.mark.start.at {
      var i :| 0 <= i < |waits| && waits[i] == x;
      assert places[i] == x.mark.start;
    }
    if Held(waits, fp).Some? {
      var i :| 0 <= i < |places| && places[i] == Place(fp, Held(waits, fp).value);
      assert waits[i] in waits;
    }
  }

  // ---- the steps keep what is sound

  lemma AppendKeepsSound(w: World, file: nat, more: string)
    requires Sound(w) && Can(w, Append(file, more))
    ensures Sound(Do(w, Append(file, more)))
  {
    LastGrows(w.files[file], more);
  }

  lemma StartKeepsSound(w: World, waiting: seq<Wait>, named: set<Mark>)
    requires Sound(w) && Can(w, Start(waiting, named))
    ensures Sound(Do(w, Start(waiting, named)))
  {
  }

  lemma ReadKeepsSound(w: World, effect: Effect)
    requires Sound(w) && Can(w, Read(effect))
    ensures Sound(Do(w, Read(effect)))
  {
    EndIsPast(w.files[w.tail.cur], w.tail.at);
  }

  lemma ReadOldKeepsSound(w: World, effect: Effect)
    requires Sound(w) && Can(w, ReadOld(effect))
    ensures Sound(Do(w, ReadOld(effect)))
  {
    EndIsPast(w.files[w.tail.rotated.value.file], w.tail.rotated.value.at);
  }

  lemma EndIsPast(text: string, at: nat)
    requires LineEnd(text, at).Some?
    ensures LineEnd(text, at).value <= Last(text)
  {
  }

  lemma SaveKeepsSound(w: World, step: Step)
    requires Sound(w) && YoungMarks(w) && (step.Adopt? || step.Record? || step.Stop?) && Can(w, step)
    ensures Sound(Do(w, step))
  {
    HeldIs(w.tail.waits, w.tail.track.fp);
    hide Held;
  }

  lemma StepKeepsSound(w: World, step: Step)
    requires Sound(w) && YoungMarks(w) && Can(w, step) && Proviso(w, step)
    ensures Sound(Do(w, step))
  {
    match step
    case Append(file, more) => AppendKeepsSound(w, file, more);
    case Start(waiting, named) => StartKeepsSound(w, waiting, named);
    case Read(effect) => ReadKeepsSound(w, effect);
    case ReadOld(effect) => ReadOldKeepsSound(w, effect);
    case Adopt => SaveKeepsSound(w, step);
    case Record(_) => SaveKeepsSound(w, step);
    case Stop => SaveKeepsSound(w, step);
    case _ =>
  }

  // ---- and what is owed

  lemma YoungMarksKept(w: World, step: Step)
    requires Sound(w) && YoungMarks(w) && Can(w, step) && Proviso(w, step)
    ensures YoungMarks(Do(w, step))
  {
    hide Held, LineEnd, Last, LinesOf;
  }

  // The lines complete in the grown file were so before, or start past all that were.
  lemma Grown(w: World, file: nat, more: string, l: Line)
    requires |w.files| > 0 && file < |w.files| && IsLine(w.files[file := w.files[file] + more], l)
    ensures IsLine(w.files, l) || (l.file == file && l.start >= Last(w.files[file]))
  {
    if l.file == file {
      NewLine(w.files[file], more, l.start, l.end);
    }
  }

  lemma AppendKeepsOwed(w: World, file: nat, more: string)
    requires Inv(w) && Can(w, Append(file, more)) && Proviso(w, Append(file, more))
    ensures var w' := Do(w, Append(file, more)); Recoverable(w') && Reading(w') && YoungRead(w')
  {
    var w' := Do(w, Append(file, more));
    forall l | Owed(w', l)
      ensures l in w'.done || LostInCrash(w', l) || (w'.stored.Some? && From(l, w'.savedFile, w'.stored.value.offset))
      ensures w.tail.Up? ==> l in w'.done || l in w'.tail.unflushed || Late(w', l) || From(l, w'.tail.cur, w'.tail.at)
    {
      Grown(w, file, more, l);
      assert Owed(w, l) || (l.file == file && l.start >= Last(w.files[file]));
    }
    if Young(w) {
      forall l | IsLine(w'.files, l) && l.file == w.tail.cur && w.tail.track.saved <= l.start < w.tail.at
        ensures l in w.done || l in w.tail.unflushed
      {
        Grown(w, file, more, l);
      }
    }
  }

  lemma RotateKeepsOwed(w: World)
    requires Inv(w) && Proviso(w, Rotate)
    ensures var w' := Do(w, Rotate); Recoverable(w') && Reading(w') && YoungRead(w')
  {
    var w' := Do(w, Rotate);
    assert forall l | IsLine(w'.files, l) :: IsLine(w.files, l);
    assert forall l | Owed(w', l) :: Owed(w, l);
  }

  lemma StartKeepsOwed(w: World, waiting: seq<Wait>, named: set<Mark>)
    requires Inv(w) && Can(w, Start(waiting, named)) && Proviso(w, Start(waiting, named))
    ensures var w' := Do(w, Start(waiting, named)); Recoverable(w') && Reading(w') && YoungRead(w')
  {
    var w' := Do(w, Start(waiting, named));
    forall l | Owed(w', l)
      ensures l in w'.done || From(l, w'.tail.cur, w'.tail.at)
      ensures l in w'.done || From(l, w.savedFile, w.stored.value.offset)
    {
      assert Owed(w, l);
      if w.savedFile == Log(w) - 1 && l.file == w.savedFile && l.start >= w.stored.value.offset {
        var text := w.files[l.file];
        LinesCover(text, w.stored.value.offset, l.start, l.end);
        EndCovers(text, w.stored.value.offset);
        assert Span(l.start, l.end) in ToTheEnd(text, w.stored.value.offset);
      }
    }
  }

  lemma ReadKeepsOwed(w: World, effect: Effect)
    requires Inv(w) && Can(w, Read(effect))
    ensures var w' := Do(w, Read(effect)); Recoverable(w') && Reading(w') && YoungRead(w')
  {
    var w' := Do(w, Read(effect));
    var cur, at := w.tail.cur, w.tail.at;
    forall l | IsLine(w.files, l) && l.file == cur && l.start >= at
      ensures l in w'.tail.unflushed || l.start >= w'.tail.at
    {
      NextLine(w.files[cur], at, l.start, l.end);
    }
    assert forall l | Owed(w', l) :: Owed(w, l);
    assert forall l | Late(w, l) :: Late(w', l);
  }

  lemma ReadOldKeepsOwed(w: World, effect: Effect)
    requires Inv(w) && Can(w, ReadOld(effect))
    ensures var w' := Do(w, ReadOld(effect)); Recoverable(w') && Reading(w') && YoungRead(w')
  {
    var w' := Do(w, ReadOld(effect));
    var o := w.tail.rotated.value;
    forall l | IsLine(w.files, l) && l.file == o.file && l.start >= o.at
      ensures l in w'.tail.unflushed || l.start >= w'.tail.rotated.value.at
    {
      NextLine(w.files[o.file], o.at, l.start, l.end);
    }
    assert forall l | Owed(w', l) :: Owed(w, l);
    assert forall l | Owed(w, l) && Late(w, l) :: Late(w', l);
  }

  lemma FlushKeepsOwed(w: World, kept: seq<Wait>)
    requires Inv(w) && Can(w, Flush(kept))
    ensures var w' := Do(w, Flush(kept)); Recoverable(w') && Reading(w') && YoungRead(w')
  {
    var w' := Do(w, Flush(kept));
    assert forall l | Owed(w', l) :: Owed(w, l);
    assert forall l | Late(w, l) :: l in w'.done || Late(w', l);
  }

  lemma CloseKeepsOwed(w: World)
    requires Inv(w) && Can(w, CloseOld)
    ensures var w' := Do(w, CloseOld); Recoverable(w') && Reading(w') && YoungRead(w')
  {
    var w' := Do(w, CloseOld);
    var o := w.tail.rotated.value;
    forall l | Owed(w', l)
      ensures Owed(w, l) && !Late(w, l)
    {
    }
  }

  lemma SwitchKeepsOwed(w: World)
    requires Inv(w) && Can(w, Switch)
    ensures var w' := Do(w, Switch); Recoverable(w') && Reading(w') && YoungRead(w')
  {
    var w' := Do(w, Switch);
    assert forall l | Owed(w', l) :: Owed(w, l);
  }

  // What is saved is behind what is read, and what is read is flushed.
  lemma SaveKeepsOwed(w: World, step: Step)
    requires Inv(w) && (step.Adopt? || step.Record?) && Can(w, step)
    ensures var w' := Do(w, step); Recoverable(w') && Reading(w') && YoungRead(w')
  {
    var w' := Do(w, step);
    HeldIs(w.tail.waits, w.tail.track.fp);
    hide Held, Complete;
    forall l | Owed(w', l)
      ensures l in w'.done || LostInCrash(w', l) || From(l, w'.savedFile, w'.stored.value.offset)
      ensures l in w'.done || l in w'.tail.unflushed || Late(w', l) || From(l, w'.tail.cur, w'.tail.at)
    {
      assert w.origin.Some? ==> Owed(w, l);
    }
  }

  lemma StopKeepsOwed(w: World)
    requires Inv(w) && Can(w, Stop)
    ensures Recoverable(Do(w, Stop))
  {
    SaveKeepsOwed(w, Record(true));
    var mid, w' := Do(w, Record(true)), Do(w, Stop);
    forall l | Owed(w', l) ensures Owed(mid, l) && !Late(mid, l) {
    }
  }

  lemma CrashKeepsOwed(w: World)
    requires Inv(w) && Can(w, Crash) && Proviso(w, Crash)
    ensures Recoverable(Do(w, Crash))
  {
    var w' := Do(w, Crash);
    forall l | Owed(w', l)
      ensures l in w.done || From(l, w.savedFile, w.stored.value.offset)
    {
      assert Owed(w, l);
    }
  }

  lemma StepKeeps(w: World, step: Step)
    requires Inv(w) && Can(w, step) && Proviso(w, step)
    ensures Inv(Do(w, step))
  {
    StepKeepsSound(w, step);
    YoungMarksKept(w, step);
    match step
    case Append(file, more) => AppendKeepsOwed(w, file, more);
    case Rotate => RotateKeepsOwed(w);
    case Start(waiting, named) => StartKeepsOwed(w, waiting, named);
    case Read(effect) => ReadKeepsOwed(w, effect);
    case ReadOld(effect) => ReadOldKeepsOwed(w, effect);
    case Flush(kept) => FlushKeepsOwed(w, kept);
    case CloseOld => CloseKeepsOwed(w);
    case Switch => SwitchKeepsOwed(w);
    case Adopt => SaveKeepsOwed(w, step);
    case Record(_) => SaveKeepsOwed(w, step);
    case Stop => StopKeepsOwed(w);
    case Crash => CrashKeepsOwed(w);
  }

  // ---- runs

  predicate Run(w: World, steps: seq<Step>)
    decreases |steps|
  {
    steps == [] || (Can(w, steps[0]) && Proviso(w, steps[0]) && Run(Do(w, steps[0]), steps[1..]))
  }

  function After(w: World, steps: seq<Step>): World
    requires Run(w, steps)
    decreases |steps|
  {
    if steps == [] then w else After(Do(w, steps[0]), steps[1..])
  }

  // A panel never started before, beside files of any content.
  predicate Fresh(w: World) {
    |w.files| > 0 && w.stored.None? && w.origin.None? && w.tail.Down?
  }

  // At every moment of every run, each line owed is done with, or still ahead of the reading, and of the place a
  // crash would fall back to.
  lemma {:induction false} EveryRun(w: World, steps: seq<Step>)
    requires Inv(w) && Run(w, steps)
    ensures Inv(After(w, steps))
    decreases |steps|
  {
    if steps != [] {
      StepKeeps(w, steps[0]);
      EveryRun(Do(w, steps[0]), steps[1..]);
    }
  }

  // At the end of the log, with what was read flushed.
  predicate CaughtUp(w: World) {
    && |w.files| > 0
    && w.tail.Up? && w.tail.adopted && w.tail.cur == Log(w) && w.tail.unflushed == {}
    && LineEnd(w.files[w.tail.cur], w.tail.at).None?
    && OldRead(w)
  }

  // A tailer that has caught up has missed nothing, whatever came before.
  lemma NothingMissed(w: World, steps: seq<Step>)
    requires Fresh(w) && Run(w, steps) && CaughtUp(After(w, steps))
    ensures var w' := After(w, steps); forall l | Owed(w', l) :: l in w'.done
  {
    EveryRun(w, steps);
    AllDone(After(w, steps));
  }

  lemma AllDone(w: World)
    requires Inv(w) && CaughtUp(w)
    ensures forall l | Owed(w, l) :: l in w.done
  {
    forall l | Owed(w, l) ensures !Late(w, l) && !From(l, w.tail.cur, w.tail.at) {
    }
  }

  // ---- and the tailer does catch up

  predicate OwnStep(step: Step) {
    step.Start? || step.Read? || step.ReadOld? || step.Flush? || step.CloseOld? || step.Switch? || step.Adopt?
  }

  predicate OwnSteps(steps: seq<Step>) {
    forall i | 0 <= i < |steps| :: OwnStep(steps[i])
  }

  ghost predicate Leads(w: World, steps: seq<Step>, w': World) {
    Run(w, steps) && OwnSteps(steps) && After(w, steps) == w'
  }

  lemma {:induction false} LeadsOn(w: World, first: seq<Step>, mid: World, second: seq<Step>, w': World)
    requires Leads(w, first, mid) && Leads(mid, second, w')
    ensures Leads(w, first + second, w')
    decreases |first|
  {
    if first == [] {
      assert first + second == second;
    } else {
      assert (first + second)[1..] == first[1..] + second;
      assert OwnSteps(first[1..]);
      LeadsOn(Do(w, first[0]), first[1..], mid, second, w');
    }
  }

  lemma OneStep(w: World, step: Step)
    requires Can(w, step) && Proviso(w, step) && OwnStep(step)
    ensures Leads(w, [step], Do(w, step))
  {
    assert Run(Do(w, step), [step][1..]);
  }

  // What the tailer's own steps leave as it is.
  predicate SameLog(w: World, w': World) {
    w'.files == w.files && (w.origin.Some? ==> w'.origin == w.origin) && w.done <= w'.done
  }

  predicate Attached(w: World) {
    |w.files| > 0 && w.tail.Up? && w.tail.adopted && w.tail.cur < |w.files|
    && (w.tail.rotated.Some? ==> w.tail.rotated.value.file < |w.files|)
  }

  function Unread(text: string, at: nat): nat {
    if at < |text| then |text| - at else 0
  }

  lemma OneMoreLine(text: string, file: nat, at: nat)
    requires LineEnd(text, at).Some?
    ensures var end := LineEnd(text, at).value;
            LinesOf(file, Lines(text, at)) == {Line(file, at, end)} + LinesOf(file, Lines(text, end))
  {
    var end := LineEnd(text, at).value;
    var more := Lines(text, end);
    assert forall x :: x in [Span(at, end)] + more <==> x == Span(at, end) || x in more;
    hide LineEnd;
  }

  // Reading line by line hands over what a pass of Follower.Drain does, and ends where it does.
  lemma {:induction false} ReadsTheLog(w: World) returns (steps: seq<Step>, w': World)
    requires Attached(w)
    ensures Leads(w, steps, w') && SameLog(w, w')
    ensures Attached(w') && w'.tail.cur == w.tail.cur && w'.tail.rotated == w.tail.rotated
    ensures LineEnd(w.files[w.tail.cur], w'.tail.at).None? && w'.tail.at == Rest(w.files[w.tail.cur], w.tail.at)
    ensures w'.tail.unflushed == w.tail.unflushed + LinesOf(w.tail.cur, Lines(w.files[w.tail.cur], w.tail.at))
    decreases Unread(w.files[w.tail.cur], w.tail.at)
  {
    if LineEnd(w.files[w.tail.cur], w.tail.at).None? {
      steps, w' := [], w;
    } else {
      var step := Read(Nothing);
      OneStep(w, step);
      var rest: seq<Step>;
      rest, w' := ReadsTheLog(Do(w, step));
      OneMoreLine(w.files[w.tail.cur], w.tail.cur, w.tail.at);
      LeadsOn(w, [step], Do(w, step), rest, w');
      steps := [step] + rest;
    }
  }

  lemma {:induction false} ReadsTheOld(w: World) returns (steps: seq<Step>, w': World)
    requires Attached(w)
    ensures Leads(w, steps, w') && SameLog(w, w')
    ensures Attached(w') && w'.tail.cur == w.tail.cur && w'.tail.at == w.tail.at && OldRead(w')
    ensures w.tail.unflushed <= w'.tail.unflushed
    ensures w.tail.rotated.Some? ==>
              var o := w.tail.rotated.value; LinesOf(o.file, Lines(w.files[o.file], o.at)) <= w'.tail.unflushed
    decreases if w.tail.rotated.Some? then Unread(w.files[w.tail.rotated.value.file], w.tail.rotated.value.at) else 0
  {
    if OldRead(w) {
      steps, w' := [], w;
    } else {
      var step := ReadOld(Nothing);
      OneStep(w, step);
      var rest: seq<Step>;
      rest, w' := ReadsTheOld(Do(w, step));
      OneMoreLine(w.files[w.tail.rotated.value.file], w.tail.rotated.value.file, w.tail.rotated.value.at);
      LeadsOn(w, [step], Do(w, step), rest, w');
      steps := [step] + rest;
    }
  }

  // A pass over the renamed file and the open one, flushed.
  lemma Pass(w: World) returns (steps: seq<Step>, w': World)
    requires Attached(w)
    ensures Leads(w, steps, w') && SameLog(w, w')
    ensures Attached(w') && w'.tail.cur == w.tail.cur && OldRead(w') && w'.tail.unflushed == {}
    ensures LineEnd(w.files[w.tail.cur], w'.tail.at).None?
    ensures w.tail.unflushed + LinesOf(w.tail.cur, Lines(w.files[w.tail.cur], w.tail.at)) <= w'.done
    ensures w.tail.rotated.Some? ==>
              var o := w.tail.rotated.value; LinesOf(o.file, Lines(w.files[o.file], o.at)) <= w'.done
  {
    var first, w1 := ReadsTheLog(w);
    var second, w2 := ReadsTheOld(w1);
    LeadsOn(w, first, w1, second, w2);
    OneStep(w2, Flush([]));
    w' := Do(w2, Flush([]));
    LeadsOn(w, first + second, w2, [Flush([])], w');
    steps := first + second + [Flush([])];
  }

  // From a file renamed to the log that took its place.
  lemma Moves(w: World) returns (steps: seq<Step>, w': World)
    requires Attached(w) && w.tail.cur != Log(w) && OldRead(w) && w.tail.unflushed == {}
    ensures Leads(w, steps, w') && SameLog(w, w') && Attached(w') && w'.tail.cur == Log(w')
  {
    steps, w' := [], w;
    if w.tail.rotated.Some? {
      OneStep(w, CloseOld);
      steps, w' := [CloseOld], Do(w, CloseOld);
    }
    OneStep(w', Switch);
    LeadsOn(w, steps, w', [Switch], Do(w', Switch));
    steps, w' := steps + [Switch], Do(w', Switch);
    OneStep(w', Adopt);
    LeadsOn(w, steps, w', [Adopt], Do(w', Adopt));
    steps, w' := steps + [Adopt], Do(w', Adopt);
  }

  // Left to itself, the tailer comes from anywhere in a run to where every line owed is done: no state of a run
  // has lost one.
  lemma CatchesUp(w: World) returns (steps: seq<Step>, w': World)
    requires Inv(w) && (w.tail.Down? ==> Proviso(w, Start([], {})))
    ensures Leads(w, steps, w') && CaughtUp(w') && w'.files == w.files
    ensures forall l | Owed(w, l) :: l in w'.done
  {
    steps, w' := Attaches(w);
    var more, w1 := Pass(w');
    LeadsOn(w, steps, w', more, w1);
    steps, w' := steps + more, w1;
    if w'.tail.cur != Log(w') {
      more, w1 := Moves(w');
      LeadsOn(w, steps, w', more, w1);
      steps, w' := steps + more, w1;
      more, w1 := Pass(w');
      LeadsOn(w, steps, w', more, w1);
      steps, w' := steps + more, w1;
    }
    EveryRun(w, steps);
    AllDone(w');
    assert forall l | Owed(w, l) :: Owed(w', l);
  }

  lemma Attaches(w: World) returns (steps: seq<Step>, w': World)
    requires Inv(w) && (w.tail.Down? ==> Proviso(w, Start([], {})))
    ensures Leads(w, steps, w') && SameLog(w, w') && Attached(w')
  {
    steps, w' := [], w;
    if w.tail.Down? {
      OneStep(w, Start([], {}));
      steps, w' := [Start([], {})], Do(w, Start([], {}));
    } else if !w.tail.adopted {
      OneStep(w, Flush([]));
      w' := Do(w, Flush([]));
      OneStep(w', Adopt);
      LeadsOn(w, [Flush([])], w', [Adopt], Do(w', Adopt));
      steps, w' := [Flush([])] + [Adopt], Do(w', Adopt);
    }
  }

  // ---- a proviso that is needed: what a crash loses

  // After a crash at any moment of a run, the place saved is past a line owed and not done exactly if that came
  // late to a renamed file the place saved is past, and is not done with yet.
  lemma CrashLosesExactly(w: World, steps: seq<Step>, l: Line)
    requires Fresh(w) && Run(w, steps)
    requires var w1 := After(w, steps); w1.tail.Up? && Owed(w1, l) && l !in w1.done
    ensures var w1 := After(w, steps);
            w1.stored.Some? && (!From(l, w1.savedFile, w1.stored.value.offset) <==> LostInCrash(w1, l))
  {
    EveryRun(w, steps);
    hide Run, After, IsLine;
  }

  // Not in what is being read, and behind the place saved or in a file that no start from that place reads.
  predicate Gone(w: World, l: Line) {
    && l !in w.done && w.stored.Some? && l.file < Log(w)
    && (l.file < w.savedFile || w.stored.value.fp.None? || w.savedFile + 1 < Log(w))
    && (w.tail.Up? ==>
          l !in w.tail.unflushed && l.file < w.tail.cur
          && (w.tail.rotated.Some? ==> l.file < w.tail.rotated.value.file))
  }

  lemma {:induction false} StaysGone(w: World, steps: seq<Step>, l: Line)
    requires Sound(w) && YoungMarks(w) && Gone(w, l) && Run(w, steps)
    ensures Gone(After(w, steps), l)
    decreases |steps|
  {
    if steps != [] {
      StepKeepsSound(w, steps[0]);
      YoungMarksKept(w, steps[0]);
      GoneOn(w, steps[0], l);
      hide Do, Can, Proviso, Sound, YoungMarks, Gone;
      StaysGone(Do(w, steps[0]), steps[1..], l);
    }
  }

  lemma GoneOn(w: World, step: Step, l: Line)
    requires Sound(w) && Gone(w, l) && Can(w, step) && Proviso(w, step)
    ensures Gone(Do(w, step), l)
  {
    hide Last, LineEnd, Held, ToTheEnd;
  }

  // Such a line is lost for good: no run after the crash hands it over and flushes it.
  lemma LostForGood(w: World, before: seq<Step>, l: Line, after: seq<Step>)
    requires Fresh(w) && Run(w, before)
    requires var w1 := After(w, before); w1.tail.Up? && Owed(w1, l) && l !in w1.done && LostInCrash(w1, l)
    requires Run(Do(After(w, before), Crash), after)
    ensures l !in After(Do(After(w, before), Crash), after).done
  {
    EveryRun(w, before);
    var down := Do(After(w, before), Crash);
    assert Sound(down) && YoungMarks(down) && Gone(down, l);
    hide Run, After, Sound, YoungMarks, LostInCrash, Owed, Inv;
    StaysGone(down, after, l);
  }

  // In the log, or in the renamed log with the place saved in it, under a fingerprint.
  predicate InReach(down: World, l: Line) {
    || l.file == Log(down)
    || (l.file == down.savedFile == Log(down) - 1 && down.stored.Some? && down.stored.value.fp.Some?)
  }

  // A start on any place saved, in the log or not any more, reads on to a line owed and not done exactly if that is
  // in its reach.
  lemma StartLosesExactly(w: World, before: seq<Step>, l: Line)
    requires Fresh(w) && Run(w, before)
    requires var down := After(w, before); down.tail.Down? && Owed(down, l) && l !in down.done
    ensures var down := After(w, before);
            && Can(down, Start([], {})) && down.stored.Some?
            && var up := Do(down, Start([], {}));
            (l in up.done || From(l, up.tail.cur, up.tail.at)) <==>
            InReach(down, l)
  {
    EveryRun(w, before);
    var down := After(w, before);
    hide Run, After;
    ReadOnExactly(down, l);
  }

  lemma ReadOnExactly(down: World, l: Line)
    requires Inv(down) && down.tail.Down? && Owed(down, l) && l !in down.done
    ensures var up := Do(down, Start([], {}));
            (l in up.done || From(l, up.tail.cur, up.tail.at)) <==>
            InReach(down, l)
  {
    var text, from := down.files[down.savedFile], down.stored.value.offset;
    if l.file == down.savedFile == Log(down) - 1 && down.stored.value.fp.Some? {
      LinesCover(text, from, l.start, l.end);
      EndCovers(text, from);
      assert Span(l.start, l.end) in ToTheEnd(text, from);
    }
    hide Last, Complete;
  }

  // What such a start does not read on to is lost for good.
  lemma LostAtTheStart(w: World, before: seq<Step>, l: Line, after: seq<Step>)
    requires Fresh(w) && Run(w, before)
    requires var down := After(w, before); down.tail.Down? && Owed(down, l) && l !in down.done
    requires var down := After(w, before);
             !InReach(down, l)
    requires Run(Do(After(w, before), Start([], {})), after)
    ensures l !in After(Do(After(w, before), Start([], {})), after).done
  {
    EveryRun(w, before);
    StartLosesExactly(w, before, l);
    var down := After(w, before);
    var up := Do(down, Start([], {}));
    StartKeepsSound(down, [], {});
    assert Gone(up, l) && YoungMarks(up) by {
      hide Run, After;
      GoneAtTheStart(down, l);
    }
    hide Run, After, Sound, YoungMarks, Gone, Owed, Inv;
    StaysGone(up, after, l);
  }

  lemma GoneAtTheStart(down: World, l: Line)
    requires Inv(down) && down.tail.Down? && Owed(down, l) && l !in down.done
    requires !InReach(down, l)
    ensures Gone(Do(down, Start([], {})), l) && YoungMarks(Do(down, Start([], {})))
  {
    ReadOnExactly(down, l);
    hide LinesOf, ToTheEnd, Last, Complete;
  }

  // Any other is handed over and flushed by the tailer's next start, whatever else the crash lost.
  lemma KeptThroughACrash(w: World, before: seq<Step>, l: Line) returns (after: seq<Step>, w': World)
    requires Fresh(w) && Run(w, before)
    requires var w1 := After(w, before); w1.tail.Up? && Owed(w1, l) && !LostInCrash(w1, l)
    requires Proviso(Do(After(w, before), Crash), Start([], {}))
    ensures Leads(Do(After(w, before), Crash), after, w') && l in w'.done
  {
    EveryRun(w, before);
    var w1 := After(w, before);
    var down := Do(w1, Crash);
    hide Run, After;
    after, w' := StartReadsOn(w1, down, l);
  }

  lemma StartReadsOn(w1: World, down: World, l: Line) returns (after: seq<Step>, w': World)
    requires Inv(w1) && w1.tail.Up? && Owed(w1, l) && !LostInCrash(w1, l) && down == Do(w1, Crash)
    requires Proviso(down, Start([], {}))
    ensures Leads(down, after, w') && l in w'.done
  {
    var step := Start([], {});
    var up := Do(down, step);
    OneStep(down, step);
    assert l in up.done || (l.file == up.tail.cur && l.start >= up.tail.at) by {
      var text, from := down.files[down.savedFile], down.stored.value.offset;
      if l !in w1.done && l.file == down.savedFile && down.savedFile == Log(down) - 1 {
        LinesCover(text, from, l.start, l.end);
        EndCovers(text, from);
        assert Span(l.start, l.end) in ToTheEnd(text, from);
      }
    }
    var more;
    more, w' := Pass(up);
    if l !in up.done {
      LinesCover(up.files[up.tail.cur], up.tail.at, l.start, l.end);
    }
    LeadsOn(down, [step], up, more, w');
    after := [step] + more;
  }

  lemma {:induction false} RunOn(w: World, steps: seq<Step>, step: Step)
    requires Run(w, steps) && Can(After(w, steps), step) && Proviso(After(w, steps), step)
    ensures Run(w, steps + [step]) && After(w, steps + [step]) == Do(After(w, steps), step)
    decreases |steps|
  {
    if steps == [] {
      assert steps + [step] == [step] && [step][1..] == [];
    } else {
      assert (steps + [step])[1..] == steps[1..] + [step];
      RunOn(Do(w, steps[0]), steps[1..], step);
    }
  }

  // The tailer in files too short for a fingerprint, with nothing waiting.
  function Short(cur: nat, at: nat, saved: int, adopted: bool, rotated: Option<Old>, unflushed: set<Line>): Tail {
    Up(cur, at, Track(None, saved), adopted, rotated, unflushed, [], {})
  }

  function Zero(): World {
    World([""], None, Down, 0, {}, None)
  }

  function LateSteps(): seq<Step> {
    [Start([], {})] + [Append(0, "a\n")] + [Read(Nothing)] + [Flush([])] + [Record(true)]
    + [Rotate] + [Switch] + [Adopt] + [Append(0, "b\n")]
  }

  function LateWorld(): World {
    World(["a\nb\n", ""], Some(Saved(None, 0)), Short(1, 0, 0, true, Some(Old(0, 2, None)), {}), 1, {Line(0, 0, 2)},
        Some(Spot(0, 2)))
  }

  lemma FirstLineSaved()
    ensures var steps := [Start([], {})] + [Append(0, "a\n")] + [Read(Nothing)] + [Flush([])] + [Record(true)];
            && Run(Zero(), steps)
            && After(Zero(), steps) == World(["a\n"], Some(Saved(None, 2)), Short(0, 2, 2, true, None, {}), 0,
                 {Line(0, 0, 2)}, Some(Spot(0, 2)))
  {
    var w1 := World([""], None, Short(0, 0, 0, true, None, {}), 0, {}, None);
    var w2 := w1.(files := ["a\n"]);
    var w3 := w2.(tail := Short(0, 2, 0, true, None, {Line(0, 0, 2)}));
    var w4 := w2.(tail := Short(0, 2, 0, true, None, {}), done := {Line(0, 0, 2)});
    assert Run(Zero(), []);
    assert w1 == Do(Zero(), Start([], {}));
    RunOn(Zero(), [], Start([], {}));
    assert [] + [Start([], {})] == [Start([], {})];
    assert "" + "a\n" == "a\n";
    assert w2 == Do(w1, Append(0, "a\n"));
    FirstRead(w2);
    assert w4 == Do(w3, Flush([]));
    var steps := [Start([], {})];
    hide Do, Run, After, LineEnd;
    RunOn(Zero(), steps, Append(0, "a\n"));
    steps := steps + [Append(0, "a\n")];
    RunOn(Zero(), steps, Read(Nothing));
    steps := steps + [Read(Nothing)];
    RunOn(Zero(), steps, Flush([]));
    steps := steps + [Flush([])];
    RunOn(Zero(), steps, Record(true));
    FirstSave(w4);
  }

  lemma FirstRead(w: World)
    requires w == World(["a\n"], None, Short(0, 0, 0, true, None, {}), 0, {}, None)
    ensures Can(w, Read(Nothing)) && Do(w, Read(Nothing)) == w.(tail := Short(0, 2, 0, true, None, {Line(0, 0, 2)}))
  {
    LineEndUnique("a\n", 0, 2);
    assert {} + {Line(0, 0, 2)} == {Line(0, 0, 2)};
  }

  lemma FirstSave(w: World)
    requires w == World(["a\n"], None, Short(0, 2, 0, true, None, {}), 0, {Line(0, 0, 2)}, None)
    ensures Do(w, Record(true)) == World(["a\n"], Some(Saved(None, 2)), Short(0, 2, 2, true, None, {}), 0,
              {Line(0, 0, 2)}, Some(Spot(0, 2)))
  {
  }

  lemma LineComesLate()
    ensures Run(Zero(), LateSteps()) && After(Zero(), LateSteps()) == LateWorld()
  {
    FirstLineSaved();
    var steps := [Start([], {})] + [Append(0, "a\n")] + [Read(Nothing)] + [Flush([])] + [Record(true)];
    var w5 := After(Zero(), steps);
    var w6 := w5.(files := ["a\n", ""]);
    var w7 := w6.(tail := Short(1, 0, 2, false, Some(Old(0, 2, None)), {}));
    var w8 := w6.(stored := Some(Saved(None, 0)), tail := Short(1, 0, 0, true, Some(Old(0, 2, None)), {}),
        savedFile := 1);
    assert w6 == Do(w5, Rotate);
    assert w7 == Do(w6, Switch);
    assert w8 == Do(w7, Adopt);
    assert "a\n" + "b\n" == "a\nb\n";
    assert LateWorld() == Do(w8, Append(0, "b\n"));
    hide Do, Run, After;
    RunOn(Zero(), steps, Rotate);
    steps := steps + [Rotate];
    RunOn(Zero(), steps, Switch);
    steps := steps + [Switch];
    RunOn(Zero(), steps, Adopt);
    steps := steps + [Adopt];
    RunOn(Zero(), steps, Append(0, "b\n"));
  }

  // The proviso on crashes is needed: a line written to the renamed file after its successor was adopted, and
  // not read before a crash, is not read by the next start.
  lemma LateLineLost()
    ensures Fresh(Zero()) && Run(Zero(), LateSteps())
    ensures var w := After(Zero(), LateSteps());
            && Can(w, Crash) && !Proviso(w, Crash)
            && var down := Do(w, Crash);
            && Can(down, Start([], {})) && Proviso(down, Start([], {}))
            && var up := Do(down, Start([], {}));
            CaughtUp(up) && Owed(up, Line(0, 2, 4)) && Line(0, 2, 4) !in up.done
  {
    LineComesLate();
    hide Run, After;
    LineEndUnique("a\nb\n", 2, 4);
  }

  // ---- and the one on starts

  function UnnamedSteps(): seq<Step> {
    [Start([], {})] + [Append(0, "a\n")] + [Read(Nothing)] + [Flush([])] + [Record(true)]
    + [Append(0, "b\n")] + [Crash] + [Rotate]
  }

  function UnnamedWorld(): World {
    World(["a\nb\n", ""], Some(Saved(None, 2)), Down, 0, {Line(0, 0, 2)}, Some(Spot(0, 2)))
  }

  lemma RotatedUnnamed()
    ensures Run(Zero(), UnnamedSteps()) && After(Zero(), UnnamedSteps()) == UnnamedWorld()
  {
    FirstLineSaved();
    var steps := [Start([], {})] + [Append(0, "a\n")] + [Read(Nothing)] + [Flush([])] + [Record(true)];
    var w5 := After(Zero(), steps);
    var w6 := w5.(files := ["a\nb\n"]);
    assert "a\n" + "b\n" == "a\nb\n";
    assert Can(w5, Append(0, "b\n")) && Proviso(w5, Append(0, "b\n")) && w6 == Do(w5, Append(0, "b\n"));
    var w7 := w6.(tail := Down);
    assert Can(w6, Crash) && Proviso(w6, Crash) && w7 == Do(w6, Crash);
    assert Can(w7, Rotate) && Proviso(w7, Rotate) && UnnamedWorld() == Do(w7, Rotate);
    hide Do, Run, After;
    RunOn(Zero(), steps, Append(0, "b\n"));
    steps := steps + [Append(0, "b\n")];
    RunOn(Zero(), steps, Crash);
    steps := steps + [Crash];
    RunOn(Zero(), steps, Rotate);
  }

  // The proviso on starts is needed: of a log rotated while the panel is down, its place saved before it had a
  // fingerprint, the lines after that place are not read.
  lemma UnnamedPlaceLost()
    ensures Fresh(Zero()) && Run(Zero(), UnnamedSteps()) && After(Zero(), UnnamedSteps()) == UnnamedWorld()
    ensures Can(UnnamedWorld(), Start([], {})) && !Proviso(UnnamedWorld(), Start([], {}))
    ensures var up := Do(UnnamedWorld(), Start([], {}));
            CaughtUp(up) && Owed(up, Line(0, 2, 4)) && Line(0, 2, 4) !in up.done
  {
    RotatedUnnamed();
    hide Run, After;
    LineEndUnique("a\nb\n", 2, 4);
  }
}
