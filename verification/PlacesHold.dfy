/** The saved place in every run: a line boundary, behind everything done with, and held by what waits. */
module PlacesHold {
  import opened Wrappers
  import opened LogLines
  import opened LogPlace
  import opened Refusals
  import opened Follow
  import opened NoLineLost

  // ---- line boundaries

  // A reading that starts within a line starts at the place saved, or at the end of a log nothing was saved of,
  // and nothing of that file is in memory yet.
  ghost predicate Poised(w: World)
    requires Sound(w)
  {
    w.tail.Up? && w.tail.adopted && !Boundary(w.files[w.tail.cur], w.tail.at) ==>
      && w.tail.at == w.tail.track.saved && w.tail.rotated.None?
      && (w.stored.None? || (w.stored.value.offset == w.tail.at && w.savedFile == w.tail.cur))
      && (forall x | x in w.tail.waits :: OfAnother(w, x.mark))
  }

  predicate OfAnother(w: World, m: Mark)
    requires w.tail.Up?
  {
    m.start.fp == Some(m.file) && m.file != w.tail.cur
  }

  ghost predicate Lined(w: World) {
    Sound(w) && YoungMarks(w) && Poised(w)
  }

  lemma StepKeepsLined(w: World, step: Step)
    requires Lined(w) && Can(w, step) && Proviso(w, step)
    ensures Lined(Do(w, step))
  {
    StepKeepsSound(w, step);
    YoungMarksKept(w, step);
    match step
    case Append(file, more) => AppendPoised(w, file, more);
    case Start(_, _) => StartPoised(w, step);
    case Adopt => SavePoised(w, step);
    case Record(_) => SavePoised(w, step);
    case Stop =>
    case _ => OtherPoised(w, step);
  }

  lemma AppendPoised(w: World, file: nat, more: string)
    requires Lined(w) && Can(w, Append(file, more)) && Sound(Do(w, Append(file, more)))
    ensures Poised(Do(w, Append(file, more)))
  {
    var w' := Do(w, Append(file, more));
    forall i: nat, at: nat | i < |w.files| && Boundary(w.files[i], at) ensures Boundary(w'.files[i], at) {
      if i == file {
        BoundaryStays(w.files[i], more, at);
      }
    }
    hide Boundary, Last;
  }

  lemma StartPoised(w: World, step: Step)
    requires Lined(w) && step.Start? && Can(w, step) && Proviso(w, step) && Sound(Do(w, step))
    ensures Poised(Do(w, step))
  {
    hide LinesOf, ToTheEnd, Last;
  }

  lemma SavePoised(w: World, step: Step)
    requires Lined(w) && (step.Adopt? || step.Record?) && Can(w, step) && Sound(Do(w, step))
    ensures Poised(Do(w, step))
  {
    HeldIs(w.tail.waits, w.tail.track.fp);
    hide Held, Last;
  }

  lemma OtherPoised(w: World, step: Step)
    requires Lined(w) && Can(w, step) && Sound(Do(w, step))
    requires !step.Append? && !step.Start? && !step.Adopt? && !step.Record? && !step.Stop?
    ensures Poised(Do(w, step))
  {
    if step.Flush? {
      assert forall x | x in Do(w, step).tail.waits :: x in w.tail.waits;
    }
    hide Last;
  }

  // ---- when a place saved starts a line

  // The step writes a new place.
  predicate Saves(w: World, step: Step) {
    && Can(w, step) && (step.Record? || step.Stop?)
    && var at := HeldTo(w.tail.at, Held(w.tail.waits, w.tail.track.fp));
       at != w.tail.track.saved && (step.Record? ==> step.due)
  }

  // The earliest place waiting under the fingerprint of the open file, if it is before the reading, starts a line
  // of that file.
  predicate HeldOnALine(w: World)
    requires w.tail.Up? && w.tail.cur < |w.files|
  {
    var held := Held(w.tail.waits, w.tail.track.fp);
    held.Some? && held.value < w.tail.at ==> Boundary(w.files[w.tail.cur], held.value)
  }

  predicate SavedOnALine(w: World) {
    w.stored.Some? ==> w.savedFile < |w.files| && Boundary(w.files[w.savedFile], w.stored.value.offset)
  }

  lemma SaveIsOnALine(w: World, step: Step)
    requires Lined(w) && Saves(w, step)
    ensures SavedOnALine(Do(w, step)) <==> HeldOnALine(w)
  {
    HeldIs(w.tail.waits, w.tail.track.fp);
    hide Held, Last, LineEnd;
  }

  lemma OtherStepsSaveNothing(w: World, step: Step)
    requires Sound(w) && SavedOnALine(w) && Can(w, step) && !Saves(w, step)
    ensures SavedOnALine(Do(w, step))
  {
    if step.Append? && w.stored.Some? && step.file == w.savedFile {
      BoundaryStays(w.files[step.file], step.more, w.stored.value.offset);
    }
    hide Held, Last, LineEnd;
  }

  // ---- over runs

  ghost predicate AlwaysOnALine(w: World, steps: seq<Step>)
    requires Run(w, steps)
    decreases |steps|
  {
    SavedOnALine(w) && (steps == [] || AlwaysOnALine(Do(w, steps[0]), steps[1..]))
  }

  ghost predicate AlwaysHeldOnALine(w: World, steps: seq<Step>)
    requires Run(w, steps)
    decreases |steps|
  {
    steps == [] || ((Saves(w, steps[0]) ==> HeldOnALine(w)) && AlwaysHeldOnALine(Do(w, steps[0]), steps[1..]))
  }

  lemma {:induction false} EachPlaceInLine(w: World, steps: seq<Step>)
    requires Lined(w) && SavedOnALine(w) && Run(w, steps)
    ensures AlwaysOnALine(w, steps) <==> AlwaysHeldOnALine(w, steps)
    decreases |steps|
  {
    if steps != [] {
      var step, next := steps[0], Do(w, steps[0]);
      StepKeepsLined(w, step);
      if Saves(w, step) {
        SaveIsOnALine(w, step);
      } else {
        OtherStepsSaveNothing(w, step);
      }
      hide Saves, HeldOnALine, Lined, Do, Can, Proviso;
      if SavedOnALine(next) {
        hide SavedOnALine;
        EachPlaceInLine(next, steps[1..]);
      } else {
        assert !AlwaysOnALine(next, steps[1..]);
      }
    }
  }

  // In every run: each place saved starts a line if and only if, at each save, the earliest place the reading is
  // held at, if it is before the reading, starts a line of the open file.
  lemma SavedPlacesExactly(w: World, steps: seq<Step>)
    requires Fresh(w) && Run(w, steps)
    ensures AlwaysOnALine(w, steps) <==> AlwaysHeldOnALine(w, steps)
  {
    EachPlaceInLine(w, steps);
  }

  // ---- when the reading is held at the start of a line

  // A piece of a line - what is read first where the reading starts within one - leaves nothing in memory.
  predicate Quiet(w: World, step: Step)
    requires Can(w, step)
  {
    match step
    case Read(effect) => effect.Nothing? || Boundary(w.files[w.tail.cur], w.tail.at)
    case ReadOld(effect) =>
      effect.Nothing? || Boundary(w.files[w.tail.rotated.value.file], w.tail.rotated.value.at)
    case _ => true
  }

  // While the open file has no fingerprint, nothing waits that was read in an earlier one without.
  ghost predicate OnlyOwnWaits(w: World) {
    w.tail.Up? && w.tail.track.fp.None? ==>
      forall x | x in w.tail.waits && x.mark.start.fp.None? :: x.mark.file == w.tail.cur
  }

  ghost predicate Tidy(w: World, step: Step)
    requires Can(w, step)
  {
    Quiet(w, step) && (Saves(w, step) ==> OnlyOwnWaits(w))
  }

  // A place in memory is the start of a line, in the file its fingerprint names.
  predicate MarkHolds(w: World, m: Mark) {
    m.file < |w.files| && Boundary(w.files[m.file], m.start.at) && (m.start.fp.Some? ==> m.start.fp.value == m.file)
  }

  ghost predicate Marks(w: World) {
    w.tail.Up? ==>
      && (forall x | x in w.tail.waits :: MarkHolds(w, x.mark))
      && (forall m | m in w.tail.logins :: MarkHolds(w, m))
      && (w.tail.rotated.Some? && w.tail.rotated.value.fp.Some? ==>
            w.tail.rotated.value.fp.value == w.tail.rotated.value.file)
  }

  lemma AppendMarks(w: World, file: nat, more: string)
    requires Sound(w) && Marks(w) && Can(w, Append(file, more))
    ensures Marks(Do(w, Append(file, more)))
  {
    var w' := Do(w, Append(file, more));
    forall i: nat, at: nat | i < |w.files| && Boundary(w.files[i], at) ensures Boundary(w'.files[i], at) {
      if i == file {
        BoundaryStays(w.files[i], more, at);
      }
    }
    hide Boundary, Last;
  }

  lemma ReadMarks(w: World, step: Step)
    requires Sound(w) && Marks(w) && (step.Read? || step.ReadOld?) && Can(w, step) && Quiet(w, step)
    ensures Marks(Do(w, step))
  {
    var line := if step.Read? then Mark(Place(w.tail.track.fp, w.tail.at), w.tail.cur)
                else Mark(Place(w.tail.rotated.value.fp, w.tail.rotated.value.at), w.tail.rotated.value.file);
    var w' := Do(w, step);
    assert step.effect.Nothing? || MarkHolds(w, line);
    assert forall m | MarkHolds(w, m) :: MarkHolds(w', m);
    assert forall x | x in w'.tail.waits ::
             x in w.tail.waits || (x.mark == line && !step.effect.Nothing?) || x.mark in w.tail.logins;
    assert forall m | m in w'.tail.logins :: m in w.tail.logins || (m == line && !step.effect.Nothing?);
    assert w'.tail.rotated.Some? ==> w.tail.rotated.Some? && w'.tail.rotated.value.fp == w.tail.rotated.value.fp
                                     && w'.tail.rotated.value.file == w.tail.rotated.value.file;
    hide MarkHolds, Do;
  }

  lemma OtherMarks(w: World, step: Step)
    requires Sound(w) && Marks(w) && Can(w, step) && !step.Append? && !step.Read? && !step.ReadOld?
    ensures Marks(Do(w, step))
  {
    var w' := Do(w, step);
    assert !step.Start? ==> forall m | MarkHolds(w, m) :: MarkHolds(w', m);
    if step.Flush? {
      assert forall x | x in w'.tail.waits :: x in w.tail.waits;
    }
    hide LineEnd, Last, LinesOf, ToTheEnd, Boundary, Held;
  }

  lemma OwnWaitsAreOnALine(w: World)
    requires Sound(w) && Marks(w) && w.tail.Up? && w.tail.adopted && OnlyOwnWaits(w)
    ensures HeldOnALine(w)
  {
    HeldIs(w.tail.waits, w.tail.track.fp);
    hide Held, Last;
  }

  ghost predicate TidyRun(w: World, steps: seq<Step>)
    requires Run(w, steps)
    decreases |steps|
  {
    steps == [] || (Tidy(w, steps[0]) && TidyRun(Do(w, steps[0]), steps[1..]))
  }

  lemma {:induction false} TidyRunsHold(w: World, steps: seq<Step>)
    requires Lined(w) && Marks(w) && Run(w, steps) && TidyRun(w, steps)
    ensures AlwaysHeldOnALine(w, steps)
    decreases |steps|
  {
    if steps != [] {
      var step := steps[0];
      StepKeepsLined(w, step);
      match step {
        case Append(file, more) => AppendMarks(w, file, more);
        case Read(_) => ReadMarks(w, step);
        case ReadOld(_) => ReadMarks(w, step);
        case _ => OtherMarks(w, step);
      }
      if Saves(w, step) {
        OwnWaitsAreOnALine(w);
      }
      hide Marks, Do, HeldOnALine, Sound;
      TidyRunsHold(Do(w, step), steps[1..]);
    }
  }

  lemma {:induction false} AtTheEnd(w: World, steps: seq<Step>)
    requires Lined(w) && Run(w, steps) && AlwaysOnALine(w, steps)
    ensures Lined(After(w, steps)) && SavedOnALine(After(w, steps))
    decreases |steps|
  {
    if steps != [] {
      StepKeepsLined(w, steps[0]);
      hide Lined, Do, Can, Proviso, SavedOnALine;
      AtTheEnd(Do(w, steps[0]), steps[1..]);
    }
  }

  // So each does where, at each save under an empty fingerprint, nothing waits that was read in an earlier file
  // without one, and pieces of lines leave nothing waiting: every place saved starts a line of its file, every
  // line owed before it is done with, but for those that come late to the file before it; and once a place is
  // saved no piece of a line is read any more.
  lemma SavedPlacesAreBoundaries(w: World, steps: seq<Step>)
    requires Fresh(w) && Run(w, steps) && TidyRun(w, steps)
    ensures AlwaysOnALine(w, steps)
    ensures var w' := After(w, steps);
            w'.stored.Some? ==>
              && w'.savedFile < |w'.files| && Boundary(w'.files[w'.savedFile], w'.stored.value.offset)
              && (forall l | Owed(w', l) && !From(l, w'.savedFile, w'.stored.value.offset) ::
                    l in w'.done || LostInCrash(w', l))
              && (w'.tail.Up? && w'.tail.adopted && w'.tail.cur < |w'.files| ==>
                    Boundary(w'.files[w'.tail.cur], w'.tail.at))
  {
    TidyRunsHold(w, steps);
    SavedPlacesExactly(w, steps);
    AtTheEnd(w, steps);
    EveryRun(w, steps);
    hide Run, After, TidyRun, AlwaysOnALine, AlwaysHeldOnALine, Owed, Late;
  }

  // ---- what waits holds the place

  predicate SamePrint(fp: Fingerprint, file: nat) {
    fp.Some? ==> fp.value == file
  }

  // Places of files to come are nowhere in memory, and those that carry the fingerprint of the open file were
  // taken since the tailer has it.
  predicate NotAhead(w: World, m: Mark)
    requires w.tail.Up?
  {
    && m.file <= w.tail.cur && SamePrint(m.start.fp, m.file)
    && (w.tail.adopted && m.start.fp == Some(w.tail.cur) ==> w.tail.track.fp == Some(w.tail.cur))
    && (!w.tail.adopted ==> m.file < w.tail.cur)
  }

  // What waits, waits at its own line or at an earlier place under the same fingerprint.
  predicate Ordered(x: Wait) {
    x.mark.start.fp == x.line.start.fp && x.mark.start.at <= x.line.start.at
  }

  ghost predicate NoneAhead(w: World) {
    w.tail.Up? ==>
      && (forall x | x in w.tail.waits :: NotAhead(w, x.mark) && NotAhead(w, x.line) && Ordered(x))
      && (forall m | m in w.tail.logins :: NotAhead(w, m))
      && (w.tail.rotated.Some? ==> SamePrint(w.tail.rotated.value.fp, w.tail.rotated.value.file))
  }

  // The file places are saved of: the one open, or, until that is adopted, the one it was switched to from.
  function Tracked(w: World): nat
    requires w.tail.Up?
  {
    if w.tail.adopted || w.tail.rotated.None? then w.tail.cur else w.tail.rotated.value.file
  }

  predicate SavedHere(w: World) {
    w.tail.Up? && w.stored.Some? && w.stored.value.fp.Some? && w.savedFile == Tracked(w)
  }

  // The place saved is not past the line of what waits; and past the place it waits at only where no place has
  // been saved since its line was read, and the one saved then was past it already.
  predicate WaitHolds(w: World, x: Wait)
    requires w.stored.Some?
  {
    && w.stored.value.offset <= x.line.start.at
    && (w.stored.value.offset > x.mark.start.at <==>
          w.stored == x.seen && x.seen.Some? && x.seen.value.offset > x.mark.start.at)
  }

  ghost predicate HeldBack(w: World) {
    SavedHere(w) ==>
      && w.stored.value.offset <= (if Tracked(w) == w.tail.cur then w.tail.at else w.tail.rotated.value.at)
      && w.tail.track.fp == Some(Tracked(w))
      && forall x | x in w.tail.waits && x.mark.start.fp == Some(Tracked(w)) :: WaitHolds(w, x)
  }

  ghost predicate Holding(w: World) {
    Sound(w) && YoungMarks(w) && NoneAhead(w) && HeldBack(w)
  }

  lemma StartHolds(w: World, step: Step)
    requires Holding(w) && step.Start? && Can(w, step) && Proviso(w, step)
    ensures var w' := Do(w, step); NoneAhead(w') && HeldBack(w')
  {
    hide LinesOf, ToTheEnd;
  }

  lemma ReadHolds(w: World, step: Step)
    requires Holding(w) && step.Read? && Can(w, step)
    ensures var w' := Do(w, step); NoneAhead(w') && HeldBack(w')
  {
    var t, w' := w.tail, Do(w, step);
    var line := Mark(Place(t.track.fp, t.at), t.cur);
    assert NotAhead(w, line);
    assert forall m | NotAhead(w, m) :: NotAhead(w', m);
    assert forall x | x in w'.tail.waits ::
             x in t.waits
             || (x.line == line && x.seen == w.stored && (x.mark == line || (x.mark in t.logins && Ordered(x))));
    hide NotAhead, Last, Boundary;
  }

  lemma ReadOldHolds(w: World, step: Step)
    requires Holding(w) && step.ReadOld? && Can(w, step)
    ensures var w' := Do(w, step); NoneAhead(w') && HeldBack(w')
  {
    var t, w' := w.tail, Do(w, step);
    var line := Mark(Place(t.rotated.value.fp, t.rotated.value.at), t.rotated.value.file);
    assert NotAhead(w, line);
    assert forall m | NotAhead(w, m) :: NotAhead(w', m);
    assert forall x | x in w'.tail.waits ::
             x in t.waits || (x.line == line && (x.mark == line || (x.mark in t.logins && Ordered(x))));
    hide NotAhead, Last, Boundary;
  }

  lemma SaveHolds(w: World, step: Step)
    requires Holding(w) && (step.Adopt? || step.Record? || step.Stop?) && Can(w, step)
    ensures var w' := Do(w, step); NoneAhead(w') && HeldBack(w')
  {
    HeldIs(w.tail.waits, w.tail.track.fp);
    hide Held, Last, LineEnd;
  }

  lemma OtherHolds(w: World, step: Step)
    requires Holding(w) && Can(w, step)
    requires step.Append? || step.Rotate? || step.Flush? || step.CloseOld? || step.Switch? || step.Crash?
    ensures var w' := Do(w, step); NoneAhead(w') && HeldBack(w')
  {
    hide Last, LineEnd;
    if step.Flush? {
      assert forall x | x in Do(w, step).tail.waits :: x in w.tail.waits;
    }
  }

  lemma StepKeepsHolding(w: World, step: Step)
    requires Holding(w) && Can(w, step) && Proviso(w, step)
    ensures Holding(Do(w, step))
  {
    StepKeepsSound(w, step);
    YoungMarksKept(w, step);
    match step
    case Start(_, _) => StartHolds(w, step);
    case Read(_) => ReadHolds(w, step);
    case ReadOld(_) => ReadOldHolds(w, step);
    case Adopt => SaveHolds(w, step);
    case Record(_) => SaveHolds(w, step);
    case Stop => SaveHolds(w, step);
    case _ => OtherHolds(w, step);
  }

  lemma {:induction false} EveryRunKeepsHolding(w: World, steps: seq<Step>)
    requires Holding(w) && Run(w, steps)
    ensures Holding(After(w, steps))
    decreases |steps|
  {
    if steps != [] {
      StepKeepsHolding(w, steps[0]);
      EveryRunKeepsHolding(Do(w, steps[0]), steps[1..]);
    }
  }

  // In every run, of everything that waits in the file places are saved of, under its fingerprint, recoveries
  // included: the place saved is not past its line; and it is past the place it waits at - a login's earlier line -
  // exactly while it is the very place that was saved, past it already, when the line was read.
  lemma EveryRunHolds(w: World, steps: seq<Step>, x: Wait)
    requires Fresh(w) && Run(w, steps)
    requires var w' := After(w, steps); SavedHere(w') && x in w'.tail.waits && x.mark.start.fp == Some(Tracked(w'))
    ensures var w' := After(w, steps);
            && w'.stored.value.offset <= x.line.start.at
            && (w'.stored.value.offset > x.mark.start.at <==>
                  w'.stored == x.seen && x.seen.Some? && x.seen.value.offset > x.mark.start.at)
  {
    EveryRunKeepsHolding(w, steps);
    hide Run, After;
  }

  // A place, when it is saved, is held back by what waits exactly if that waits under the fingerprint the tailer
  // had before the save, or something before it does, or the reading is not past it.
  lemma EachSaveHolds(w: World, step: Step, x: Wait)
    requires Saves(w, step) && x in w.tail.waits
    ensures Do(w, step).stored.Some?
    ensures Do(w, step).stored.value.offset <= x.mark.start.at <==>
            || w.tail.at <= x.mark.start.at
            || exists y :: y in w.tail.waits && y.mark.start.fp == w.tail.track.fp && y.mark.start.at <= x.mark.start.at
  {
    HeldIs(w.tail.waits, w.tail.track.fp);
    hide Held;
  }

  // The start after a crash: as the directory is, or with the log rotated in between.
  function Again(w: World, between: bool): World {
    var down := w.(tail := Down);
    if between then down.(files := down.files + [""]) else down
  }

  // What waits in the file places are saved of, when the panel crashes, is read again at the next start, whatever
  // came before, be that file the log or renamed already, switched away from or not: from the log, or, when it was
  // renamed by then, from the renamed log.
  lemma CrashReadsItAgain(w: World, steps: seq<Step>, x: Wait, between: bool, next: Step)
    requires Fresh(w) && Run(w, steps) && next.Start?
    requires var w1 := After(w, steps);
             && w1.tail.Up? && w1.stored.Some? && x in w1.tail.waits && x.line.file == Tracked(w1)
             && (SavedHere(w1) ==> x.mark.start.fp == Some(Tracked(w1)))
    requires var up := Again(After(w, steps), between); Can(up, next) && Proviso(up, next)
    ensures var up := Again(After(w, steps), between);
            && Can(After(w, steps), Crash) && Do(After(w, steps), Crash) == Again(After(w, steps), false)
            && (between ==> Do(Do(After(w, steps), Crash), Rotate) == up)
            && Log(up) - 1 <= x.line.file <= Log(up)
            && if x.line.file == Log(up) then
                 Do(up, next).tail.cur == x.line.file && Do(up, next).tail.at <= x.line.start.at
               else
                 && MissedAt(up) == Some(ToTheEnd(up.files[x.line.file], up.stored.value.offset))
                 && up.stored.value.offset <= x.line.start.at
  {
    EveryRunKeepsHolding(w, steps);
    hide Run, After, Holding;
    ReadAgain(After(w, steps), x, between, next);
  }

  lemma ReadAgain(w1: World, x: Wait, between: bool, next: Step)
    requires Holding(w1) && next.Start? && w1.tail.Up? && w1.stored.Some?
    requires x in w1.tail.waits && x.line.file == Tracked(w1)
    requires SavedHere(w1) ==> x.mark.start.fp == Some(Tracked(w1))
    requires Can(Again(w1, between), next) && Proviso(Again(w1, between), next)
    ensures var up := Again(w1, between);
            && Can(w1, Crash) && Do(w1, Crash) == Again(w1, false)
            && (between ==> Do(Do(w1, Crash), Rotate) == up)
            && Log(up) - 1 <= x.line.file <= Log(up)
            && if x.line.file == Log(up) then
                 Do(up, next).tail.cur == x.line.file && Do(up, next).tail.at <= x.line.start.at
               else
                 && MissedAt(up) == Some(ToTheEnd(up.files[x.line.file], up.stored.value.offset))
                 && up.stored.value.offset <= x.line.start.at
  {
    hide LinesOf, ToTheEnd;
  }
}
