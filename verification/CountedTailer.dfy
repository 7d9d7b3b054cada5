/**
 The deferred counter behind the tailer: the lines the tailer hands over, in any run of it, are read as the
 counter relies on them being read.
 */
module CountedTailer {
  import opened Wrappers
  import opened LogLines
  import opened LogPlace
  import F = Follow
  import N = NoLineLost
  import C = DeferredCounter

  // The tailer, whether it is still catching up with the log after a start, and the counter it hands its lines to.
  datatype Both = Both(w: F.World, catching: bool, c: C.World)

  datatype Step = Tail(step: F.Step) | Caught

  // When a line was written, by its file and end, and what the counter reads it as.
  datatype Log = Log(stamp: (nat, nat) -> int, kind: F.Line -> C.Kind)

  // The stamps of a file do not go back.
  ghost predicate Stamped(log: Log) {
    forall file, e1, e2 :: e1 <= e2 ==> log.stamp(file, e1) <= log.stamp(file, e2)
  }

  function Name(fp: Fingerprint): string {
    if fp.None? then "" else C.Decimal(fp.value)
  }

  function EventOf(log: Log, l: F.Line, fp: Fingerprint, catching: bool): C.Event {
    C.Event(log.kind(l), log.stamp(l.file, l.end), C.Place(Name(fp), l.end), l.file, catching)
  }

  function AllMissed(log: Log, file: nat, fp: Fingerprint, spans: seq<Span>): (es: seq<C.Event>)
    ensures |es| == |spans|
  {
    seq(|spans|, i requires 0 <= i < |spans| => EventOf(log, F.Line(file, spans[i].start, spans[i].end), fp, true))
  }

  // The lines a step hands over.
  function Events(log: Log, b: Both, step: F.Step): seq<C.Event>
    requires F.Can(b.w, step)
  {
    var t := b.w.tail;
    match step
    case Start(_, _) =>
      var missed := F.MissedAt(b.w);
      if missed.None? || |b.w.files| < 2 then [] else
        var file := |b.w.files| - 2;
        AllMissed(log, file, FingerprintOf(F.FileAt(b.w, file)), missed.value)
    case Read(_) =>
      [EventOf(log, F.Line(t.cur, t.at, LineEnd(b.w.files[t.cur], t.at).value), t.track.fp, b.catching)]
    case ReadOld(_) =>
      var o := t.rotated.value;
      [EventOf(log, F.Line(o.file, o.at, LineEnd(b.w.files[o.file], o.at).value), o.fp, b.catching)]
    case _ => []
  }

  function LineSteps(es: seq<C.Event>): (steps: seq<C.Step>)
    ensures |steps| == |es|
  {
    seq(|es|, i requires 0 <= i < |es| => C.Line(es[i]))
  }

  // The log was read to its end when the tailer is said to have caught up, and it looks for a rotation only then.
  predicate Can(b: Both, step: Step) {
    match step
    case Tail(s) => F.Can(b.w, s) && F.Proviso(b.w, s) && (s.Switch? ==> !b.catching)
    case Caught =>
      && b.w.tail.Up? && b.w.tail.adopted && b.w.tail.cur < |b.w.files|
      && LineEnd(b.w.files[b.w.tail.cur], b.w.tail.at).None?
  }

  function CounterSteps(log: Log, b: Both, step: F.Step): seq<C.Step>
    requires F.Can(b.w, step)
  {
    if step.Stop? || step.Crash? then [C.Crash] else LineSteps(Events(log, b, step))
  }

  function Do(log: Log, b: Both, step: Step): Both
    requires Can(b, step)
  {
    match step
    case Caught => b.(catching := false)
    case Tail(s) => Both(F.Do(b.w, s), b.catching || s.Start?, C.End(b.c, CounterSteps(log, b, s)))
  }

  // ---- what was read

  predicate Tagged(log: Log, e: C.Event) {
    e.at == log.stamp(e.file, e.place.end) && (e.place.fp == "" || e.place.fp == C.Decimal(e.file))
  }

  function Top(w: F.World): int {
    if w.tail.Up? then w.tail.cur else F.Log(w)
  }

  predicate Ended(w: F.World, e: C.Event) {
    e.file < |w.files| && 0 < e.place.end <= |w.files[e.file]| && w.files[e.file][e.place.end - 1] == '\n'
  }

  // No file is read before those of earlier numbers; of the one open only whole lines were.
  predicate Placed(w: F.World, e: C.Event) {
    e.file <= Top(w) && (e.file == Top(w) ==> Ended(w, e))
  }

  // Once caught up, the reading is past all that was ever read of its files.
  predicate Passed(b: Both, e: C.Event) {
    b.w.tail.Up? && !b.catching ==>
      && (e.file == b.w.tail.cur ==> e.place.end <= b.w.tail.at)
      && (b.w.tail.rotated.Some? && e.file == b.w.tail.rotated.value.file ==> e.place.end <= b.w.tail.rotated.value.at)
  }

  ghost predicate Ordered(log: Log, b: Both) {
    && N.Sound(b.w) && N.YoungMarks(b.w)
    && (b.w.tail.Up? && b.catching ==> b.w.tail.rotated.None?)
    && (b.w.tail.Up? && b.w.tail.rotated.Some? && b.w.tail.rotated.value.fp.Some? ==>
          b.w.tail.rotated.value.fp.value == b.w.tail.rotated.value.file)
    && forall e | e in b.c.read :: Tagged(log, e) && Placed(b.w, e) && Passed(b, e)
  }

  lemma Agree(log: Log, e: C.Event, p: C.Event)
    requires Tagged(log, e) && Tagged(log, p)
    ensures C.Agree(e, p)
  {
    C.NumberOfDecimal(e.file);
    C.NumberOfDecimal(p.file);
  }

  lemma InStampOrder(log: Log, e: C.Event, p: C.Event)
    requires Stamped(log) && Tagged(log, e) && Tagged(log, p)
    ensures C.InStampOrder(e, p)
  {
    assert e.place.end <= p.place.end ==> log.stamp(e.file, e.place.end) <= log.stamp(e.file, p.place.end);
    assert p.place.end <= e.place.end ==> log.stamp(p.file, p.place.end) <= log.stamp(p.file, e.place.end);
  }

  lemma {:induction false} ReadAfter(c: C.World, es: seq<C.Event>)
    ensures C.End(c, LineSteps(es)).read == c.read + es
    decreases |es|
  {
    if es == [] {
      assert c.read + [] == c.read;
    } else {
      assert LineSteps(es)[1..] == LineSteps(es[1..]);
      ReadAfter(C.Do(c, C.Line(es[0])), es[1..]);
      assert c.read + [es[0]] + es[1..] == c.read + es;
    }
  }

  // Lines read while catching up need only agree with those read before.
  lemma {:induction false} CatchingRun(log: Log, c: C.World, es: seq<C.Event>)
    requires forall e | e in c.read :: Tagged(log, e)
    requires forall e | e in es :: Tagged(log, e) && e.catchingUp
    ensures C.ReadRun(c, LineSteps(es))
    decreases |es|
  {
    if es != [] {
      assert es[0] in es;
      forall p | p in c.read ensures C.Agree(es[0], p) {
        Agree(log, es[0], p);
      }
      assert LineSteps(es)[1..] == LineSteps(es[1..]);
      CatchingRun(log, C.Do(c, C.Line(es[0])), es[1..]);
    }
  }

  lemma {:induction false} StampedRun(log: Log, c: C.World, steps: seq<C.Step>)
    requires Stamped(log) && C.ReadRun(c, steps) && forall e | e in c.read :: Tagged(log, e)
    requires forall i | 0 <= i < |steps| && steps[i].Line? :: Tagged(log, steps[i].e)
    ensures C.Run(c, steps)
    decreases |steps|
  {
    if steps != [] {
      if steps[0].Line? {
        forall p | p in c.read ensures C.InStampOrder(steps[0].e, p) {
          InStampOrder(log, steps[0].e, p);
        }
      }
      StampedRun(log, C.Do(c, steps[0]), steps[1..]);
    }
  }

  // ---- one step

  lemma EventsAreTagged(log: Log, b: Both, step: F.Step)
    requires Ordered(log, b) && Can(b, Tail(step))
    ensures forall e | e in Events(log, b, step) :: Tagged(log, e)
  {
    hide LineEnd, C.Decimal;
  }

  // A line read once the tailer has caught up is past all read of its file before.
  lemma ReadsAreNew(log: Log, b: Both, step: F.Step)
    requires Ordered(log, b) && Can(b, Tail(step)) && (step.Read? || step.ReadOld?) && !b.catching
    ensures var e := Events(log, b, step)[0];
            forall p | p in b.c.read && p.file == e.file :: p.place.end < e.place.end
  {
  }

  // What a step hands over is read as the counter relies on, but for the stamps.
  lemma StepReads(log: Log, b: Both, step: F.Step)
    requires Ordered(log, b) && Can(b, Tail(step))
    ensures C.ReadRun(b.c, CounterSteps(log, b, step))
  {
    EventsAreTagged(log, b, step);
    var es := Events(log, b, step);
    if step.Stop? || step.Crash? {
      assert [C.Crash][1..] == [];
    } else if (step.Read? || step.ReadOld?) && !b.catching {
      ReadsAreNew(log, b, step);
      var e := es[0];
      assert e in es && es == [e] && LineSteps(es) == [C.Line(e)] && [C.Line(e)][1..] == [];
      forall p | p in b.c.read ensures C.Agree(e, p) {
        Agree(log, e, p);
      }
    } else {
      assert forall e | e in es :: e.catchingUp;
      CatchingRun(log, b.c, es);
    }
  }

  lemma StepRuns(log: Log, b: Both, step: F.Step)
    requires Stamped(log) && Ordered(log, b) && Can(b, Tail(step))
    ensures C.Run(b.c, CounterSteps(log, b, step))
  {
    StepReads(log, b, step);
    EventsAreTagged(log, b, step);
    var steps := CounterSteps(log, b, step);
    assert forall i | 0 <= i < |steps| && steps[i].Line? :: steps[i].e in Events(log, b, step);
    hide Events, CounterSteps;
    StampedRun(log, b.c, steps);
  }

  // What was read before keeps its place.
  lemma PlacesStay(log: Log, b: Both, step: F.Step, e: C.Event)
    requires Ordered(log, b) && Can(b, Tail(step)) && e in b.c.read && N.Sound(F.Do(b.w, step))
    ensures Placed(F.Do(b.w, step), e) && Passed(Do(log, b, Tail(step)), e)
  {
    hide Events, CounterSteps, C.End, Last, ToTheEnd;
  }

  lemma NewPlaces(log: Log, b: Both, step: F.Step, e: C.Event)
    requires Ordered(log, b) && Can(b, Tail(step)) && e in Events(log, b, step) && N.Sound(F.Do(b.w, step))
    ensures Placed(F.Do(b.w, step), e) && Passed(Do(log, b, Tail(step)), e)
  {
    hide CounterSteps, C.End, Last, Name;
  }

  lemma StepKeepsOrder(log: Log, b: Both, step: Step)
    requires Ordered(log, b) && Can(b, step)
    ensures Ordered(log, Do(log, b, step))
  {
    var b' := Do(log, b, step);
    match step
    case Caught =>
    case Tail(s) =>
      N.StepKeepsSound(b.w, s);
      N.YoungMarksKept(b.w, s);
      EventsAreTagged(log, b, s);
      ReadIs(log, b, s);
      forall e | e in b'.c.read ensures Tagged(log, e) && Placed(b'.w, e) && Passed(b', e) {
        if e in b.c.read {
          PlacesStay(log, b, s, e);
        } else {
          NewPlaces(log, b, s, e);
        }
      }
      RotatedNamed(b.w, s);
  }

  lemma ReadIs(log: Log, b: Both, step: F.Step)
    requires Can(b, Tail(step))
    ensures forall e | e in Do(log, b, Tail(step)).c.read :: e in b.c.read || e in Events(log, b, step)
  {
    if step.Stop? || step.Crash? {
      assert [C.Crash][1..] == [];
    } else {
      ReadAfter(b.c, Events(log, b, step));
      hide Events;
    }
  }

  lemma RotatedNamed(w: F.World, step: F.Step)
    requires N.Sound(w) && F.Can(w, step)
    requires w.tail.Up? && w.tail.rotated.Some? && w.tail.rotated.value.fp.Some? ==>
               w.tail.rotated.value.fp.value == w.tail.rotated.value.file
    ensures var t := F.Do(w, step).tail;
            t.Up? && t.rotated.Some? && t.rotated.value.fp.Some? ==> t.rotated.value.fp.value == t.rotated.value.file
  {
    hide Last, LineEnd;
  }

  // ---- runs

  predicate Run(log: Log, b: Both, steps: seq<Step>)
    decreases |steps|
  {
    steps == [] || (Can(b, steps[0]) && Run(log, Do(log, b, steps[0]), steps[1..]))
  }

  function After(log: Log, b: Both, steps: seq<Step>): Both
    requires Run(log, b, steps)
    decreases |steps|
  {
    if steps == [] then b else After(log, Do(log, b, steps[0]), steps[1..])
  }

  lemma {:induction false} EveryRun(log: Log, b: Both, steps: seq<Step>)
    requires Stamped(log) && Ordered(log, b) && C.Tallied(b.c) && C.Once(b.c.store.tally) && Run(log, b, steps)
    ensures C.Once(After(log, b, steps).c.store.tally)
    decreases |steps|
  {
    if steps != [] {
      StepKeepsOrder(log, b, steps[0]);
      if steps[0].Tail? {
        StepRuns(log, b, steps[0].step);
        C.RunsCountOnce(b.c, CounterSteps(log, b, steps[0].step));
      }
      hide Can, Ordered, C.Tallied, C.Once, C.End, CounterSteps;
      EveryRun(log, Do(log, b, steps[0]), steps[1..]);
    }
  }

  // A panel never started before, beside log files of any content.
  function New(files: seq<string>): Both {
    Both(F.World(files, None, F.Down, 0, {}, None), true, C.FRESH)
  }

  // In every run of the tailer - appends, rotations, stops, crashes, starts - beside files of any content, no line
  // is counted twice: all the counter needs of its input but the order of the stamps is what the tailer does.
  lemma NoLineCountedTwice(log: Log, files: seq<string>, steps: seq<Step>)
    requires Stamped(log) && files != [] && Run(log, New(files), steps)
    ensures C.Once(After(log, New(files), steps).c.store.tally)
  {
    C.FreshIsTallied();
    EveryRun(log, New(files), steps);
  }

  // ---- whatever the stamps

  ghost predicate NoneGoneBackTo(log: Log, b: Both, steps: seq<Step>)
    requires Run(log, b, steps)
    decreases |steps|
  {
    steps == [] ||
    (&& (steps[0].Tail? ==> C.NoneGoneBackTo(b.c, CounterSteps(log, b, steps[0].step)))
     && NoneGoneBackTo(log, Do(log, b, steps[0]), steps[1..]))
  }

  lemma {:induction false} TallyGrows(log: Log, b: Both, steps: seq<Step>)
    requires Run(log, b, steps)
    ensures b.c.store.tally <= After(log, b, steps).c.store.tally
    decreases |steps|
  {
    if steps != [] {
      if steps[0].Tail? {
        C.TallyGrows(b.c, CounterSteps(log, b, steps[0].step));
      }
      hide Can, C.End, CounterSteps;
      TallyGrows(log, Do(log, b, steps[0]), steps[1..]);
    }
  }

  lemma {:induction false} OnceExactlyFrom(log: Log, b: Both, steps: seq<Step>)
    requires Ordered(log, b) && C.UpToLast(b.c) && C.Once(b.c.store.tally) && Run(log, b, steps)
    ensures C.Once(After(log, b, steps).c.store.tally) <==> NoneGoneBackTo(log, b, steps)
    decreases |steps|
  {
    if steps != [] {
      var b' := Do(log, b, steps[0]);
      StepKeepsOrder(log, b, steps[0]);
      if steps[0].Tail? {
        var handed := CounterSteps(log, b, steps[0].step);
        StepReads(log, b, steps[0].step);
        C.OnceExactlyFrom(b.c, handed);
        C.RunUpToLast(b.c, handed);
      }
      hide Can, Ordered, C.UpToLast, C.End, CounterSteps;
      if C.Once(b'.c.store.tally) {
        OnceExactlyFrom(log, b', steps[1..]);
      } else {
        TallyGrows(log, b', steps[1..]);
      }
    }
  }

  // In every run of the tailer, whatever the stamps: no line is counted twice if and only if no line that was counted
  // is read again past the place of the last one counted, under its fingerprint.
  lemma OnceExactly(log: Log, files: seq<string>, steps: seq<Step>)
    requires files != [] && Run(log, New(files), steps)
    ensures C.Once(After(log, New(files), steps).c.store.tally) <==> NoneGoneBackTo(log, New(files), steps)
  {
    C.FreshIsTallied();
    OnceExactlyFrom(log, New(files), steps);
  }
}
