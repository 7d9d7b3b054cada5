/** A run in which the stamps of a log go back, and a line of it is counted twice. */
module StampRuns {
  import opened Wrappers
  import opened LogLines
  import opened LogPlace
  import F = Follow
  import N = NoLineLost
  import C = DeferredCounter
  import opened CountedTailer

  lemma {:induction false} RunOn(log: Log, b: Both, steps: seq<Step>, step: Step)
    requires Run(log, b, steps) && Can(After(log, b, steps), step)
    ensures Run(log, b, steps + [step])
    ensures After(log, b, steps + [step]) == Do(log, After(log, b, steps), step)
    decreases |steps|
  {
    if steps == [] {
      assert steps + [step] == [step] && [step][1..] == [];
    } else {
      assert (steps + [step])[1..] == steps[1..] + [step];
      RunOn(log, Do(log, b, steps[0]), steps[1..], step);
    }
  }

  // A warning of the stamp 9, and one of the stamp 5 after it.
  const LOG := Log((file: nat, end: nat) => if end <= 2 then 9 else 5, (l: F.Line) => C.Broken)

  function Rest(): string {
    seq(508, i => 'x')
  }

  function Text(): string {
    "a\nb\n" + Rest()
  }

  // Of the panel: one log, nothing waiting, no login.
  function Panel(text: string, stored: Option<Saved>, tail: F.Tail, done: set<F.Line>, origin: Option<F.Spot>,
                 c: C.World): Both
  {
    Both(F.World([text], stored, tail, 0, done, origin), true, c)
  }

  function At(at: nat, track: Track, unflushed: set<F.Line>): F.Tail {
    F.Up(0, at, track, true, None, unflushed, [], {})
  }

  // The second line as it is read first, then both as they are read again.
  const SECOND := C.Event(C.Broken, 5, C.Place("", 4), 0, true)
  const FIRST_AGAIN := C.Event(C.Broken, 9, C.Place("0", 2), 0, true)
  const SECOND_AGAIN := C.Event(C.Broken, 5, C.Place("0", 4), 0, true)

  const L1 := F.Line(0, 0, 2)
  const L2 := F.Line(0, 2, 4)

  function Counted1(): C.World {
    C.Do(C.FRESH, C.Line(SECOND))
  }

  function Counted2(): C.World {
    C.Do(Counted1(), C.Crash)
  }

  function Counted3(): C.World {
    C.Do(Counted2(), C.Line(FIRST_AGAIN))
  }

  function Counted4(): C.World {
    C.Do(Counted3(), C.Line(SECOND_AGAIN))
  }

  lemma Counts()
    ensures Counted4().store.tally == [SECOND, FIRST_AGAIN, SECOND_AGAIN]
  {
    var c1 := Counted1();
    assert c1.store.tally == [SECOND] && c1.mem.last == Some(5) && c1.store.place == C.Show(C.Place("", 4))
           && c1.store.deferredAt == Some(5);
    C.PlaceRoundTrip(C.Place("", 4));
    var c2 := Counted2();
    assert c2.mem == C.Memory({}, C.Place("", 4), Some(5)) && c2.store.tally == [SECOND];
    hide C.ParsePlace, C.Show, Counted1, Counted2;
    var c3 := Counted3();
    assert c3.store.tally == [SECOND, FIRST_AGAIN] && c3.mem == C.Memory({}, C.Place("0", 2), Some(9));
    hide Counted3;
    assert C.Counts(c3.mem, SECOND_AGAIN);
  }

  // The state after each step.
  function World(i: nat): Both {
    var t := Track(None, 2);
    match i
    case 0 => New(["a\n"])
    case 1 => Panel("a\n", None, At(2, t, {}), {}, None, C.FRESH)
    case 2 => Panel("a\nb\n", None, At(2, t, {}), {}, None, C.FRESH)
    case 3 => Panel("a\nb\n", None, At(4, t, {L2}), {}, None, Counted1())
    case 4 => Panel("a\nb\n", None, At(4, t, {}), {L2}, None, Counted1())
    case 5 => Panel("a\nb\n", Some(Saved(None, 4)), At(4, Track(None, 4), {}), {L2}, Some(F.Spot(0, 4)), Counted1())
    case 6 => Panel(Text(), Some(Saved(None, 4)), At(4, Track(None, 4), {}), {L2}, Some(F.Spot(0, 4)), Counted1())
    case 7 => Panel(Text(), Some(Saved(None, 4)), F.Down, {L2}, Some(F.Spot(0, 4)), Counted2())
    case 8 => Panel(Text(), Some(Saved(None, 4)), At(0, Track(Some(0), 0), {}), {L2}, Some(F.Spot(0, 4)), Counted2())
    case 9 => Panel(Text(), Some(Saved(None, 4)), At(2, Track(Some(0), 0), {L1}), {L2}, Some(F.Spot(0, 4)), Counted3())
    case _ => Panel(Text(), Some(Saved(None, 4)), At(4, Track(Some(0), 0), {L1, L2}), {L2}, Some(F.Spot(0, 4)),
        Counted4())
  }

  function StepAt(i: nat): F.Step {
    match i
    case 0 => F.Start([], {})
    case 1 => F.Append(0, "b\n")
    case 2 => F.Read(F.Nothing)
    case 3 => F.Flush([])
    case 4 => F.Record(true)
    case 5 => F.Append(0, Rest())
    case 6 => F.Crash
    case 7 => F.Start([], {})
    case _ => F.Read(F.Nothing)
  }

  ghost predicate Goes(i: nat) {
    Can(World(i), Tail(StepAt(i))) && Do(LOG, World(i), Tail(StepAt(i))) == World(i + 1)
  }

  // The steps that hand over no line.
  lemma NoLine(b: Both, step: F.Step)
    requires Can(b, Tail(step)) && b.catching
    requires step.Append? || step.Flush? || step.Record? || (step.Start? && F.MissedAt(b.w).None?)
    ensures Do(LOG, b, Tail(step)) == Both(F.Do(b.w, step), true, b.c)
  {
    hide F.Do;
    assert CounterSteps(LOG, b, step) == [];
  }

  lemma CrashStep(b: Both)
    requires Can(b, Tail(F.Crash)) && b.catching
    ensures Do(LOG, b, Tail(F.Crash)) == Both(b.w.(tail := F.Down), true, C.Do(b.c, C.Crash))
  {
    assert CounterSteps(LOG, b, F.Crash) == [C.Crash] && [C.Crash][1..] == [];
    assert C.End(b.c, [C.Crash]) == C.Do(b.c, C.Crash);
    hide C.Do;
  }

  lemma Starts()
    ensures Goes(0)
  {
    hide C.Do, Do;
    NoLine(World(0), StepAt(0));
  }

  lemma StartsAgain()
    ensures Goes(7)
  {
    EndsOfText();
    hide C.Do, Do, Counted2, Text;
    NoLine(World(7), StepAt(7));
  }

  lemma Grows()
    ensures Goes(1)
  {
    hide C.Do, Do;
    NoLine(World(1), StepAt(1));
    assert "a\n" + "b\n" == "a\nb\n";
  }

  lemma GrowsOn()
    ensures Goes(5)
  {
    hide C.Do, Do, Counted1, Rest;
    NoLine(World(5), StepAt(5));
  }

  // One more line of the log.
  lemma ReadStep(b: Both, text: string, at: nat, end: nat, track: Track, unflushed: set<F.Line>)
    requires b.w.files == [text] && b.w.tail == At(at, track, unflushed) && LineEnd(text, at) == Some(end)
    ensures Can(b, Tail(F.Read(F.Nothing)))
    ensures Do(LOG, b, Tail(F.Read(F.Nothing))) ==
            Both(b.w.(tail := At(end, track, unflushed + {F.Line(0, at, end)})), b.catching,
              C.Do(b.c, C.Line(EventOf(LOG, F.Line(0, at, end), track.fp, b.catching))))
  {
    hide LineEnd, C.Do, EventOf;
    var e := EventOf(LOG, F.Line(0, at, end), track.fp, b.catching);
    assert LineSteps([e]) == [C.Line(e)] && [C.Line(e)][1..] == [];
    assert CounterSteps(LOG, b, F.Read(F.Nothing)) == [C.Line(e)];
    assert C.End(b.c, [C.Line(e)]) == C.Do(b.c, C.Line(e));
    assert F.Do(b.w, F.Read(F.Nothing)) == b.w.(tail := At(end, track, unflushed + {F.Line(0, at, end)}));
  }

  lemma EndsOfText()
    ensures |Text()| == 512 && LineEnd(Text(), 0) == Some(2) && LineEnd(Text(), 2) == Some(4)
    ensures LineEnd("a\nb\n", 2) == Some(4)
  {
    LineEndUnique("a\nb\n", 2, 4);
    LineEndUnique(Text(), 0, 2);
    LineEndUnique(Text(), 2, 4);
  }

  lemma AsRead()
    ensures EventOf(LOG, L2, None, true) == SECOND
    ensures EventOf(LOG, L1, Some(0), true) == FIRST_AGAIN && EventOf(LOG, L2, Some(0), true) == SECOND_AGAIN
  {
    assert C.Decimal(0) == "0";
  }

  lemma ReadsOnce()
    ensures Goes(2)
  {
    EndsOfText();
    AsRead();
    hide LineEnd, C.Do, EventOf, Text;
    ReadStep(World(2), "a\nb\n", 2, 4, Track(None, 2), {});
    hide Do, Can;
    assert {} + {L2} == {L2};
  }

  lemma Flushes()
    ensures Goes(3)
  {
    hide C.Do, Do, Counted1;
    NoLine(World(3), StepAt(3));
    assert {} + {L2} == {L2};
  }

  lemma SavesUnnamed()
    ensures Goes(4)
  {
    hide C.Do, Do, Counted1;
    NoLine(World(4), StepAt(4));
  }

  lemma Crashes()
    ensures Goes(6)
  {
    hide C.Do, Do, Counted1, Text;
    CrashStep(World(6));
  }

  lemma ReadsFirst()
    ensures Goes(8)
  {
    EndsOfText();
    AsRead();
    hide LineEnd, C.Do, EventOf, Text, Counted2;
    ReadStep(World(8), Text(), 0, 2, Track(Some(0), 0), {});
    hide Do, Can;
    assert {} + {L1} == {L1};
  }

  lemma ReadsAgain()
    ensures Goes(9)
  {
    EndsOfText();
    AsRead();
    hide LineEnd, C.Do, EventOf, Text, Counted3;
    ReadStep(World(9), Text(), 2, 4, Track(Some(0), 0), {L1});
    hide Do, Can;
    assert {L1} + {L2} == {L1, L2};
  }

  lemma EachGoes(i: nat)
    requires i < 10
    ensures Goes(i)
  {
    hide *;
    Starts();
    Grows();
    ReadsOnce();
    Flushes();
    SavesUnnamed();
    GrowsOn();
    Crashes();
    StartsAgain();
    ReadsFirst();
    ReadsAgain();
  }

  lemma {:induction false} Runs(n: nat) returns (steps: seq<Step>)
    requires n <= 10
    ensures Run(LOG, New(["a\n"]), steps) && After(LOG, New(["a\n"]), steps) == World(n)
  {
    if n == 0 {
      steps := [];
    } else {
      var before := Runs(n - 1);
      EachGoes(n - 1);
      hide Run, After, Can, Do;
      RunOn(LOG, New(["a\n"]), before, Tail(StepAt(n - 1)));
      steps := before + [Tail(StepAt(n - 1))];
    }
  }

  lemma NotInOrder()
    ensures !Stamped(LOG)
  {
    assert LOG.stamp(0, 2) == 9 && LOG.stamp(0, 4) == 5;
  }

  lemma Twice()
    ensures !C.Once(World(10).c.store.tally)
  {
    Counts();
    hide Counted4;
    var tally := [SECOND, FIRST_AGAIN, SECOND_AGAIN];
    assert C.SameLine(tally[0], tally[2]);
  }

  // The order of the stamps is needed: of two warnings in a log read again from its start, the second is counted at
  // both readings where the first, not read before, has a later stamp.
  lemma CountedTwice() returns (steps: seq<Step>)
    ensures !Stamped(LOG) && Run(LOG, New(["a\n"]), steps)
    ensures !C.Once(After(LOG, New(["a\n"]), steps).c.store.tally)
  {
    hide *;
    NotInOrder();
    Twice();
    steps := Runs(10);
  }
}
