/**
 The level-2 limit as concurrent sessions run it, for one limit key and a fixed window: a session reads the
 stored count, then - in another step - is admitted or refused under the registry's lock, later writes its
 send-log row, and then gives its slot back. Reservations do not outlive their time here, and the store
 answers.
 */
module RateProtocol {

  // Between two of its steps a session is idle; has read the stored count, since when gone messages were
  // logged and gave their slot back; holds a slot for a message not logged; holds one for a message logged as
  // the serial-th; or holds one for a message whose row could not be written.
  datatype Phase = Idle | Counted(seen: nat, gone: nat) | Holding | Logged(serial: nat) | Unwritten

  datatype World = World(logged: nat, sessions: seq<Phase>)

  datatype Step =
    | Count(i: nat)
    | Admit(i: nat)
    | Insert(i: nat)
    | InsertFails(i: nat)
    | Release(i: nat)
    | Drop(i: nat)

  type Test = Phase -> bool

  function Tally(s: seq<Phase>, p: Test): nat {
    if s == [] then 0 else Tally(s[..|s| - 1], p) + if p(s[|s| - 1]) then 1 else 0
  }

  const HOLDING: Test := (p: Phase) => p.Holding?
  const RESERVED: Test := (p: Phase) => p.Holding? || p.Logged? || p.Unwritten?

  function After(serial: nat): Test {
    (p: Phase) => p.Logged? && p.serial > serial
  }

  // A session that has counted less than the ceiling, and so may yet be admitted.
  function Live(max: nat): Test {
    (p: Phase) => p.Counted? && p.seen < max
  }

  function Reserved(w: World): nat {
    Tally(w.sessions, RESERVED)
  }

  // The messages that count against the limit: those logged, and those on their way to the log.
  function Total(w: World): nat {
    w.logged + Tally(w.sessions, HOLDING)
  }

  // Release tells every session that counted before this message was logged.
  function Pass(p: Phase, serial: nat): Phase {
    if p.Counted? && serial > p.seen then p.(gone := p.gone + 1) else p
  }

  function PassAll(s: seq<Phase>, serial: nat): (res: seq<Phase>)
    ensures |res| == |s|
  {
    seq(|s|, k requires 0 <= k < |s| => Pass(s[k], serial))
  }

  predicate Enabled(w: World, step: Step) {
    && step.i < |w.sessions|
    && var p := w.sessions[step.i];
       match step
       case Count(_) => p.Idle?
       case Admit(_) => p.Counted?
       case Insert(_) => p.Holding?
       case InsertFails(_) => p.Holding?
       case Release(_) => p.Logged? || p.Unwritten?
       case Drop(_) => p.Holding?
  }

  function Do(w: World, max: nat, step: Step): (w': World)
    requires Enabled(w, step)
    ensures |w'.sessions| == |w.sessions|
  {
    var i, s := step.i, w.sessions;
    match step
    case Count(_) => w.(sessions := s[i := Counted(w.logged, 0)])
    case Admit(_) => w.(sessions := s[i := if s[i].seen + Reserved(w) < max then Holding else Idle])
    case Insert(_) => World(w.logged + 1, s[i := Logged(w.logged + 1)])
    case InsertFails(_) => w.(sessions := s[i := Unwritten])
    case Release(_) => w.(sessions := if s[i].Logged? then PassAll(s[i := Idle], s[i].serial) else s[i := Idle])
    case Drop(_) => w.(sessions := s[i := Idle])
  }

  ghost predicate Run(w: World, max: nat, steps: seq<Step>, w': World)
    decreases |steps|
  {
    if steps == [] then w == w' else Enabled(w, steps[0]) && Run(Do(w, max, steps[0]), max, steps[1..], w')
  }

  // No session is between its steps, and no more is logged than the limit allows.
  predicate Start(w: World, max: nat) {
    w.logged <= max && forall i | 0 <= i < |w.sessions| :: w.sessions[i].Idle?
  }

  // ---- counting phases

  lemma {:induction false} TallyUpdate(s: seq<Phase>, i: nat, x: Phase, p: Test)
    requires i < |s|
    ensures Tally(s[i := x], p) + (if p(s[i]) then 1 else 0) == Tally(s, p) + if p(x) then 1 else 0
  {
    var n := |s| - 1;
    if i < n {
      assert s[i := x][..n] == s[..n][i := x];
      TallyUpdate(s[..n], i, x, p);
    } else {
      assert s[i := x][..n] == s[..n];
    }
  }

  lemma {:induction false} TallySame(s: seq<Phase>, s': seq<Phase>, p: Test)
    requires |s| == |s'| && forall i | 0 <= i < |s| :: p(s[i]) == p(s'[i])
    ensures Tally(s, p) == Tally(s', p)
  {
    if s != [] {
      var n := |s| - 1;
      TallySame(s[..n], s'[..n], p);
    }
  }

  lemma {:induction false} TallyApart(s: seq<Phase>, p: Test, q: Test, r: Test)
    requires forall i | 0 <= i < |s| :: (p(s[i]) ==> !q(s[i]) && r(s[i])) && (q(s[i]) ==> r(s[i]))
    ensures Tally(s, p) + Tally(s, q) <= Tally(s, r)
  {
    if s != [] {
      var n := |s| - 1;
      TallyApart(s[..n], p, q, r);
    }
  }

  lemma {:induction false} TallyNone(s: seq<Phase>, p: Test)
    ensures Tally(s, p) <= |s|
    ensures (forall i | 0 <= i < |s| :: !p(s[i])) ==> Tally(s, p) == 0
  {
    if s != [] {
      TallyNone(s[..|s| - 1], p);
    }
  }

  // ---- at most max + N - 1

  // Once the log is full, nobody who counts from then on is admitted: only those already on their way or
  // already past the count can still add to it, and one session is neither.
  ghost predicate Bounded(w: World, max: nat) {
    || w.logged < max
    || Total(w) + Tally(w.sessions, Live(max)) < max + |w.sessions|
  }

  lemma StepBounded(w: World, max: nat, step: Step)
    requires Bounded(w, max) && Enabled(w, step)
    ensures Bounded(Do(w, max, step), max)
  {
    var w' := Do(w, max, step);
    var i, s := step.i, w.sessions;
    if w'.logged >= max {
      if step.Release? && s[i].Logged? {
        TallySame(s[i := Idle], w'.sessions, HOLDING);
        TallySame(s[i := Idle], w'.sessions, Live(max));
        TallyUpdate(s, i, Idle, HOLDING);
        TallyUpdate(s, i, Idle, Live(max));
      } else {
        TallyUpdate(s, i, w'.sessions[i], HOLDING);
        TallyUpdate(s, i, w'.sessions[i], Live(max));
      }
      if w.logged < max {
        NeitherNor(w'.sessions, i, max);
      }
    }
  }

  lemma NeitherNor(s: seq<Phase>, i: nat, max: nat)
    requires i < |s| && s[i].Logged?
    ensures Tally(s, HOLDING) + Tally(s, Live(max)) < |s|
  {
    var all: Test := (p: Phase) => !p.Logged?;
    TallyApart(s, HOLDING, Live(max), all);
    var some: Test := (p: Phase) => p.Logged?;
    var any: Test := (p: Phase) => true;
    TallyApart(s, all, some, any);
    TallyNone(s, any);
    TallyUpdate(s, i, Idle, some);
  }

  // Logged messages and those on their way never exceed the ceiling by as much as there are sessions.
  lemma {:induction false} NeverOverByN(w: World, max: nat, steps: seq<Step>, w': World)
    requires max > 0 && Bounded(w, max) && Run(w, max, steps, w')
    ensures Bounded(w', max) && Total(w') < max + |w.sessions|
    decreases |steps|
  {
    if steps == [] {
      TallyNone(w.sessions, HOLDING);
    } else {
      StepBounded(w, max, steps[0]);
      NeverOverByN(Do(w, max, steps[0]), max, steps[1..], w');
    }
  }

  lemma StartBounded(w: World, max: nat)
    requires Start(w, max) && |w.sessions| > 0
    ensures Bounded(w, max)
  {
    TallyNone(w.sessions, HOLDING);
    TallyNone(w.sessions, Live(max));
  }

  // ---- exactly max, but for messages that come and go between a count and its admission

  // What a session counted is what is logged now, less the messages logged since: each of those still holds
  // its slot, or is one of gone.
  ghost predicate Accounted(w: World) {
    && (forall i | 0 <= i < |w.sessions| && w.sessions[i].Logged? :: w.sessions[i].serial <= w.logged)
    && forall i | 0 <= i < |w.sessions| && w.sessions[i].Counted? ::
         w.logged == w.sessions[i].seen + w.sessions[i].gone + Tally(w.sessions, After(w.sessions[i].seen))
  }

  lemma StepAccounted(w: World, max: nat, step: Step)
    requires Accounted(w) && Enabled(w, step)
    ensures Accounted(Do(w, max, step))
  {
    var w' := Do(w, max, step);
    var i, s := step.i, w.sessions;
    forall k | 0 <= k < |s| && w'.sessions[k].Counted?
      ensures w'.logged == w'.sessions[k].seen + w'.sessions[k].gone + Tally(w'.sessions, After(w'.sessions[k].seen))
    {
      var seen := w'.sessions[k].seen;
      if step.Release? && s[i].Logged? {
        TallySame(s[i := Idle], w'.sessions, After(seen));
        TallyUpdate(s, i, Idle, After(seen));
      } else {
        TallyUpdate(s, i, w'.sessions[i], After(seen));
      }
      if step.Count? && k == i {
        TallyNone(w'.sessions, After(seen));
      }
    }
  }

  // An admission takes the messages over the ceiling by no more than came and went since its count.
  lemma AdmitOvershoot(w: World, max: nat, i: nat)
    requires Accounted(w) && Enabled(w, Admit(i)) && Do(w, max, Admit(i)).sessions[i].Holding?
    ensures Total(Do(w, max, Admit(i))) <= max + w.sessions[i].gone
  {
    var s := w.sessions;
    TallyUpdate(s, i, Holding, HOLDING);
    TallyApart(s, HOLDING, After(s[i].seen), RESERVED);
  }

  // Nobody is admitted past a message that came and went since the count.
  ghost predicate NoneGone(w: World, max: nat, steps: seq<Step>)
    decreases |steps|
  {
    steps == [] || (Enabled(w, steps[0]) ==>
      && (steps[0].Admit? ==> w.sessions[steps[0].i].gone == 0)
      && NoneGone(Do(w, max, steps[0]), max, steps[1..]))
  }

  // The messages that may come and go since session i counted, and its own still be within the ceiling.
  function Room(w: World, max: nat, i: nat): int
    requires i < |w.sessions| && w.sessions[i].Counted?
  {
    max - w.sessions[i].seen - Tally(w.sessions, HOLDING) - Tally(w.sessions, After(w.sessions[i].seen))
  }

  // The step admits a message.
  predicate Admits(w: World, max: nat, step: Step) {
    step.Admit? && Enabled(w, step) && Do(w, max, step).sessions[step.i].Holding?
  }

  // An admission takes the messages over the ceiling if and only if as many came and went as there was room for
  // when its session counted; and there was room for some.
  lemma AdmitExactly(w: World, max: nat, i: nat)
    requires Accounted(w) && Admits(w, max, Admit(i))
    ensures Total(Do(w, max, Admit(i))) > max <==> w.sessions[i].gone >= Room(w, max, i)
    ensures Room(w, max, i) > 0
  {
    var s := w.sessions;
    TallyUpdate(s, i, Holding, HOLDING);
    TallyApart(s, HOLDING, After(s[i].seen), RESERVED);
  }

  // No other step takes them there.
  lemma OthersDoNotExceed(w: World, max: nat, step: Step)
    requires Enabled(w, step) && !Admits(w, max, step)
    ensures Total(Do(w, max, step)) <= Total(w)
  {
    var mid := Do(w, max, step);
    if step.Release? && w.sessions[step.i].Logged? {
      TallySame(w.sessions[step.i := Idle], mid.sessions, HOLDING);
      TallyUpdate(w.sessions, step.i, Idle, HOLDING);
    } else {
      TallyUpdate(w.sessions, step.i, mid.sessions[step.i], HOLDING);
    }
  }

  ghost predicate AlwaysWithin(w: World, max: nat, steps: seq<Step>)
    decreases |steps|
  {
    Total(w) <= max && (steps == [] || (Enabled(w, steps[0]) ==> AlwaysWithin(Do(w, max, steps[0]), max, steps[1..])))
  }

  ghost predicate AlwaysRoom(w: World, max: nat, steps: seq<Step>)
    decreases |steps|
  {
    steps == [] || (Enabled(w, steps[0]) ==>
      && (Admits(w, max, steps[0]) ==> w.sessions[steps[0].i].gone < Room(w, max, steps[0].i))
      && AlwaysRoom(Do(w, max, steps[0]), max, steps[1..]))
  }

  lemma {:induction false} WithinExactly(w: World, max: nat, steps: seq<Step>, w': World)
    requires Accounted(w) && Total(w) <= max && Run(w, max, steps, w')
    ensures AlwaysWithin(w, max, steps) <==> AlwaysRoom(w, max, steps)
    decreases |steps|
  {
    if steps != [] {
      var step := steps[0];
      var mid := Do(w, max, step);
      StepAccounted(w, max, step);
      if Admits(w, max, step) {
        AdmitExactly(w, max, step.i);
      } else {
        OthersDoNotExceed(w, max, step);
      }
      hide Accounted, Admits, Room, Total, Do;
      if Total(mid) <= max {
        WithinExactly(mid, max, steps[1..], w');
      }
    }
  }

  // From the start of the sessions the messages never exceed the ceiling if and only if, at each admission, fewer
  // came and went since its count than it had room for.
  lemma LimitKeptExactly(w: World, max: nat, steps: seq<Step>, w': World)
    requires Start(w, max) && Run(w, max, steps, w')
    ensures AlwaysWithin(w, max, steps) <==> AlwaysRoom(w, max, steps)
  {
    TallyNone(w.sessions, HOLDING);
    WithinExactly(w, max, steps, w');
  }

  // Where none came and went there was room.
  lemma {:induction false} NoneGoneIsRoom(w: World, max: nat, steps: seq<Step>, w': World)
    requires Accounted(w) && Run(w, max, steps, w') && NoneGone(w, max, steps)
    ensures AlwaysRoom(w, max, steps)
    decreases |steps|
  {
    if steps != [] {
      StepAccounted(w, max, steps[0]);
      if Admits(w, max, steps[0]) {
        AdmitExactly(w, max, steps[0].i);
      }
      hide Accounted, Admits, Room, Do;
      NoneGoneIsRoom(Do(w, max, steps[0]), max, steps[1..], w');
    }
  }

  lemma {:induction false} WithinAtTheEnd(w: World, max: nat, steps: seq<Step>, w': World)
    requires AlwaysWithin(w, max, steps) && Run(w, max, steps, w')
    ensures Total(w') <= max
    decreases |steps|
  {
    if steps != [] {
      WithinAtTheEnd(Do(w, max, steps[0]), max, steps[1..], w');
    }
  }

  // Both bounds, from the start of the sessions.
  lemma LimitHolds(w: World, max: nat, steps: seq<Step>, w': World)
    requires max > 0 && Start(w, max) && |w.sessions| > 0 && Run(w, max, steps, w')
    ensures Total(w') <= max + |w.sessions| - 1
    ensures NoneGone(w, max, steps) ==> Total(w') <= max
  {
    StartBounded(w, max);
    NeverOverByN(w, max, steps, w');
    TallyNone(w.sessions, HOLDING);
    if NoneGone(w, max, steps) {
      LimitKeptExactly(w, max, steps, w');
      NoneGoneIsRoom(w, max, steps, w');
      WithinAtTheEnd(w, max, steps, w');
    }
  }

  // ---- and max + N - 1 is reached

  lemma {:induction false} RunJoin(w: World, max: nat, a: seq<Step>, mid: World, b: seq<Step>, w': World)
    requires Run(w, max, a, mid) && Run(mid, max, b, w')
    ensures Run(w, max, a + b, w')
    decreases |a|
  {
    if a == [] {
      assert a + b == b;
    } else {
      assert (a + b)[1..] == a[1..] + b;
      RunJoin(Do(w, max, a[0]), max, a[1..], mid, b, w');
    }
  }

  // n messages logged and gone; the sessions from lo on counted before the first of them.
  function Stale(n: nat, lo: nat, sessions: nat): World {
    World(n, seq(sessions, k requires 0 <= k < sessions => if k < lo then Idle else Counted(0, n)))
  }

  // Session i, idle or with a stale count, sends one more message to its end.
  lemma OneMore(n: nat, lo: nat, i: nat, sessions: nat, max: nat) returns (steps: seq<Step>)
    requires i < sessions && lo > 0 && (if i < lo then n < max else i == lo && max > 0)
    ensures Run(Stale(n, lo, sessions), max, steps, Stale(n + 1, if i < lo then lo else lo + 1, sessions))
  {
    var w0 := Stale(n, lo, sessions);
    var w1 := if i < lo then Do(w0, max, Count(i)) else w0;
    TallyNone(w1.sessions, RESERVED);
    var w2 := Do(w1, max, Admit(i));
    var w3 := Do(w2, max, Insert(i));
    var w4 := Do(w3, max, Release(i));
    assert w4.sessions == Stale(n + 1, if i < lo then lo else lo + 1, sessions).sessions;
    steps := (if i < lo then [Count(i)] else []) + [Admit(i), Insert(i), Release(i)];
    assert Run(w4, max, [], w4);
    assert Run(w3, max, [Release(i)], w4);
    assert [Insert(i), Release(i)][1..] == [Release(i)];
    assert Run(w2, max, [Insert(i), Release(i)], w4);
    assert [Admit(i), Insert(i), Release(i)][1..] == [Insert(i), Release(i)];
    assert Run(w1, max, [Admit(i), Insert(i), Release(i)], w4);
    if i < lo {
      assert steps[1..] == [Admit(i), Insert(i), Release(i)];
    } else {
      assert steps == [Admit(i), Insert(i), Release(i)];
    }
  }

  // From n logged and the sessions from lo on stale: the rest of the way to the worst case.
  lemma {:induction false} ToTheWorst(n: nat, lo: nat, sessions: nat, max: nat) returns (steps: seq<Step>)
    requires 0 < lo <= sessions && max > 0 && (n < max ==> lo == 1) && n <= max + lo - 1
    requires n >= max ==> n == max + lo - 1
    ensures Run(Stale(n, lo, sessions), max, steps, Stale(max + sessions - 1, sessions, sessions))
    decreases sessions - lo, max + sessions - n
  {
    hide Stale;
    if n < max {
      var a := OneMore(n, lo, 0, sessions, max);
      var b := ToTheWorst(n + 1, lo, sessions, max);
      RunJoin(Stale(n, lo, sessions), max, a, Stale(n + 1, lo, sessions), b,
          Stale(max + sessions - 1, sessions, sessions));
      steps := a + b;
    } else if lo < sessions {
      var a := OneMore(n, lo, lo, sessions, max);
      var b := ToTheWorst(n + 1, lo + 1, sessions, max);
      RunJoin(Stale(n, lo, sessions), max, a, Stale(n + 1, lo + 1, sessions), b,
          Stale(max + sessions - 1, sessions, sessions));
      steps := a + b;
    } else {
      steps := [];
      assert n == max + sessions - 1;
    }
  }

  lemma {:induction false} AllCount(lo: nat, sessions: nat, max: nat) returns (steps: seq<Step>)
    requires lo <= sessions
    ensures Run(Stale(0, sessions, sessions), max, steps, Stale(0, lo, sessions))
    decreases sessions - lo
  {
    if lo == sessions {
      steps := [];
    } else {
      var a := AllCount(lo + 1, sessions, max);
      var w, w' := Stale(0, lo + 1, sessions), Stale(0, lo, sessions);
      assert Do(w, max, Count(lo)).sessions == w'.sessions;
      assert Run(w', max, [], w');
      assert [Count(lo)][1..] == [];
      RunJoin(Stale(0, sessions, sessions), max, a, w, [Count(lo)], w');
      steps := a + [Count(lo)];
    }
  }

  // For every number of sessions and every ceiling there is a run that ends max + N - 1 messages logged.
  lemma BoundIsReached(sessions: nat, max: nat) returns (w: World, steps: seq<Step>, w': World)
    requires sessions > 0 && max > 0
    ensures Start(w, max) && |w.sessions| == sessions && Run(w, max, steps, w')
    ensures Total(w') == max + sessions - 1
  {
    w, w' := Stale(0, sessions, sessions), Stale(max + sessions - 1, sessions, sessions);
    var a := AllCount(1, sessions, max);
    var b := ToTheWorst(0, 1, sessions, max);
    RunJoin(w, max, a, Stale(0, 1, sessions), b, w');
    steps := a + b;
    TallyNone(w'.sessions, HOLDING);
  }
}
