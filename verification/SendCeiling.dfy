/** The hourly ceiling on the panel's own messages (deliver and underCeiling in notify). */
module SendCeiling {
  const HOUR := 3600
  const HOURLY_CEILING := 60

  // One attempt to send: the clock as the ceiling is checked, whether the mail system took the message, when it
  // took it, and the clock as that is noted.
  datatype Try = Try(check: int, taken: bool, handed: int, noted: int)

  predicate InOrder(t: Try, clock: int) {
    clock <= t.check <= t.handed <= t.noted
  }

  // The clock runs on through the attempts.
  predicate AllInOrder(tries: seq<Try>, clock: int) {
    forall i {:trigger tries[i]} | 0 <= i < |tries| :: InOrder(tries[i], if i == 0 then clock else tries[i - 1].noted)
  }

  function Recent(times: seq<int>, cutoff: int): seq<int> {
    if times == [] then [] else
      var n := |times| - 1;
      Recent(times[..n], cutoff) + if times[n] > cutoff then [times[n]] else []
  }

  // How many of the times, from the first on, are past.
  function Past(times: seq<int>, cutoff: int): (k: nat)
    ensures k <= |times| && (forall i | 0 <= i < k :: times[i] <= cutoff) && (k < |times| ==> times[k] > cutoff)
  {
    if times == [] || times[0] > cutoff then 0 else 1 + Past(times[1..], cutoff)
  }

  lemma {:induction false} RecentIsSuffix(times: seq<int>, cutoff: int, k: nat)
    requires k <= |times|
    requires (forall i | 0 <= i < k :: times[i] <= cutoff) && (forall i | k <= i < |times| :: times[i] > cutoff)
    ensures Recent(times, cutoff) == times[k..]
  {
    if times != [] {
      var n := |times| - 1;
      RecentIsSuffix(times[..n], cutoff, if k > n then n else k);
      assert k <= n ==> times[k..] == times[..n][k..] + [times[n]];
    }
  }

  function Noted(log: seq<Try>): (times: seq<int>)
    ensures |times| == |log| && forall i | 0 <= i < |log| :: times[i] == log[i].noted
  {
    seq(|log|, i requires 0 <= i < |log| => log[i].noted)
  }

  // Sixty-one messages are always more than an hour in the sending.
  predicate Spaced(log: seq<Try>) {
    forall i | HOURLY_CEILING <= i < |log| :: log[i - HOURLY_CEILING].noted <= log[i].check - HOUR
  }

  predicate Running(log: seq<Try>, clock: int) {
    && (forall i | 0 <= i < |log| :: log[i].check <= log[i].handed <= log[i].noted <= clock)
    && (forall i, j | 0 <= i < j < |log| :: log[i].noted <= log[j].check)
  }

  // What is kept of the times is their end; what is gone was an hour old already.
  predicate Kept(log: seq<Try>, sentAt: seq<int>, clock: int) {
    && |sentAt| <= |log| && sentAt == Noted(log)[|log| - |sentAt|..]
    && forall i | 0 <= i < |log| - |sentAt| :: log[i].noted <= clock - HOUR
  }

  predicate Holds(log: seq<Try>, sentAt: seq<int>, clock: int) {
    Running(log, clock) && Spaced(log) && Kept(log, sentAt, clock)
  }

  lemma RecentOfKept(log: seq<Try>, sentAt: seq<int>, clock: int, cutoff: int) returns (k: nat)
    requires Running(log, clock) && Kept(log, sentAt, clock)
    ensures k <= |sentAt| && Recent(sentAt, cutoff) == sentAt[k..] && forall i | 0 <= i < k :: sentAt[i] <= cutoff
  {
    var gone := |log| - |sentAt|;
    k := Past(sentAt, cutoff);
    forall i | k <= i < |sentAt| ensures sentAt[i] > cutoff {
      assert sentAt[k] == log[gone + k].noted && sentAt[i] == log[gone + i].noted;
      assert i > k ==> log[gone + k].noted <= log[gone + i].check;
    }
    RecentIsSuffix(sentAt, cutoff, k);
  }

  // Pruning keeps what is less than an hour old.
  lemma PruningHolds(log: seq<Try>, sentAt: seq<int>, clock: int, check: int)
    requires Holds(log, sentAt, clock) && clock <= check
    ensures Holds(log, Recent(sentAt, check - HOUR), check)
  {
    var k := RecentOfKept(log, sentAt, clock, check - HOUR);
    hide Spaced, Recent;
    var gone := |log| - |sentAt|;
    var noted := Noted(log);
    assert noted[gone..][k..] == noted[gone + k..];
    forall i | 0 <= i < gone + k ensures log[i].noted <= check - HOUR {
      if i >= gone {
        assert noted[i] == sentAt[i - gone];
      }
    }
  }

  // With fewer than the ceiling left, one more may go.
  lemma OneMoreHolds(log: seq<Try>, kept: seq<int>, t: Try)
    requires Holds(log, kept, t.check) && |kept| < HOURLY_CEILING && t.check <= t.handed <= t.noted
    ensures Holds(log + [t], kept + [t.noted], t.noted)
  {
    assert Noted(log + [t]) == Noted(log) + [t.noted];
    assert Noted(log)[|log| - |kept|..] + [t.noted] == Noted(log + [t])[|log| - |kept|..];
    hide Noted;
  }

  // ---- the window

  function InWindow(log: seq<Try>, t: int): set<nat> {
    set i | 0 <= i < |log| && t - HOUR < log[i].handed <= t
  }

  lemma {:induction false} SizeOfRange(s: set<nat>, lo: nat, n: nat)
    requires forall i | i in s :: lo <= i < lo + n
    ensures |s| <= n
    decreases n
  {
    if n == 0 {
      assert s == {};
    } else {
      SizeOfRange(s - {lo + n - 1}, lo, n - 1);
      assert s <= (s - {lo + n - 1}) + {lo + n - 1};
    }
  }

  lemma {:induction false} Least(s: set<nat>) returns (lo: nat)
    requires s != {}
    ensures lo in s && forall i | i in s :: lo <= i
  {
    var x :| x in s;
    if s == {x} {
      lo := x;
    } else {
      var y := Least(s - {x});
      assert forall i | i in s :: i == x || i in s - {x};
      lo := if x < y then x else y;
    }
  }

  lemma FarApart(log: seq<Try>, clock: int, lo: nat, i: nat)
    requires Running(log, clock) && Spaced(log) && lo < |log| && i < |log|
    ensures i >= lo + HOURLY_CEILING ==> log[lo].handed <= log[i].handed - HOUR
  {
    if i > lo + HOURLY_CEILING {
      assert log[lo].noted <= log[i - HOURLY_CEILING].check;
    }
  }

  // Every hour, wherever it starts, has sixty messages handed over in it at the most.
  lemma NoMoreThanTheCeiling(log: seq<Try>, clock: int, t: int)
    requires Running(log, clock) && Spaced(log)
    ensures |InWindow(log, t)| <= HOURLY_CEILING
  {
    var s := InWindow(log, t);
    if s != {} {
      var lo := Least(s);
      forall i | i in s ensures i < lo + HOURLY_CEILING {
        FarApart(log, clock, lo, i);
      }
      SizeOfRange(s, lo, HOURLY_CEILING);
    }
  }

  // ---- over restarts

  // The times in memory, and the history: what each process handed over, the running one last.
  datatype Panel = Panel(sentAt: seq<int>, logs: seq<seq<Try>>, clock: int)

  datatype Step = Attempt(t: Try) | Restart

  const NEW := Panel([], [[]], 0)

  predicate Can(p: Panel, step: Step) {
    p.logs != [] && (step.Attempt? ==> InOrder(step.t, p.clock))
  }

  function Do(p: Panel, step: Step): Panel
    requires Can(p, step)
  {
    match step
    case Restart => Panel([], p.logs + [[]], p.clock)
    case Attempt(t) =>
      var kept, n := Recent(p.sentAt, t.check - HOUR), |p.logs| - 1;
      if |kept| < HOURLY_CEILING && t.taken
      then Panel(kept + [t.noted], p.logs[n := p.logs[n] + [t]], t.noted)
      else Panel(kept, p.logs, t.noted)
  }

  predicate Run(p: Panel, steps: seq<Step>)
    decreases |steps|
  {
    steps == [] || (Can(p, steps[0]) && Run(Do(p, steps[0]), steps[1..]))
  }

  function After(p: Panel, steps: seq<Step>): Panel
    requires Run(p, steps)
    decreases |steps|
  {
    if steps == [] then p else After(Do(p, steps[0]), steps[1..])
  }

  ghost predicate Each(logs: seq<seq<Try>>, clock: int) {
    forall k | 0 <= k < |logs| :: Running(logs[k], clock) && Spaced(logs[k])
  }

  ghost predicate Keeps(p: Panel) {
    p.logs != [] && Holds(p.logs[|p.logs| - 1], p.sentAt, p.clock) && Each(p.logs, p.clock)
  }

  lemma EachRunsOn(logs: seq<seq<Try>>, clock: int, log: seq<Try>, later: int)
    requires Each(logs, clock) && clock <= later && Running(log, later) && Spaced(log)
    ensures Each(logs, later) && Each(logs + [log], later)
    ensures logs != [] ==> Each(logs[|logs| - 1 := log], later)
  {
    forall k | 0 <= k < |logs| ensures Running(logs[k], later) && Spaced(logs[k]) {
      assert Running(logs[k], clock) && Spaced(logs[k]);
    }
    hide Running, Spaced;
  }

  lemma StepKeeps(p: Panel, step: Step)
    requires Keeps(p) && Can(p, step)
    ensures Keeps(Do(p, step))
  {
    hide *;
    Parts(p);
    match step
    case Restart => RestartKeeps(p);
    case Attempt(t) =>
      var n, kept := |p.logs| - 1, Recent(p.sentAt, t.check - HOUR);
      AttemptIs(p, t);
      AttemptHolds(p.logs[n], p.sentAt, p.clock, t);
      HoldsKeeps(p, p.logs[n], kept, t.noted);
      if |kept| < HOURLY_CEILING {
        HoldsKeeps(p, p.logs[n] + [t], kept + [t.noted], t.noted);
      }
      assert p.logs[n := p.logs[n]] == p.logs;
  }

  lemma Parts(p: Panel)
    requires Keeps(p)
    ensures p.logs != [] && Holds(p.logs[|p.logs| - 1], p.sentAt, p.clock) && Each(p.logs, p.clock)
  {
    hide Holds, Each;
  }

  lemma AttemptIs(p: Panel, t: Try)
    requires Can(p, Attempt(t))
    ensures var (kept, n) := (Recent(p.sentAt, t.check - HOUR), |p.logs| - 1);
            && InOrder(t, p.clock)
            && Do(p, Attempt(t)) ==
               if |kept| < HOURLY_CEILING && t.taken
               then Panel(kept + [t.noted], p.logs[n := p.logs[n] + [t]], t.noted)
               else Panel(kept, p.logs, t.noted)
  {
    hide Recent;
  }

  // The running process's log, as far as it now is.
  lemma HoldsKeeps(p: Panel, log: seq<Try>, sentAt: seq<int>, clock: int)
    requires p.logs != [] && Each(p.logs, p.clock) && p.clock <= clock && Holds(log, sentAt, clock)
    ensures Keeps(Panel(sentAt, p.logs[|p.logs| - 1 := log], clock))
  {
    EachRunsOn(p.logs, p.clock, log, clock);
    hide Running, Spaced, Kept, Each;
  }

  lemma RestartKeeps(p: Panel)
    requires Keeps(p) && Can(p, Restart)
    ensures Keeps(Do(p, Restart))
  {
    EachRunsOn(p.logs, p.clock, [], p.clock);
    hide Each;
  }

  lemma AttemptHolds(log: seq<Try>, sentAt: seq<int>, clock: int, t: Try)
    requires Holds(log, sentAt, clock) && InOrder(t, clock)
    ensures var kept := Recent(sentAt, t.check - HOUR);
            && clock <= t.noted && Holds(log, kept, t.noted)
            && (|kept| < HOURLY_CEILING ==> Holds(log + [t], kept + [t.noted], t.noted))
  {
    var kept := Recent(sentAt, t.check - HOUR);
    PruningHolds(log, sentAt, clock, t.check);
    if |kept| < HOURLY_CEILING {
      OneMoreHolds(log, kept, t);
    }
    Later(log, kept, t.check, t.noted);
    hide Holds, Recent;
  }

  lemma {:induction false} EveryRunKeeps(p: Panel, steps: seq<Step>)
    requires Keeps(p) && Run(p, steps)
    ensures Keeps(After(p, steps))
    decreases |steps|
  {
    if steps != [] {
      StepKeeps(p, steps[0]);
      hide Keeps, Do, Can;
      EveryRunKeeps(Do(p, steps[0]), steps[1..]);
    }
  }

  // The messages handed over in the hour, and the processes that handed any over.
  function Sent(logs: seq<seq<Try>>, t: int): nat {
    if logs == [] then 0 else Sent(logs[..|logs| - 1], t) + |InWindow(logs[|logs| - 1], t)|
  }

  function Senders(logs: seq<seq<Try>>, t: int): nat {
    if logs == [] then 0 else
      Senders(logs[..|logs| - 1], t) + if InWindow(logs[|logs| - 1], t) == {} then 0 else 1
  }

  lemma {:induction false} SentWithin(logs: seq<seq<Try>>, clock: int, t: int)
    requires Each(logs, clock)
    ensures Sent(logs, t) <= HOURLY_CEILING * Senders(logs, t)
  {
    if logs != [] {
      var n := |logs| - 1;
      SentWithin(logs[..n], clock, t);
      NoMoreThanTheCeiling(logs[n], clock, t);
      hide Running, Spaced, InWindow;
    }
  }

  // Whatever the attempts and restarts, every hour, wherever it starts, has at most sixty messages handed over in it
  // for each process that handed over any in it.
  lemma SixtyEachProcess(steps: seq<Step>, t: int)
    requires Run(NEW, steps)
    ensures var logs := After(NEW, steps).logs; Sent(logs, t) <= HOURLY_CEILING * Senders(logs, t)
  {
    assert Keeps(NEW);
    EveryRunKeeps(NEW, steps);
    var p := After(NEW, steps);
    hide Run, After;
    SentWithin(p.logs, p.clock, t);
  }

  const AT_ONCE := Try(0, true, 0, 0)

  // So many processes that handed over sixty messages at once, and one that handed over j.
  function Filled(processes: nat, j: nat): Panel {
    Panel(seq(j, i => 0), seq(processes, i => seq(HOURLY_CEILING, k => AT_ONCE)) + [seq(j, i => AT_ONCE)], 0)
  }

  lemma {:induction false} NoneOld(times: seq<int>)
    requires forall i | 0 <= i < |times| :: times[i] == 0
    ensures Recent(times, -HOUR) == times
  {
    if times != [] {
      var n := |times| - 1;
      NoneOld(times[..n]);
      assert times == times[..n] + [times[n]];
    }
  }

  lemma FillsUp(processes: nat, j: nat)
    requires j < HOURLY_CEILING
    ensures Can(Filled(processes, j), Attempt(AT_ONCE))
    ensures Do(Filled(processes, j), Attempt(AT_ONCE)) == Filled(processes, j + 1)
  {
    var p := Filled(processes, j);
    NoneOld(p.sentAt);
    assert p.sentAt + [0] == Filled(processes, j + 1).sentAt;
    assert p.logs[processes] + [AT_ONCE] == seq(j + 1, i => AT_ONCE);
    assert p.logs[processes := seq(j + 1, i => AT_ONCE)] == Filled(processes, j + 1).logs;
  }

  lemma StartsAfresh(processes: nat)
    ensures Do(Filled(processes, HOURLY_CEILING), Restart) == Filled(processes + 1, 0)
  {
    var full := seq(HOURLY_CEILING, k => AT_ONCE);
    assert seq(processes, i => full) + [full] == seq(processes + 1, i => full);
    assert seq(0, i => AT_ONCE) == [] && seq(0, i => 0) == [];
    var p := Filled(processes, HOURLY_CEILING);
    assert Do(p, Restart).logs == seq(processes + 1, i => full) + [[]];
  }

  lemma {:induction false} RunOn(p: Panel, steps: seq<Step>, step: Step)
    requires Run(p, steps) && Can(After(p, steps), step)
    ensures Run(p, steps + [step]) && After(p, steps + [step]) == Do(After(p, steps), step)
    decreases |steps|
  {
    if steps == [] {
      assert steps + [step] == [step] && [step][1..] == [];
    } else {
      assert (steps + [step])[1..] == steps[1..] + [step];
      RunOn(Do(p, steps[0]), steps[1..], step);
    }
  }

  lemma {:induction false} Fills(processes: nat, j: nat) returns (steps: seq<Step>)
    requires j <= HOURLY_CEILING
    ensures Run(NEW, steps) && After(NEW, steps) == Filled(processes, j)
    decreases processes, j
  {
    if j > 0 {
      var before := Fills(processes, j - 1);
      FillsUp(processes, j - 1);
      hide Do, Filled, Run, After;
      RunOn(NEW, before, Attempt(AT_ONCE));
      steps := before + [Attempt(AT_ONCE)];
    } else if processes > 0 {
      var before := Fills(processes - 1, HOURLY_CEILING);
      StartsAfresh(processes - 1);
      hide Do, Run, After;
      RunOn(NEW, before, Restart);
      steps := before + [Restart];
    } else {
      steps := [];
      assert seq(0, i => AT_ONCE) == [] && seq(0, i => 0) == [];
      assert Filled(0, 0) == NEW;
    }
  }

  lemma {:induction false} AllSent(processes: nat)
    ensures var logs := seq(processes, i => seq(HOURLY_CEILING, k => AT_ONCE));
            Sent(logs, 0) == HOURLY_CEILING * processes && Senders(logs, 0) == processes
  {
    if processes > 0 {
      var full := seq(HOURLY_CEILING, k => AT_ONCE);
      var logs := seq(processes, i => full);
      assert logs[..processes - 1] == seq(processes - 1, i => full);
      AllSent(processes - 1);
      SizeOfWindow(full);
    }
  }

  lemma {:induction false} SizeOfWindow(log: seq<Try>)
    requires forall i | 0 <= i < |log| :: log[i] == AT_ONCE
    ensures |InWindow(log, 0)| == |log|
  {
    if log == [] {
      assert InWindow(log, 0) == {};
    } else {
      var n := |log| - 1;
      SizeOfWindow(log[..n]);
      assert InWindow(log, 0) == InWindow(log[..n], 0) + {n};
    }
  }

  // And that many there can be: a restart starts afresh, within the hour or not.
  lemma SixtyEachIsReached(processes: nat) returns (steps: seq<Step>)
    requires processes > 0
    ensures Run(NEW, steps)
    ensures var logs := After(NEW, steps).logs;
            Senders(logs, 0) == processes && Sent(logs, 0) == HOURLY_CEILING * processes
  {
    steps := Fills(processes - 1, HOURLY_CEILING);
    var full := seq(HOURLY_CEILING, k => AT_ONCE);
    assert seq(processes - 1, i => full) + [full] == seq(processes, i => full);
    AllSent(processes);
  }

  // ---- the sending of one message to a list of addresses

  predicate Distinct(s: seq<string>) {
    forall i, j | 0 <= i < j < |s| :: s[i] != s[j]
  }

  lemma OneProcess(sentAt: seq<int>, log: seq<Try>, clock: int, t: Try)
    requires InOrder(t, clock)
    ensures var kept := Recent(sentAt, t.check - HOUR);
            Do(Panel(sentAt, [log], clock), Attempt(t)) ==
            if |kept| < HOURLY_CEILING && t.taken then Panel(kept + [t.noted], [log + [t]], t.noted)
            else Panel(kept, [log], t.noted)
  {
  }

  lemma OnceMore(to: seq<string>, i: nat, handed: seq<string>)
    requires Distinct(to) && i < |to| && Distinct(handed) && forall a | a in handed :: a in to[..i]
    ensures Distinct(handed + [to[i]])
    ensures forall a | a in handed + [to[i]] :: a in to[..i + 1]
  {
    assert to[i] !in to[..i] && to[..i + 1] == to[..i] + [to[i]];
  }

  // The messages of the hour before, told by the history.
  ghost function InTheHour(log: seq<Try>, check: int): set<nat> {
    set k | 0 <= k < |log| && log[k].noted > check - 3600
  }

  // One attempt after another: an address is handed its message exactly if fewer than sixty were in the hour before
  // and the mail system takes it.
  ghost function HandedOf(log: seq<Try>, to: seq<string>, tries: seq<Try>): (seq<Try>, seq<string>)
    requires |tries| == |to|
  {
    if to == [] then (log, []) else
      var n := |to| - 1;
      var (before, handed) := HandedOf(log, to[..n], tries[..n]);
      if tries[n].taken && |InTheHour(before, tries[n].check)| < 60
      then (before + [tries[n]], handed + [to[n]]) else (before, handed)
  }

  lemma RecentAreInTheHour(log: seq<Try>, sentAt: seq<int>, clock: int, check: int)
    requires Holds(log, sentAt, clock) && clock <= check
    ensures |Recent(sentAt, check - HOUR)| == |InTheHour(log, check)|
  {
    PruningHolds(log, sentAt, clock, check);
    var kept := Recent(sentAt, check - HOUR);
    RecentIsRecent(sentAt, check - HOUR);
    var gone := |log| - |kept|;
    hide Spaced, Running, Recent;
    forall k: nat | gone <= k < |log| ensures log[k].noted > check - HOUR {
      assert kept[k - gone] == Noted(log)[k];
    }
    RangeSize(InTheHour(log, check), gone, |log|);
  }

  lemma {:induction false} RecentIsRecent(times: seq<int>, cutoff: int)
    ensures forall i | 0 <= i < |Recent(times, cutoff)| :: Recent(times, cutoff)[i] > cutoff
  {
    if times != [] {
      RecentIsRecent(times[..|times| - 1], cutoff);
    }
  }

  lemma {:induction false} RangeSize(s: set<nat>, lo: nat, hi: nat)
    requires lo <= hi && forall k: nat :: k in s <==> lo <= k < hi
    ensures |s| == hi - lo
    decreases hi
  {
    if lo == hi {
      assert s == {};
    } else {
      RangeSize(s - {hi - 1}, lo, hi - 1);
      assert s == (s - {hi - 1}) + {hi - 1};
    }
  }

  lemma NoneHanded(log: seq<Try>, to: seq<string>, tries: seq<Try>)
    requires |tries| == |to|
    ensures HandedOf(log, to[..0], tries[..0]) == (log, []) && Distinct([])
  {
  }

  lemma HandedNext(log: seq<Try>, to: seq<string>, tries: seq<Try>, i: nat)
    requires |tries| == |to| && i < |to|
    ensures var (before, handed) := HandedOf(log, to[..i], tries[..i]);
            HandedOf(log, to[..i + 1], tries[..i + 1]) ==
            if tries[i].taken && |InTheHour(before, tries[i].check)| < 60
            then (before + [tries[i]], handed + [to[i]]) else (before, handed)
  {
    assert to[..i + 1][..i] == to[..i] && tries[..i + 1][..i] == tries[..i];
    hide InTheHour;
  }

  class Sender {
    var sentAt: seq<int>
    // The history: the messages handed over, and how far the clock has run.
    ghost var log: seq<Try>
    ghost var clock: int

    ghost predicate Valid()
      reads this
    {
      Holds(log, sentAt, clock)
    }

    constructor ()
      ensures Valid() && log == []
    {
      sentAt, log, clock := [], [], 0;
    }

    method UnderCeiling(t: Try) returns (ok: bool)
      requires Valid() && InOrder(t, clock)
      modifies this
      ensures Valid() && clock == t.check && log == old(log)
      ensures sentAt == Recent(old(sentAt), t.check - HOUR) && ok == (|sentAt| < HOURLY_CEILING)
      ensures ok ==> Holds(log + [t], sentAt + [t.noted], t.noted)
    {
      PruningHolds(log, sentAt, clock, t.check);
      hide Holds;
      var keep: seq<int> := [];
      for i := 0 to |sentAt|
        invariant keep == Recent(sentAt[..i], t.check - HOUR)
      {
        assert sentAt[..i + 1][..i] == sentAt[..i];
        if sentAt[i] > t.check - HOUR {
          keep := keep + [sentAt[i]];
        }
      }
      assert sentAt[..|sentAt|] == sentAt;
      sentAt, clock := keep, t.check;
      ok := |sentAt| < HOURLY_CEILING;
      if ok {
        OneMoreHolds(log, sentAt, t);
      }
    }

    method Attempt(t: Try) returns (handed: bool)
      requires Valid() && InOrder(t, clock)
      modifies this
      ensures Valid() && clock == t.noted
      ensures Panel(sentAt, [log], clock) == Do(old(Panel(sentAt, [log], clock)), Step.Attempt(t))
      ensures log == old(log) + if handed then [t] else []
      ensures handed <==> t.taken && |InTheHour(old(log), t.check)| < 60
    {
      RecentAreInTheHour(log, sentAt, clock, t.check);
      OneProcess(sentAt, log, clock, t);
      hide Holds, Recent, Do;
      handed := UnderCeiling(t);
      handed := handed && t.taken;
      if handed {
        sentAt := sentAt + [t.noted];
        log := log + [t];
      } else {
        Later(log, sentAt, clock, t.noted);
      }
      clock := t.noted;
    }

    // Each address once: held back under the ceiling, refused by the mail system, or handed over and noted.
    method Deliver(to: seq<string>, tries: seq<Try>) returns (handed: seq<string>)
      requires Valid() && |tries| == |to| && AllInOrder(tries, clock) && Distinct(to)
      modifies this
      ensures Valid() && clock == if to == [] then old(clock) else tries[|tries| - 1].noted
      ensures Distinct(handed) && forall a | a in handed :: a in to
      ensures (log, handed) == HandedOf(old(log), to, tries)
      ensures |log| == |old(log)| + |handed| && old(log) <= log
    {
      hide Holds, Do, Distinct, HandedOf, InTheHour;
      NoneHanded(log, to, tries);
      handed := [];
      for i := 0 to |to|
        invariant Valid() && clock == if i == 0 then old(clock) else tries[i - 1].noted
        invariant Distinct(handed) && forall a | a in handed :: a in to[..i]
        invariant |log| == |old(log)| + |handed| && old(log) <= log
        invariant (log, handed) == HandedOf(old(log), to[..i], tries[..i])
      {
        OnceMore(to, i, handed);
        assert InOrder(tries[i], if i == 0 then old(clock) else tries[i - 1].noted);
        HandedNext(old(log), to, tries, i);
        ghost var was := log;
        var ok := Attempt(tries[i]);
        assert ok <==> tries[i].taken && |InTheHour(was, tries[i].check)| < 60;
        assert log == if ok then was + [tries[i]] else was;
        if ok {
          handed := handed + [to[i]];
        }
      }
      assert to[..|to|] == to && tries[..|tries|] == tries;
    }
  }

  lemma Later(log: seq<Try>, sentAt: seq<int>, clock: int, later: int)
    requires clock <= later
    ensures Holds(log, sentAt, clock) ==> Holds(log, sentAt, later)
  {
  }
}
