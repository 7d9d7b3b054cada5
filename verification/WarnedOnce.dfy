/**
 Which lines the deferred counter counts, told by the lines read alone: a warning of smtpd's once for each
 connection, a warning of cleanup's each time.
 */
module WarnedOnce {
  import opened Wrappers
  import opened Strings
  import C = DeferredCounter

  predicate Warns(step: C.Step, pid: string) {
    step.Line? && step.e.kind == C.Refused(pid)
  }

  predicate Connects(step: C.Step, pid: string) {
    step.Line? && step.e.kind == C.Connect(pid)
  }

  // The process has warned since it was last forgotten.
  ghost predicate Warned(steps: seq<C.Step>, pid: string)
    decreases |steps|, 0
  {
    exists i | 0 <= i < |steps| ::
      Warns(steps[i], pid) && forall j | i < j < |steps| :: !Forgets(steps[..j], steps[j], pid)
  }

  // It is forgotten at its next connection, at a start, and when one more process warns while 1024 are remembered.
  ghost predicate Forgets(before: seq<C.Step>, step: C.Step, pid: string)
    decreases |before|, 3
  {
    || step.Crash?
    || Connects(step, pid)
    || (step.Line? && step.e.kind.Refused? && Full(before) && !Warned(before, step.e.kind.pid))
  }

  function Pids(steps: seq<C.Step>): set<string> {
    set i | 0 <= i < |steps| && steps[i].Line? && steps[i].e.kind.Refused? :: steps[i].e.kind.pid
  }

  ghost function StillWarned(steps: seq<C.Step>): set<string>
    decreases |steps|, 1
  {
    set pid | pid in Pids(steps) && Warned(steps, pid)
  }

  ghost predicate Full(steps: seq<C.Step>)
    decreases |steps|, 2
  {
    |StillWarned(steps)| >= 1024
  }

  lemma WarnedSnoc(steps: seq<C.Step>, step: C.Step, pid: string)
    ensures Warned(steps + [step], pid) <==>
            Warns(step, pid) || (Warned(steps, pid) && !Forgets(steps, step, pid))
  {
    var all, n := steps + [step], |steps|;
    assert all[..n] == steps;
    forall j: nat | j < n ensures all[..j] == steps[..j] && all[j] == steps[j] {
    }
    hide Forgets, Warns;
    if i :| 0 <= i < n && Warns(steps[i], pid) && forall j | i < j < n :: !Forgets(steps[..j], steps[j], pid) {
      if !Forgets(steps, step, pid) {
        assert Warns(all[i], pid);
        assert forall j | i < j < |all| :: !Forgets(all[..j], all[j], pid);
      }
    }
    if Warns(step, pid) {
      assert Warns(all[n], pid);
    }
  }

  lemma WarnedIsRead(steps: seq<C.Step>, pid: string)
    requires Warned(steps, pid)
    ensures pid in Pids(steps)
  {
  }

  lemma {:induction false} EndSnoc(w: C.World, steps: seq<C.Step>, step: C.Step)
    ensures C.End(w, steps + [step]) == C.Do(C.End(w, steps), step)
    decreases |steps|
  {
    if steps == [] {
      assert steps + [step] == [step] && [step][1..] == [];
    } else {
      assert (steps + [step])[1..] == steps[1..] + [step];
      EndSnoc(C.Do(w, steps[0]), steps[1..], step);
    }
  }

  // The processes remembered are those that have warned and were not forgotten.
  lemma {:induction false} FailedAreWarned(steps: seq<C.Step>)
    ensures forall pid :: pid in C.End(C.FRESH, steps).mem.failed <==> Warned(steps, pid)
  {
    if steps != [] {
      var n := |steps| - 1;
      var before, step := steps[..n], steps[n];
      FailedAreWarned(before);
      assert steps == before + [step];
      EndSnoc(C.FRESH, before, step);
      FullIs(before);
      forall pid ensures pid in C.Do(C.End(C.FRESH, before), step).mem.failed <==> Warned(steps, pid) {
        WarnedSnoc(before, step, pid);
        StepForgets(C.End(C.FRESH, before), before, step, pid);
        hide *;
      }
    }
  }

  lemma StepForgets(w: C.World, before: seq<C.Step>, step: C.Step, pid: string)
    requires forall q :: q in w.mem.failed <==> Warned(before, q)
    requires Full(before) <==> |w.mem.failed| >= 1024
    ensures pid in C.Do(w, step).mem.failed <==>
            Warns(step, pid) || (Warned(before, pid) && !Forgets(before, step, pid))
  {
    hide Warned, Full, C.Counts, C.Added, C.ParsePlace;
  }

  lemma FullIs(steps: seq<C.Step>)
    requires forall pid :: pid in C.End(C.FRESH, steps).mem.failed <==> Warned(steps, pid)
    ensures Full(steps) <==> |C.End(C.FRESH, steps).mem.failed| >= 1024
  {
    forall pid | Warned(steps, pid) ensures pid in Pids(steps) {
      WarnedIsRead(steps, pid);
    }
    assert C.End(C.FRESH, steps).mem.failed == StillWarned(steps) by {
      hide Warned, Pids, C.End;
    }
    hide Warned, StillWarned, C.End;
  }

  // The place and the latest time of the lines counted are what the memory holds, across starts.
  ghost predicate Remembers(w: C.World) {
    var (tally, m) := (w.store.tally, w.mem);
    && C.Mirrors(w)
    && (tally == [] ==> m.last.None? && m.counted == C.ParsePlace(""))
    && (tally != [] ==>
          && m.counted == tally[|tally| - 1].place && m.last.Some?
          && (exists x :: x in tally && x.at == m.last.value)
          && forall x | x in tally :: x.at <= m.last.value)
  }

  lemma StepRemembers(w: C.World, step: C.Step)
    requires Remembers(w)
    ensures Remembers(C.Do(w, step))
  {
    C.StepMirrors(w, step);
    hide C.ParsePlace, C.Show, C.Remembered;
    if step.Line? && C.Counts(w.mem, step.e) {
      assert C.Do(w, step).store.tally == w.store.tally + [step.e];
    }
  }

  lemma {:induction false} RunRemembers(steps: seq<C.Step>)
    ensures Remembers(C.End(C.FRESH, steps))
  {
    if steps != [] {
      var n := |steps| - 1;
      RunRemembers(steps[..n]);
      assert steps == steps[..n] + [steps[n]];
      EndSnoc(C.FRESH, steps[..n], steps[n]);
      StepRemembers(C.End(C.FRESH, steps[..n]), steps[n]);
    }
  }

  // A line read again, at a start: past the place of the last line counted, in its file; else later than all counted.
  ghost predicate NotBefore(tally: seq<C.Event>, e: C.Event) {
    if tally != [] && e.place.fp != "" && e.place.fp == tally[|tally| - 1].place.fp
    then e.place.end > tally[|tally| - 1].place.end
    else forall x | x in tally :: x.at < e.at
  }

  // Whatever the lines read and the starts: a line counts if and only if it is a warning of cleanup's, or one of
  // smtpd's of a process that has not warned since it was last forgotten; and, while the panel catches up, not before
  // the lines counted already.
  lemma CountedExactly(steps: seq<C.Step>, e: C.Event)
    ensures var w := C.End(C.FRESH, steps);
            var counts := (e.kind.Broken? || (e.kind.Refused? && !Warned(steps, e.kind.pid)))
                          && (e.catchingUp ==> NotBefore(w.store.tally, e));
            C.End(C.FRESH, steps + [C.Line(e)]).store.tally == w.store.tally + if counts then [e] else []
  {
    FailedAreWarned(steps);
    RunRemembers(steps);
    EndSnoc(C.FRESH, steps, C.Line(e));
    var w := C.End(C.FRESH, steps);
    assert C.ParsePlace("").fp == "";
    assert w.store.tally + [] == w.store.tally;
    hide C.End, Warned, C.Mirrors, C.ParsePlace, C.Show, C.Remembered;
  }

  // So a connection of a process counts once however many warnings it draws, as long as no start and no more than 1024
  // processes at a time come between.
  lemma EachConnectionOnce(before: seq<C.Step>, c: C.Step, during: seq<C.Step>, e: C.Event)
    requires e.kind.Refused? && !e.catchingUp && Connects(c, e.kind.pid)
    requires forall j | 0 <= j < |during| ::
               !Forgets(before + [c] + during[..j], during[j], e.kind.pid)
    ensures var steps := before + [c] + during;
            C.End(C.FRESH, steps + [C.Line(e)]).store.tally ==
            C.End(C.FRESH, steps).store.tally +
            if exists j | 0 <= j < |during| :: Warns(during[j], e.kind.pid) then [] else [e]
  {
    CountedExactly(before + [c] + during, e);
    WarnedSince(before, c, during, e.kind.pid);
  }

  lemma {:induction false} WarnedSince(before: seq<C.Step>, c: C.Step, during: seq<C.Step>, pid: string)
    requires Connects(c, pid)
    requires forall j | 0 <= j < |during| :: !Forgets(before + [c] + during[..j], during[j], pid)
    ensures Warned(before + [c] + during, pid) <==> exists j | 0 <= j < |during| :: Warns(during[j], pid)
    decreases |during|
  {
    if during == [] {
      WarnedSnoc(before, c, pid);
      assert before + [c] + during == before + [c];
    } else {
      var n := |during| - 1;
      forall j | 0 <= j < n ensures during[..n][..j] == during[..j] {
      }
      WarnedSince(before, c, during[..n], pid);
      WarnedSnoc(before + [c] + during[..n], during[n], pid);
      assert before + [c] + during == before + [c] + during[..n] + [during[n]];
    }
  }
}
