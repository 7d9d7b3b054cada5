/**
 The deferred counter behind the tailer, within one log: from any count in it on, each warning of cleanup's that the
 tailer reads is counted once.
 */
module CountedOnce {
  import opened Wrappers
  import opened LogLines
  import opened LogPlace
  import F = Follow
  import N = NoLineLost
  import C = DeferredCounter
  import opened CountedTailer

  // ---- what of the log was read, over every run

  // A line was read, as what it is.
  ghost predicate WasRead(log: Log, read: seq<C.Event>, l: F.Line) {
    exists e :: e in read && e.file == l.file && e.place.end == l.end && e.kind == log.kind(l)
  }

  ghost predicate AllSeen(log: Log, b: Both) {
    && (forall l | l in b.w.done :: WasRead(log, b.c.read, l))
    && (b.w.tail.Up? ==> forall l | l in b.w.tail.unflushed :: WasRead(log, b.c.read, l))
  }

  // Nothing was read past the end of its file; nor, before the first place is saved, past where the reading stands.
  predicate Inside(w: F.World, file: nat, end: nat) {
    && file < |w.files| && end <= |w.files[file]|
    && (w.stored.None? && w.tail.Up? && file == w.tail.cur ==> end <= w.tail.at)
  }

  ghost predicate Within(b: Both) {
    forall e | e in b.c.read :: Inside(b.w, e.file, e.place.end)
  }

  // Of a file the lines owed before one that was read were read too.
  ghost predicate NoGaps(log: Log, b: Both) {
    forall e, l | e in b.c.read && N.Owed(b.w, l) && l.file == e.file && l.end <= e.place.end ::
      WasRead(log, b.c.read, l)
  }

  ghost predicate Known(log: Log, b: Both) {
    Ordered(log, b) && N.Inv(b.w) && Within(b) && AllSeen(log, b) && NoGaps(log, b)
  }

  // A file read under its fingerprint is long enough for it, and the tailer knows it by that while it reads on.
  predicate NamedFile(w: F.World, file: nat) {
    && file < |w.files| && |w.files[file]| >= FINGERPRINT_SIZE
    && (w.tail.Up? && file == w.tail.cur ==> w.tail.adopted && w.tail.track.fp.Some?)
    && (w.tail.Up? && w.tail.rotated.Some? && file == w.tail.rotated.value.file ==> w.tail.rotated.value.fp.Some?)
  }

  predicate NamedOld(w: F.World) {
    w.tail.Up? && w.tail.rotated.Some? && w.tail.rotated.value.fp.Some? ==>
      w.tail.rotated.value.file < |w.files| && |w.files[w.tail.rotated.value.file]| >= FINGERPRINT_SIZE
  }

  ghost predicate Named(b: Both) {
    NamedOld(b.w) && forall e | e in b.c.read && e.place.fp != "" :: NamedFile(b.w, e.file)
  }

  // The lines handed over by a step.
  lemma ReadExactly(log: Log, b: Both, step: F.Step)
    requires Can(b, Tail(step))
    ensures Do(log, b, Tail(step)).c.read == b.c.read + Events(log, b, step)
  {
    if step.Stop? || step.Crash? {
      assert [C.Crash][1..] == [];
      assert b.c.read + [] == b.c.read;
    } else {
      ReadAfter(b.c, Events(log, b, step));
    }
  }

  lemma MissedSeen(log: Log, file: nat, fp: Fingerprint, spans: seq<Span>, x: Span)
    requires x in spans
    ensures WasRead(log, AllMissed(log, file, fp, spans), F.Line(file, x.start, x.end))
  {
    var i :| 0 <= i < |spans| && spans[i] == x;
    assert AllMissed(log, file, fp, spans)[i] in AllMissed(log, file, fp, spans);
  }

  lemma StaysRead(log: Log, read: seq<C.Event>, more: seq<C.Event>, l: F.Line)
    ensures WasRead(log, read, l) || WasRead(log, more, l) ==> WasRead(log, read + more, l)
  {
  }

  lemma SeenKept(log: Log, b: Both, step: F.Step)
    requires AllSeen(log, b) && Can(b, Tail(step))
    ensures AllSeen(log, Do(log, b, Tail(step)))
  {
    var b', es := Do(log, b, Tail(step)), Events(log, b, step);
    ReadExactly(log, b, step);
    forall l | l in b'.w.done || (b'.w.tail.Up? && l in b'.w.tail.unflushed) ensures WasRead(log, b'.c.read, l) {
      StaysRead(log, b.c.read, es, l);
      if l !in b.w.done && !(b.w.tail.Up? && l in b.w.tail.unflushed) {
        NewlyDone(log, b, step, l);
      }
    }
  }

  lemma NewlyDone(log: Log, b: Both, step: F.Step, l: F.Line)
    requires F.Can(b.w, step) && l !in b.w.done && !(b.w.tail.Up? && l in b.w.tail.unflushed)
    requires var w' := F.Do(b.w, step); l in w'.done || (w'.tail.Up? && l in w'.tail.unflushed)
    ensures WasRead(log, Events(log, b, step), l)
  {
    var es := Events(log, b, step);
    if step.Start? {
      var missed := F.MissedAt(b.w).value;
      var file := F.Log(b.w) - 1;
      var x :| x in missed && l == F.Line(file, x.start, x.end);
      MissedSeen(log, file, FingerprintOf(F.FileAt(b.w, file)), missed, x);
    } else {
      assert step.Read? || step.ReadOld?;
      assert es[0] in es;
    }
  }

  lemma WithinKept(log: Log, b: Both, step: F.Step)
    requires Ordered(log, b) && Within(b) && Can(b, Tail(step))
    ensures Within(Do(log, b, Tail(step)))
  {
    var b', es := Do(log, b, Tail(step)), Events(log, b, step);
    ReadExactly(log, b, step);
    assert b'.w == F.Do(b.w, step);
    hide Do;
    forall e | e in b'.c.read ensures Inside(b'.w, e.file, e.place.end) {
      if e in b.c.read {
        assert step.Switch? ==> e.file != F.Log(b.w);
        StaysInside(b.w, step, e.file, e.place.end);
      } else {
        NewInside(log, b, step, e);
      }
    }
  }

  lemma StaysInside(w: F.World, step: F.Step, file: nat, end: nat)
    requires N.Sound(w) && Inside(w, file, end) && F.Can(w, step) && (step.Switch? ==> file != F.Log(w))
    ensures Inside(F.Do(w, step), file, end)
  {
    hide F.Held, Last, ToTheEnd;
  }

  lemma NewInside(log: Log, b: Both, step: F.Step, e: C.Event)
    requires Ordered(log, b) && Can(b, Tail(step)) && e in Events(log, b, step)
    ensures Inside(F.Do(b.w, step), e.file, e.place.end)
  {
    if step.Start? {
      EndsWithin(b.w.files[F.Log(b.w) - 1], b.w.stored.value.offset);
    }
    hide Last, ToTheEnd, C.Decimal;
  }

  lemma {:induction false} EndsWithin(text: string, from: nat)
    requires from <= |text|
    ensures forall i | 0 <= i < |ToTheEnd(text, from)| ::
              from <= ToTheEnd(text, from)[i].start < ToTheEnd(text, from)[i].end <= |text|
    decreases |text| - from
  {
    if LineEnd(text, from).Some? {
      EndsWithin(text, LineEnd(text, from).value);
    }
  }

  // A line owed that was read before, of a file read on by this step.
  lemma NoGapsBefore(log: Log, b: Both, step: F.Step, e: C.Event, l: F.Line)
    requires Known(log, b) && Can(b, Tail(step)) && e in b.c.read
    requires N.Owed(F.Do(b.w, step), l) && l.file == e.file && l.end <= e.place.end
    ensures WasRead(log, b.c.read, l)
  {
    if step.Append? {
      WasALine(b.w, step.file, step.more, l);
    }
    if b.w.origin.None? {
      assert step.Adopt? || step.Record? || step.Stop?;
      FirstSave(log, b, step, e, l);
    }
    hide F.Held, Last, Complete, N.Reading, N.Recoverable;
  }

  // Within what was written before, the lines are those of then.
  lemma WasALine(w: F.World, file: nat, more: string, l: F.Line)
    requires file < |w.files| && l.file < |w.files| && l.end <= |w.files[l.file]|
    requires N.IsLine(w.files[file := w.files[file] + more], l)
    ensures N.IsLine(w.files, l)
  {
    if l.file == file {
      NewLine(w.files[file], more, l.start, l.end);
    }
  }

  lemma FirstSave(log: Log, b: Both, step: F.Step, e: C.Event, l: F.Line)
    requires Known(log, b) && Can(b, Tail(step)) && e in b.c.read && b.w.stored.None?
    requires step.Adopt? || step.Record? || step.Stop?
    requires N.Owed(F.Do(b.w, step), l) && l.file == e.file && l.end <= e.place.end
    ensures WasRead(log, b.c.read, l)
  {
    N.HeldIs(b.w.tail.waits, b.w.tail.track.fp);
    hide F.Held, Last, NoGaps, N.Reading, N.Recoverable, Events;
    if step.Adopt? {
      assert false;
    } else {
      assert l in b.w.done;
    }
  }

  // A line owed, up to one this step hands over, of the same file.
  lemma NoGapsNow(log: Log, b: Both, step: F.Step, e: C.Event, l: F.Line)
    requires Known(log, b) && Can(b, Tail(step)) && e in Events(log, b, step)
    requires N.Owed(b.w, l) && l.file == e.file && l.end <= e.place.end
    ensures WasRead(log, b.c.read, l) || WasRead(log, Events(log, b, step), l)
  {
    if step.Start? {
      MissedNow(log, b, step, e, l);
    } else {
      var at := if step.Read? then b.w.tail.at else b.w.tail.rotated.value.at;
      assert Events(log, b, step) == [e];
      if l.start >= at {
        NextLine(b.w.files[l.file], at, l.start, l.end);
      }
      hide NoGaps, Within, N.Recoverable, Complete, Last, C.Decimal;
    }
  }

  lemma MissedNow(log: Log, b: Both, step: F.Step, e: C.Event, l: F.Line)
    requires Known(log, b) && step.Start? && Can(b, Tail(step)) && e in Events(log, b, step)
    requires N.Owed(b.w, l) && l.file == e.file
    ensures WasRead(log, b.c.read, l) || WasRead(log, Events(log, b, step), l)
  {
    var file, from := F.Log(b.w) - 1, b.w.stored.value.offset;
    if l.start >= from {
      var text := b.w.files[file];
      LinesCover(text, from, l.start, l.end);
      EndCovers(text, from);
      MissedSeen(log, file, FingerprintOf(F.FileAt(b.w, file)), ToTheEnd(text, from), Span(l.start, l.end));
      hide NoGaps, Within, AllSeen, N.Reading, N.Recoverable, ToTheEnd, Lines, C.Decimal;
    } else {
      hide NoGaps, Within, N.Reading, ToTheEnd, C.Decimal;
      assert l in b.w.done;
    }
  }

  lemma NoGapsKept(log: Log, b: Both, step: F.Step)
    requires Known(log, b) && Can(b, Tail(step))
    ensures NoGaps(log, Do(log, b, Tail(step)))
  {
    var b', es := Do(log, b, Tail(step)), Events(log, b, step);
    ReadExactly(log, b, step);
    assert b'.w == F.Do(b.w, step);
    hide Do;
    forall e, l | e in b'.c.read && N.Owed(b'.w, l) && l.file == e.file && l.end <= e.place.end
      ensures WasRead(log, b'.c.read, l)
    {
      StaysRead(log, b.c.read, es, l);
      if e in b.c.read {
        NoGapsBefore(log, b, step, e, l);
      } else {
        assert N.Owed(b.w, l) by {
          assert step.Start? || step.Read? || step.ReadOld?;
        }
        NoGapsNow(log, b, step, e, l);
      }
    }
  }

  lemma StepKnown(log: Log, b: Both, step: Step)
    requires Known(log, b) && Can(b, step)
    ensures Known(log, Do(log, b, step))
  {
    StepKeepsOrder(log, b, step);
    if step.Tail? {
      N.StepKeeps(b.w, step.step);
      SeenKept(log, b, step.step);
      WithinKept(log, b, step.step);
      NoGapsKept(log, b, step.step);
      hide Ordered, N.Inv, Within, AllSeen, NoGaps;
    }
  }

  lemma NamedKept(log: Log, b: Both, step: F.Step)
    requires Ordered(log, b) && Named(b) && Can(b, Tail(step))
    ensures Named(Do(log, b, Tail(step)))
  {
    var b', es := Do(log, b, Tail(step)), Events(log, b, step);
    ReadExactly(log, b, step);
    assert b'.w == F.Do(b.w, step);
    hide Do;
    OldNamed(b.w, step);
    forall e | e in b'.c.read && e.place.fp != "" ensures NamedFile(b'.w, e.file) {
      if e in b.c.read {
        assert step.Switch? ==> e.file != F.Log(b.w);
        NamedStays(b.w, step, e.file);
      } else {
        NewlyNamed(log, b, step, e);
      }
    }
  }

  lemma OldNamed(w: F.World, step: F.Step)
    requires N.Sound(w) && NamedOld(w) && F.Can(w, step)
    ensures NamedOld(F.Do(w, step))
  {
    hide F.Held, Last, LineEnd, ToTheEnd;
  }

  lemma NamedStays(w: F.World, step: F.Step, file: nat)
    requires N.Sound(w) && NamedFile(w, file) && F.Can(w, step) && (step.Switch? ==> file != F.Log(w))
    ensures NamedFile(F.Do(w, step), file)
  {
    hide F.Held, Last, LineEnd, ToTheEnd;
  }

  lemma NewlyNamed(log: Log, b: Both, step: F.Step, e: C.Event)
    requires Ordered(log, b) && NamedOld(b.w) && Can(b, Tail(step)) && e in Events(log, b, step) && e.place.fp != ""
    ensures NamedFile(F.Do(b.w, step), e.file)
  {
    hide Last, LineEnd, ToTheEnd, C.Decimal;
  }

  // The counter is told one name of a file once it is told any.
  lemma NamesStay(log: Log, b: Both, step: F.Step)
    requires Ordered(log, b) && Named(b) && Can(b, Tail(step))
    ensures C.NamesStay(b.c, CounterSteps(log, b, step))
  {
    if step.Stop? || step.Crash? {
      assert [C.Crash][1..] == [];
    } else {
      EventsAreTagged(log, b, step);
      var es := Events(log, b, step);
      forall e | e in es ensures C.NameStays(b.c.read, e) && forall e' | e' in es :: e'.place.fp == e.place.fp {
        hide LineEnd, C.Decimal, ToTheEnd, Last;
      }
      OneName(b.c, es);
    }
  }

  lemma {:induction false} OneName(c: C.World, es: seq<C.Event>)
    requires forall e | e in es :: C.NameStays(c.read, e)
    requires forall e, e' | e in es && e' in es :: e'.place.fp == e.place.fp
    ensures C.NamesStay(c, LineSteps(es))
    decreases |es|
  {
    if es != [] {
      var c' := C.Do(c, C.Line(es[0]));
      assert es[0] in es && c'.read == c.read + [es[0]];
      assert LineSteps(es)[1..] == LineSteps(es[1..]);
      forall e | e in es[1..] ensures e in es && C.NameStays(c'.read, e) {
        assert C.NameStays(c.read, e);
      }
      hide C.Do;
      OneName(c', es[1..]);
    }
  }

  // ---- a stretch in which one log is read

  // The step reads the log of that number if any, line by line, under its fingerprint: as the log, late after its
  // renaming, or, at a start, what was not read of it before it was renamed.
  predicate OnLog(b: Both, step: Step, file: nat)
    requires Can(b, step)
  {
    var t := b.w.tail;
    step.Tail? ==>
      match step.step
      case Start(_, _) =>
        var missed := F.MissedAt(b.w);
        missed.None? || missed.value == [] ||
        (&& file == F.Log(b.w) - 1
         && Boundary(b.w.files[file], b.w.stored.value.offset) && Boundary(b.w.files[file], |b.w.files[file]|))
      case Read(_) => t.cur == file && t.track.fp == Some(file) && Boundary(b.w.files[file], t.at)
      case ReadOld(_) =>
        && t.rotated.value.file == file && t.rotated.value.fp == Some(file)
        && Boundary(b.w.files[file], t.rotated.value.at)
      case _ => true
  }

  predicate OnLogRun(log: Log, b: Both, steps: seq<Step>, file: nat)
    requires Run(log, b, steps)
    decreases |steps|
  {
    steps == [] || (OnLog(b, steps[0], file) && OnLogRun(log, Do(log, b, steps[0]), steps[1..], file))
  }

  // A line ends there, in a file places were saved of up to there or before.
  predicate Past(w: F.World, file: nat, base: nat) {
    && file < |w.files| && Boundary(w.files[file], base)
    && w.origin.Some? && (w.origin.value.file < file || (w.origin.value.file == file && w.origin.value.at <= base))
  }

  lemma PastStays(w: F.World, step: F.Step, file: nat, base: nat)
    requires F.Can(w, step) && Past(w, file, base)
    ensures Past(F.Do(w, step), file, base)
  {
    if step.Append? && step.file == file {
      BoundaryStays(w.files[file], step.more, base);
    }
    hide Boundary, F.Held, LineEnd, ToTheEnd;
  }

  // A line past the first count was read before, or nothing past it was.
  lemma ReadOrNew(log: Log, b: Both, file: nat, base: nat, l: F.Line)
    requires Known(log, b) && Past(b.w, file, base) && l.file == file && N.IsLine(b.w.files, l)
    ensures l.end <= base || WasRead(log, b.c.read, l)
            || forall p | p in b.c.read && p.file == file :: p.place.end < l.end
  {
    if l.end > base {
      assert l.start >= base;
      assert N.Owed(b.w, l);
    }
  }

  lemma {:induction false} LinesInOneFile(c: C.World, es: seq<C.Event>, base: nat, file: nat, fp: string)
    requires forall e | e in es ::
      && e.file == file && e.place.fp == fp
      && (e.place.end <= base || (exists p :: p in c.read && C.SameLine(e, p) && p.kind == e.kind)
          || forall p | p in c.read && p.file == file :: p.place.end < e.place.end)
    requires Ascend(es)
    ensures C.OneFile(c, LineSteps(es), base, file, fp)
    decreases |es|
  {
    if es != [] {
      var e := es[0];
      var c' := C.Do(c, C.Line(e));
      assert e in es && c'.read == c.read + [e];
      assert LineSteps(es)[1..] == LineSteps(es[1..]);
      forall x | x in es[1..]
        ensures x in es && e.place.end < x.place.end
        ensures forall p | p in c.read && C.SameLine(x, p) && p.kind == x.kind :: p in c'.read {
        var j :| 0 <= j < |es[1..]| && es[1..][j] == x;
        assert es[j + 1] == x;
      }
      hide C.Do;
      LinesInOneFile(c', es[1..], base, file, fp);
    }
  }

  predicate Ascending(spans: seq<Span>) {
    forall i, j | 0 <= i < j < |spans| :: spans[i].end < spans[j].end
  }

  lemma {:induction false} EndsAscend(text: string, from: nat)
    requires from <= |text|
    ensures Ascending(ToTheEnd(text, from))
    decreases |text| - from
  {
    if LineEnd(text, from).Some? {
      var end := LineEnd(text, from).value;
      EndsAscend(text, end);
      EndsWithin(text, end);
      assert ToTheEnd(text, from) == [Span(from, end)] + ToTheEnd(text, end);
      hide ToTheEnd, LineEnd;
    }
  }

  // To the end of a file that ends with a newline all is whole lines.
  lemma AllWhole(text: string, from: nat)
    requires from <= |text| && Boundary(text, from) && Boundary(text, |text|)
    ensures forall x | x in ToTheEnd(text, from) :: Complete(text, x.start, x.end)
  {
    EndCovers(text, from);
    LinesAreLines(text, from);
    LastUnique(text, |text|);
    EndsWithin(text, from);
  }

  // What a step on the log hands over is read in the order the counter relies on.
  lemma ReadInOrder(log: Log, b: Both, step: F.Step, file: nat, base: nat)
    requires Known(log, b) && Past(b.w, file, base) && Can(b, Tail(step)) && OnLog(b, Tail(step), file)
    ensures C.OneFile(b.c, CounterSteps(log, b, step), base, file, Name(Some(file)))
  {
    if step.Stop? || step.Crash? {
      assert [C.Crash][1..] == [];
    } else {
      var es := Events(log, b, step);
      forall e | e in es
        ensures e.file == file && e.place.fp == Name(Some(file))
        ensures e.place.end <= base || (exists p :: p in b.c.read && C.SameLine(e, p) && p.kind == e.kind)
                || forall p | p in b.c.read && p.file == file :: p.place.end < e.place.end
      {
        EachInOrder(log, b, step, file, base, e);
      }
      InOrder(log, b, step, file);
      hide Events, OnLog, Known, Past, Can;
      LinesInOneFile(b.c, es, base, file, Name(Some(file)));
    }
  }

  predicate Ascend(es: seq<C.Event>) {
    forall i, j | 0 <= i < j < |es| :: es[i].place.end < es[j].place.end
  }

  lemma InOrder(log: Log, b: Both, step: F.Step, file: nat)
    requires Can(b, Tail(step)) && OnLog(b, Tail(step), file)
    ensures Ascend(Events(log, b, step))
  {
    var es := Events(log, b, step);
    if step.Start? && es != [] {
      var spans := ToTheEnd(b.w.files[file], b.w.stored.value.offset);
      assert |es| == |spans| && forall i | 0 <= i < |es| :: es[i].place.end == spans[i].end;
      EndsAscend(b.w.files[file], b.w.stored.value.offset);
    } else {
      assert |es| <= 1;
    }
  }

  // Each line handed over on the log is a whole line of it.
  lemma WholeLine(log: Log, b: Both, step: F.Step, file: nat, e: C.Event) returns (l: F.Line)
    requires Ordered(log, b) && Can(b, Tail(step)) && OnLog(b, Tail(step), file) && e in Events(log, b, step)
    ensures e.file == file && e.place.fp == Name(Some(file))
    ensures l.file == file && l.end == e.place.end && N.IsLine(b.w.files, l) && e.kind == log.kind(l)
  {
    if step.Start? {
      l := WholeMissed(log, b, step, file, e);
    } else {
      l := F.Line(file, if step.Read? then b.w.tail.at else b.w.tail.rotated.value.at, e.place.end);
      WholeRead(log, b, step, file, e, l);
    }
    hide Ordered, Events, OnLog, Can, N.IsLine;
  }

  lemma WholeRead(log: Log, b: Both, step: F.Step, file: nat, e: C.Event, l: F.Line)
    requires step.Read? || step.ReadOld?
    requires Can(b, Tail(step)) && OnLog(b, Tail(step), file) && e in Events(log, b, step)
    requires l == F.Line(file, if step.Read? then b.w.tail.at else b.w.tail.rotated.value.at, e.place.end)
    ensures e.file == file && e.place.fp == Name(Some(file)) && N.IsLine(b.w.files, l) && e.kind == log.kind(l)
  {
    hide C.Decimal;
  }

  lemma WholeMissed(log: Log, b: Both, step: F.Step, file: nat, e: C.Event) returns (l: F.Line)
    requires step.Start? && Can(b, Tail(step)) && OnLog(b, Tail(step), file) && e in Events(log, b, step)
    ensures e.file == file && e.place.fp == Name(Some(file))
    ensures l.file == file && l.end == e.place.end && N.IsLine(b.w.files, l) && e.kind == log.kind(l)
  {
    var text, from := b.w.files[file], b.w.stored.value.offset;
    var spans := ToTheEnd(text, from);
    AllWhole(text, from);
    hide Complete, Boundary, ToTheEnd, C.Decimal;
    var i :| 0 <= i < |spans| && e == Events(log, b, step)[i];
    l := F.Line(file, spans[i].start, spans[i].end);
    assert spans[i] in spans;
  }

  lemma EachInOrder(log: Log, b: Both, step: F.Step, file: nat, base: nat, e: C.Event)
    requires Known(log, b) && Past(b.w, file, base) && Can(b, Tail(step)) && OnLog(b, Tail(step), file)
    requires e in Events(log, b, step)
    ensures e.file == file && e.place.fp == Name(Some(file))
    ensures e.place.end <= base || (exists p :: p in b.c.read && C.SameLine(e, p) && p.kind == e.kind)
            || forall p | p in b.c.read && p.file == file :: p.place.end < e.place.end
  {
    var l := WholeLine(log, b, step, file, e);
    hide Known, Past, Events, OnLog, N.IsLine;
    ReadOrNew(log, b, file, base, l);
    if WasRead(log, b.c.read, l) {
      var p :| p in b.c.read && p.file == l.file && p.place.end == l.end && p.kind == log.kind(l);
      assert C.SameLine(e, p);
    }
  }

  // ---- over runs

  ghost predicate Counting(log: Log, b: Both) {
    Known(log, b) && Named(b) && C.Tallied(b.c) && C.Once(b.c.store.tally) && C.Topmost(b.c)
  }

  lemma StepCounting(log: Log, b: Both, step: Step)
    requires Stamped(log) && Counting(log, b) && Can(b, step)
    ensures Counting(log, Do(log, b, step))
  {
    StepKnown(log, b, step);
    if step.Tail? {
      StepRuns(log, b, step.step);
      NamedKept(log, b, step.step);
      NamesStay(log, b, step.step);
      C.RunsCountOnce(b.c, CounterSteps(log, b, step.step));
      C.RunsTopmost(b.c, CounterSteps(log, b, step.step));
      hide Known, Named, C.Tallied, C.Once, C.Topmost, CounterSteps, C.End;
    }
  }

  lemma {:induction false} EveryRunCounting(log: Log, b: Both, steps: seq<Step>)
    requires Stamped(log) && Counting(log, b) && Run(log, b, steps)
    ensures Counting(log, After(log, b, steps))
    decreases |steps|
  {
    if steps != [] {
      StepCounting(log, b, steps[0]);
      hide Counting, Can, Do;
      EveryRunCounting(log, Do(log, b, steps[0]), steps[1..]);
    }
  }

  lemma {:induction false} EveryRunCounts(log: Log, b: Both, steps: seq<Step>, file: nat, base: nat, from: nat)
    requires Stamped(log) && Counting(log, b) && Past(b.w, file, base)
    requires Run(log, b, steps) && OnLogRun(log, b, steps, file)
    requires C.CountedSince(b.c, from, base, file, Name(Some(file)))
    ensures var b' := After(log, b, steps);
            C.CountedSince(b'.c, from, base, file, Name(Some(file))) && C.Once(b'.c.store.tally)
    decreases |steps|
  {
    if steps != [] {
      StepCounting(log, b, steps[0]);
      if steps[0].Tail? {
        var step := steps[0].step;
        PastStays(b.w, step, file, base);
        ReadInOrder(log, b, step, file, base);
        StepRuns(log, b, step);
        C.CountedExactlyOnce(b.c, CounterSteps(log, b, step), from, base, file, Name(Some(file)));
      }
      hide Known, Named, C.Tallied, C.Once, C.Topmost, CounterSteps, C.End, Past, C.CountedSince;
      EveryRunCounts(log, Do(log, b, steps[0]), steps[1..], file, base, from);
    }
  }

  // The last line counted is a whole line of the file, known by its fingerprint, and not before the first place ever
  // saved.
  ghost predicate CountedIn(b: Both, file: nat) {
    b.c.mem.counted.fp == Name(Some(file)) && Past(b.w, file, b.c.mem.counted.end)
  }

  lemma Begins(log: Log, b: Both, file: nat)
    requires Counting(log, b) && CountedIn(b, file)
    ensures C.CountedSince(b.c, |b.c.read|, b.c.mem.counted.end, file, Name(Some(file)))
  {
    var y :| y in b.c.store.tally && y.place == b.c.mem.counted;
    assert y in b.c.read && Tagged(log, y);
    C.NumberOfDecimal(file);
    C.NumberOfDecimal(y.file);
    assert C.CountedIn(b.c, file, Name(Some(file)));
    hide Known, Named, C.Once;
  }

  // In every run of the tailer, from any moment at which the last line counted is one of a log with its fingerprint,
  // and while that log is read by whole lines: every warning of cleanup's read past it - through appends, saves,
  // rotations, stops, crashes, and starts that read lines again, of the log or of the log renamed - has been counted,
  // and counted once.
  lemma EachWarningOnce(log: Log, files: seq<string>, before: seq<Step>, steps: seq<Step>, file: nat)
    requires Stamped(log) && files != [] && Run(log, New(files), before)
    requires var b := After(log, New(files), before);
             CountedIn(b, file) && Run(log, b, steps) && OnLogRun(log, b, steps, file)
    ensures var b := After(log, New(files), before);
            var c' := After(log, b, steps).c;
            && C.Once(c'.store.tally) && |b.c.read| <= |c'.read|
            && forall i | |b.c.read| <= i < |c'.read| && c'.read[i].kind.Broken?
                          && c'.read[i].place.end > b.c.mem.counted.end ::
                 C.InTally(c', c'.read[i])
  {
    C.FreshIsTallied();
    EveryRunCounting(log, New(files), before);
    var b := After(log, New(files), before);
    Begins(log, b, file);
    hide Run, After, OnLogRun, Counting;
    EveryRunCounts(log, b, steps, file, b.c.mem.counted.end, |b.c.read|);
  }
}
