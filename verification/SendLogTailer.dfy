/**
 The send log behind the tailer: in any run that reads the log's lines in their order, whatever is read again, the
 rows end as one pass over the log leaves them.
 */
module SendLogTailer {
  import opened Wrappers
  import opened LogLines
  import opened LogPlace
  import F = Follow
  import N = NoLineLost
  import P = PlacesHold
  import S = SendLog
  import opened SendLogLines

  // The tailer and the rows; as history, how far the lines are read, and the last file any was read of.
  datatype Both = Both(w: F.World, rows: seq<S.Row>, pos: F.Spot, top: nat)

  predicate Can(b: Both, step: F.Step) {
    F.Can(b.w, step) && F.Proviso(b.w, step)
  }

  // What the lines a step hands over make of the rows.
  function Rows(kinds: Kinds, w: F.World, rows: seq<S.Row>, step: F.Step): seq<S.Row>
    requires F.Can(w, step)
  {
    match step
    case Start(_, _) =>
      var missed := F.MissedAt(w);
      if missed.None? || |w.files| < 2 then rows
      else S.HandleAll(rows, Said(kinds, |w.files| - 2, missed.value))
    case Read(_) => S.Handle(rows, kinds(F.Line(w.tail.cur, w.tail.at, LineEnd(w.files[w.tail.cur], w.tail.at).value)))
    case ReadOld(_) =>
      var o := w.tail.rotated.value;
      S.Handle(rows, kinds(F.Line(o.file, o.at, LineEnd(w.files[o.file], o.at).value)))
    case _ => rows
  }

  // In the renamed file, until a line of the new one is read.
  function Pos(w: F.World): F.Spot
    requires w.tail.Up?
  {
    var t := w.tail;
    if t.rotated.Some? && t.at == 0 then F.Spot(t.rotated.value.file, t.rotated.value.at) else F.Spot(t.cur, t.at)
  }

  function Do(kinds: Kinds, b: Both, step: F.Step): Both
    requires Can(b, step)
  {
    var w := F.Do(b.w, step);
    var pos := if w.tail.Up? then Pos(w) else b.pos;
    Both(w, Rows(kinds, b.w, b.rows, step), pos, if pos.file > b.top then pos.file else b.top)
  }

  // Where a start reads on.
  function Resumes(w: F.World): F.Spot
    requires |w.files| > 0
  {
    if F.MissedAt(w).Some? && F.Log(w) > 0 && w.stored.Some? then F.Spot(F.Log(w) - 1, w.stored.value.offset)
    else F.Spot(F.Log(w), ResumeAt(w.stored, F.FileAt(w, F.Log(w))).start)
  }

  // The lines come in their order: nothing is written to a file once a line of a later one is read, and none of the
  // log is read before the renamed file is; a start reads on at the start of a line, not before the first of them.
  predicate InOrder(b: Both, step: F.Step, from: F.Spot)
    requires Can(b, step)
  {
    match step
    case Append(file, _) => file >= b.top
    case Read(_) => F.OldRead(b.w)
    case Start(_, _) =>
      var r := Resumes(b.w);
      LineStart(b.w.files, from, r) && (r.file < F.Log(b.w) ==> Boundary(b.w.files[r.file], |b.w.files[r.file]|))
    case _ => true
  }

  predicate Run(kinds: Kinds, b: Both, steps: seq<F.Step>, from: F.Spot)
    decreases |steps|
  {
    steps == [] ||
    (Can(b, steps[0]) && InOrder(b, steps[0], from) && Run(kinds, Do(kinds, b, steps[0]), steps[1..], from))
  }

  function After(kinds: Kinds, b: Both, steps: seq<F.Step>, from: F.Spot): Both
    requires Run(kinds, b, steps, from)
    decreases |steps|
  {
    if steps == [] then b else After(kinds, Do(kinds, b, steps[0]), steps[1..], from)
  }

  // ---- where the reading stands, and where a start will

  predicate Standing(b: Both) {
    var t := b.w.tail;
    t.Up? ==>
      && b.pos == Pos(b.w)
      && (t.rotated.Some? ==> t.rotated.value.file + 1 == t.cur && (t.adopted ==> b.w.savedFile == t.cur))
      && (t.rotated.Some? && t.at > 0 ==> F.OldRead(b.w) && b.top >= t.cur)
  }

  predicate AtEnd(files: seq<string>, pos: F.Spot) {
    pos.file < |files| && LineEnd(files[pos.file], pos.at).None?
  }

  // The place saved is not past the reading, or starts the file after the one read to its end.
  predicate Resumable(b: Both) {
    b.w.tail.Down? ==>
      && b.w.stored.Some?
      && var (saved, named) := (b.w.savedFile, b.w.stored.value.fp.Some?);
      || saved < b.pos.file
      || (saved == b.pos.file && (named ==> b.w.stored.value.offset <= b.pos.at))
      || (saved == b.pos.file + 1 && (named ==> b.w.stored.value.offset == 0) && AtEnd(b.w.files, b.pos))
  }

  ghost predicate Reads(kinds: Kinds, b: Both, from: F.Spot, start: seq<S.Row>) {
    Settled(kinds, b.w.files, from, start, b.rows, b.pos, b.top) && LineStart(b.w.files, from, from)
  }

  ghost predicate Inv(kinds: Kinds, b: Both, from: F.Spot, start: seq<S.Row>) {
    P.Holding(b.w) && b.w.stored.Some? && Standing(b) && Resumable(b) && Reads(kinds, b, from, start)
  }

  // ---- one step

  lemma WritesThere(kinds: Kinds, b: Both, step: F.Step, from: F.Spot)
    requires Standing(b) && Can(b, step) && InOrder(b, step, from) && (step.Append? || step.Rotate?)
    requires LineStart(b.w.files, from, from) && b.pos.file <= b.top < |b.w.files|
    ensures var (b', files) := (Do(kinds, b, step), b.w.files);
            && b'.rows == b.rows && b'.pos == b.pos && LineStart(b'.w.files, from, from)
            && (step.Append? && step.file == b.top ==> b'.w.files == files[b.top := files[b.top] + step.more])
            && (step.Rotate? || step.file != b.top ==>
                  |files| <= |b'.w.files| && forall i | 0 <= i <= b.top :: b'.w.files[i] == files[i])
  {
    if step.Append? && step.file == from.file {
      BoundaryStays(b.w.files[from.file], step.more, from.at);
    }
    hide LineEnd, Boundary;
  }

  lemma WriteReads(kinds: Kinds, b: Both, step: F.Step, from: F.Spot, start: seq<S.Row>)
    requires Inv(kinds, b, from, start) && Can(b, step) && InOrder(b, step, from) && (step.Append? || step.Rotate?)
    ensures Reads(kinds, Do(kinds, b, step), from, start)
  {
    hide *;
    Parts(kinds, b, from, start);
    TopIs(kinds, b, step);
    WritesThere(kinds, b, step, from);
    var files, files' := b.w.files, Do(kinds, b, step).w.files;
    if step.Append? && step.file == b.top {
      WrittenOn(kinds, files, step.more, from, start, b.rows, b.pos, b.top);
    } else {
      WrittenLater(kinds, files, files', from, start, b.rows, b.pos, b.top);
    }
    ReadsIs(kinds, Do(kinds, b, step), from, start);
  }

  lemma Parts(kinds: Kinds, b: Both, from: F.Spot, start: seq<S.Row>)
    requires Inv(kinds, b, from, start)
    ensures P.Holding(b.w) && N.Sound(b.w) && b.w.stored.Some? && Standing(b) && Resumable(b)
    ensures Reads(kinds, b, from, start) && LineStart(b.w.files, from, from)
    ensures Settled(kinds, b.w.files, from, start, b.rows, b.pos, b.top) && b.pos.file <= b.top < |b.w.files|
  {
    hide Standing, Resumable, Between, S.HandleAll;
  }

  lemma ReadsIs(kinds: Kinds, b: Both, from: F.Spot, start: seq<S.Row>)
    requires Settled(kinds, b.w.files, from, start, b.rows, b.pos, b.top) && LineStart(b.w.files, from, from)
    ensures Reads(kinds, b, from, start)
  {
    hide Settled, LineStart;
  }

  lemma TopIs(kinds: Kinds, b: Both, step: F.Step)
    requires Can(b, step)
    ensures var b' := Do(kinds, b, step); b'.top == if b'.pos.file > b.top then b'.pos.file else b.top
  {
    hide F.Do, Rows, F.Can, Pos;
  }

  lemma MovesParts(kinds: Kinds, b: Both, from: F.Spot, start: seq<S.Row>)
    requires Settled(kinds, b.w.files, from, start, b.rows, b.pos, b.top) && AtEnd(b.w.files, b.pos)
    ensures b.pos.file <= b.top < |b.w.files| && LineEnd(b.w.files[b.pos.file], b.pos.at).None?
  {
    hide Between, S.HandleAll, LineEnd;
  }

  // On to the next file, from the end of the one read.
  lemma MovesOn(kinds: Kinds, b: Both, from: F.Spot, start: seq<S.Row>)
    requires Settled(kinds, b.w.files, from, start, b.rows, b.pos, b.top)
    requires AtEnd(b.w.files, b.pos) && b.pos.file + 1 < |b.w.files|
    ensures var next := b.pos.file + 1;
            Settled(kinds, b.w.files, from, start, b.rows, F.Spot(next, 0), if next > b.top then next else b.top)
  {
    hide *;
    MovesParts(kinds, b, from, start);
    var last := b.top;
    if b.pos.file == b.top {
      LastIsNext(kinds, b.w.files, from, start, b.rows, b.pos, b.top);
      last := last + 1;
    }
    NextFile(kinds, b.w.files, from, start, b.rows, b.pos, last);
  }

  lemma ReadsThere(kinds: Kinds, b: Both, step: F.Step, from: F.Spot) returns (end: nat)
    requires N.Sound(b.w) && Standing(b) && Can(b, step) && InOrder(b, step, from) && step.Read?
    ensures b.w.tail.Up?
    ensures var (b', t) := (Do(kinds, b, step), b.w.tail);
            && b'.w.files == b.w.files && t.cur < |b.w.files| && LineEnd(b.w.files[t.cur], t.at) == Some(end)
            && b'.rows == S.Handle(b.rows, kinds(F.Line(t.cur, t.at, end))) && b'.pos == F.Spot(t.cur, end)
            && (b.pos == F.Spot(t.cur, t.at)
                || (AtEnd(b.w.files, b.pos) && t.at == 0 && t.cur == b.pos.file + 1))
  {
    end := LineEnd(b.w.files[b.w.tail.cur], b.w.tail.at).value;
    hide LineEnd, Last;
  }

  lemma ReadReads(kinds: Kinds, b: Both, step: F.Step, from: F.Spot, start: seq<S.Row>)
    requires Inv(kinds, b, from, start) && Can(b, step) && InOrder(b, step, from) && step.Read?
    ensures Reads(kinds, Do(kinds, b, step), from, start)
  {
    hide *;
    Parts(kinds, b, from, start);
    TopIs(kinds, b, step);
    var t, b' := b.w.tail, Do(kinds, b, step);
    var end := ReadsThere(kinds, b, step, from);
    var last := if t.cur > b.top then t.cur else b.top;
    if b.pos != F.Spot(t.cur, t.at) {
      MovesOn(kinds, b, from, start);
    }
    LineSettles(kinds, b.w.files, from, start, b.rows, F.Spot(t.cur, t.at), last, end);
    ReadsIs(kinds, b', from, start);
  }

  lemma ReadOldReads(kinds: Kinds, b: Both, step: F.Step, from: F.Spot, start: seq<S.Row>)
    requires Inv(kinds, b, from, start) && Can(b, step) && step.ReadOld?
    ensures Reads(kinds, Do(kinds, b, step), from, start)
  {
    var o := b.w.tail.rotated.value;
    var end := LineEnd(b.w.files[o.file], o.at).value;
    assert b.w.tail.at == 0 && b.pos == F.Spot(o.file, o.at);
    hide LineEnd, P.Holding;
    LineSettles(kinds, b.w.files, from, start, b.rows, b.pos, b.top, end);
  }

  lemma ClosesThere(kinds: Kinds, b: Both)
    requires N.Sound(b.w) && Standing(b) && Can(b, F.CloseOld)
    ensures var b' := Do(kinds, b, F.CloseOld);
            && b'.w.files == b.w.files && b'.rows == b.rows
            && (b'.pos == b.pos
                || (AtEnd(b.w.files, b.pos) && b.pos.file + 1 < |b.w.files| && b'.pos == F.Spot(b.pos.file + 1, 0)))
  {
    hide LineEnd, Last;
  }

  lemma CloseReads(kinds: Kinds, b: Both, from: F.Spot, start: seq<S.Row>)
    requires Inv(kinds, b, from, start) && Can(b, F.CloseOld)
    ensures Reads(kinds, Do(kinds, b, F.CloseOld), from, start)
  {
    hide *;
    Parts(kinds, b, from, start);
    TopIs(kinds, b, F.CloseOld);
    ClosesThere(kinds, b);
    var b' := Do(kinds, b, F.CloseOld);
    if b'.pos != b.pos {
      MovesOn(kinds, b, from, start);
    }
    ReadsIs(kinds, b', from, start);
  }

  lemma SaidToEnd(kinds: Kinds, rows: seq<S.Row>, file: nat, text: string, at: nat, end: nat)
    requires LineEnd(text, at) == Some(end)
    ensures var line := kinds(F.Line(file, at, end));
            S.HandleAll(rows, Said(kinds, file, ToTheEnd(text, at))) ==
            S.HandleAll(S.Handle(rows, line), Said(kinds, file, ToTheEnd(text, end)))
  {
    var line, rest := kinds(F.Line(file, at, end)), Said(kinds, file, ToTheEnd(text, end));
    assert ToTheEnd(text, at) == [Span(at, end)] + ToTheEnd(text, end);
    hide ToTheEnd, LineEnd;
    assert Said(kinds, file, ToTheEnd(text, at)) == [line] + rest && ([line] + rest)[1..] == rest;
  }

  lemma NothingToEnd(kinds: Kinds, rows: seq<S.Row>, file: nat, text: string, at: nat)
    requires at >= |text|
    ensures S.HandleAll(rows, Said(kinds, file, ToTheEnd(text, at))) == rows
  {
    assert Said(kinds, file, ToTheEnd(text, at)) == [];
  }

  // The rest of the renamed file, line by line.
  lemma {:induction false} ReadsToEnd(kinds: Kinds, files: seq<string>, from: F.Spot, start: seq<S.Row>,
                                      rows: seq<S.Row>, pos: F.Spot, last: nat)
    requires Settled(kinds, files, from, start, rows, pos, last)
    requires Boundary(files[pos.file], |files[pos.file]|)
    ensures var text := files[pos.file];
            Settled(kinds, files, from, start, S.HandleAll(rows, Said(kinds, pos.file, ToTheEnd(text, pos.at))),
              F.Spot(pos.file, |text|), last)
    decreases |files[pos.file]| - pos.at
  {
    var text := files[pos.file];
    if pos.at < |text| {
      var end := LineEnd(text, pos.at).value;
      SaidToEnd(kinds, rows, pos.file, text, pos.at, end);
      hide Said, ToTheEnd, Settled, LineEnd;
      LineSettles(kinds, files, from, start, rows, pos, last, end);
      var rows' := S.Handle(rows, kinds(F.Line(pos.file, pos.at, end)));
      ReadsToEnd(kinds, files, from, start, rows', F.Spot(pos.file, end), last);
    } else {
      NothingToEnd(kinds, rows, pos.file, text, pos.at);
      assert pos == F.Spot(pos.file, |text|);
    }
  }

  lemma ResumesThere(b: Both, step: F.Step, from: F.Spot)
    requires P.Holding(b.w) && Resumable(b) && b.pos.file <= b.top < |b.w.files|
    requires Can(b, step) && InOrder(b, step, from) && step.Start?
    ensures var r := Resumes(b.w);
            && LineStart(b.w.files, from, r)
            && (!NotPast(r, b.pos) ==>
                  r == F.Spot(b.pos.file + 1, 0) && r.file < |b.w.files| && AtEnd(b.w.files, b.pos))
  {
    hide ToTheEnd, LineEnd, Last, Boundary;
  }

  // A start, set back to the place saved.
  lemma StartSetsBack(kinds: Kinds, b: Both, step: F.Step, from: F.Spot, start: seq<S.Row>)
    requires Inv(kinds, b, from, start) && Can(b, step) && InOrder(b, step, from) && step.Start?
    ensures var r := Resumes(b.w);
            Settled(kinds, b.w.files, from, start, b.rows, r, if r.file > b.top then r.file else b.top)
  {
    hide *;
    Parts(kinds, b, from, start);
    var r := Resumes(b.w);
    ResumesThere(b, step, from);
    if NotPast(r, b.pos) {
      SetBack(kinds, b.w.files, from, start, b.rows, b.pos, b.top, r);
    } else {
      MovesOn(kinds, b, from, start);
    }
  }

  lemma StartsThere(kinds: Kinds, b: Both, step: F.Step, from: F.Spot)
    requires Can(b, step) && step.Start? && InOrder(b, step, from) && b.w.stored.Some?
    ensures var (r, b') := (Resumes(b.w), Do(kinds, b, step));
            && b'.w.files == b.w.files && r.file < |b.w.files|
            && match F.MissedAt(b.w)
               case None => b'.rows == b.rows && b'.pos == r
               case Some(_) =>
                 && r.file + 1 < |b.w.files| && b'.pos == F.Spot(r.file + 1, 0)
                 && Boundary(b.w.files[r.file], |b.w.files[r.file]|)
                 && AtEnd(b.w.files, F.Spot(r.file, |b.w.files[r.file]|))
                 && b'.rows == S.HandleAll(b.rows, Said(kinds, r.file, ToTheEnd(b.w.files[r.file], r.at)))
  {
    hide ToTheEnd, Said, S.HandleAll;
  }

  lemma StartReads(kinds: Kinds, b: Both, step: F.Step, from: F.Spot, start: seq<S.Row>)
    requires Inv(kinds, b, from, start) && Can(b, step) && InOrder(b, step, from) && step.Start?
    ensures Reads(kinds, Do(kinds, b, step), from, start)
  {
    hide *;
    Parts(kinds, b, from, start);
    TopIs(kinds, b, step);
    StartSetsBack(kinds, b, step, from, start);
    StartsThere(kinds, b, step, from);
    var r, files, b' := Resumes(b.w), b.w.files, Do(kinds, b, step);
    if F.MissedAt(b.w).Some? {
      var there, last := F.Spot(r.file, |files[r.file]|), if r.file > b.top then r.file else b.top;
      ReadsToEnd(kinds, files, from, start, b.rows, r, last);
      MovesOn(kinds, Both(b.w, b'.rows, there, last), from, start);
    }
    ReadsIs(kinds, b', from, start);
  }

  lemma StepReads(kinds: Kinds, b: Both, step: F.Step, from: F.Spot, start: seq<S.Row>)
    requires Inv(kinds, b, from, start) && Can(b, step) && InOrder(b, step, from)
    ensures Reads(kinds, Do(kinds, b, step), from, start)
  {
    match step
    case Append(_, _) => WriteReads(kinds, b, step, from, start);
    case Rotate => WriteReads(kinds, b, step, from, start);
    case Start(_, _) => StartReads(kinds, b, step, from, start);
    case Read(_) => ReadReads(kinds, b, step, from, start);
    case ReadOld(_) => ReadOldReads(kinds, b, step, from, start);
    case CloseOld => CloseReads(kinds, b, from, start);
    case _ =>
      hide P.Holding, Settled, F.Held;
  }

  lemma StepStands(kinds: Kinds, b: Both, step: F.Step, from: F.Spot)
    requires N.Sound(b.w) && b.w.stored.Some? && Standing(b) && Can(b, step) && InOrder(b, step, from)
    requires b.pos.file <= b.top
    ensures Standing(Do(kinds, b, step)) && F.Do(b.w, step).stored.Some?
  {
    hide F.Held, ToTheEnd, Rows, Last;
  }

  lemma StepResumes(kinds: Kinds, b: Both, step: F.Step, from: F.Spot)
    requires P.Holding(b.w) && b.w.stored.Some? && Standing(b) && Resumable(b) && Can(b, step) && InOrder(b, step, from)
    requires b.pos.file <= b.top
    ensures Resumable(Do(kinds, b, step))
  {
    hide F.Held, ToTheEnd, Rows, Last;
  }

  // ---- over runs

  lemma StepKeeps(kinds: Kinds, b: Both, step: F.Step, from: F.Spot, start: seq<S.Row>)
    requires Inv(kinds, b, from, start) && Can(b, step) && InOrder(b, step, from)
    ensures Inv(kinds, Do(kinds, b, step), from, start)
  {
    Parts(kinds, b, from, start);
    StepReads(kinds, b, step, from, start);
    StepStands(kinds, b, step, from);
    StepResumes(kinds, b, step, from);
    P.StepKeepsHolding(b.w, step);
    assert Do(kinds, b, step).w == F.Do(b.w, step);
    hide P.Holding, Standing, Resumable, Reads, Can, InOrder, Do, Settled, F.Do;
  }

  lemma {:induction false} EveryRun(kinds: Kinds, b: Both, steps: seq<F.Step>, from: F.Spot, start: seq<S.Row>)
    requires Inv(kinds, b, from, start) && Run(kinds, b, steps, from)
    ensures Inv(kinds, After(kinds, b, steps, from), from, start)
    decreases |steps|
  {
    if steps != [] {
      StepKeeps(kinds, b, steps[0], from, start);
      hide Inv, Can, InOrder, Do;
      EveryRun(kinds, Do(kinds, b, steps[0]), steps[1..], from, start);
    }
  }

  // A panel about to start from the place saved, with the rows as they are.
  function Stopped(w: F.World, rows: seq<S.Row>): Both
    requires |w.files| > 0
  {
    Both(w, rows, Resumes(w), Resumes(w).file)
  }

  lemma Begins(kinds: Kinds, w: F.World, rows: seq<S.Row>)
    requires P.Holding(w) && w.tail.Down? && w.stored.Some? && F.Proviso(w, F.Start([], {}))
    requires Boundary(w.files[Resumes(w).file], Resumes(w).at)
    ensures Inv(kinds, Stopped(w, rows), Resumes(w), rows)
  {
    var b, r := Stopped(w, rows), Resumes(w);
    assert Resumable(b) by {
      hide LineEnd, ToTheEnd, Last;
    }
    forall a: F.Spot | LineStart(w.files, r, a) && NotPast(a, r) ensures a == r {
    }
    hide P.Holding, Resumes, Resumable;
    assert Settled(kinds, w.files, r, rows, rows, r, r.file);
  }

  lemma StandsAtEnd(b: Both) returns (here: F.Spot)
    requires N.Sound(b.w) && Standing(b) && N.CaughtUp(b.w)
    ensures here.file == F.Log(b.w) && here.file + 1 == |b.w.files| && AtEnd(b.w.files, here)
    ensures b.pos == here || (AtEnd(b.w.files, b.pos) && here == F.Spot(b.pos.file + 1, 0))
  {
    here := F.Spot(F.Log(b.w), b.w.tail.at);
    hide LineEnd, Last;
  }

  lemma CaughtUpReads(kinds: Kinds, b: Both, from: F.Spot, start: seq<S.Row>)
    requires Inv(kinds, b, from, start) && N.CaughtUp(b.w)
    ensures from.file <= F.Log(b.w)
    ensures b.rows == S.HandleAll(start, Between(kinds, b.w.files, from, F.Log(b.w)))
  {
    hide *;
    var files, log := b.w.files, F.Log(b.w);
    Parts(kinds, b, from, start);
    var here := StandsAtEnd(b);
    if b.pos != here {
      MovesOn(kinds, b, from, start);
    }
    Ends(kinds, files, from, start, b.rows, here, b.top);
  }

  lemma Ends(kinds: Kinds, files: seq<string>, from: F.Spot, start: seq<S.Row>, rows: seq<S.Row>, here: F.Spot,
             top: nat)
    requires here.file + 1 == |files| && AtEnd(files, here)
    requires Settled(kinds, files, from, start, rows, here, if here.file > top then here.file else top)
    ensures from.file <= here.file && rows == S.HandleAll(start, Between(kinds, files, from, here.file))
  {
    assert LineStart(files, from, here) && NotPast(here, here);
    assert Lines(files[here.file], here.at) == [];
    assert Between(kinds, files, here, here.file) == [];
    hide Lines, LineEnd, Between;
  }

  // In every run of the tailer from any place it is started at, that reads the lines in their order, with any stops,
  // crashes, rotations and lines read again: once it has caught up, the rows are those that one pass over the lines
  // from that place on makes.
  lemma RowsAreOnePass(kinds: Kinds, w: F.World, before: seq<F.Step>, rows: seq<S.Row>, steps: seq<F.Step>)
    requires N.Fresh(w) && N.Run(w, before)
    requires var down := N.After(w, before);
             && F.Can(down, F.Start([], {})) && F.Proviso(down, F.Start([], {})) && down.stored.Some?
             && Boundary(down.files[Resumes(down).file], Resumes(down).at)
             && Run(kinds, Stopped(down, rows), steps, Resumes(down))
             && N.CaughtUp(After(kinds, Stopped(down, rows), steps, Resumes(down)).w)
    ensures var from := Resumes(N.After(w, before));
            var b := After(kinds, Stopped(N.After(w, before), rows), steps, from);
            && from.file <= F.Log(b.w)
            && b.rows == S.HandleAll(rows, Between(kinds, b.w.files, from, F.Log(b.w)))
  {
    P.EveryRunKeepsHolding(w, before);
    var down := N.After(w, before);
    hide N.Run, N.After, N.CaughtUp, Run, After, P.Holding, Inv;
    Begins(kinds, down, rows);
    EveryRun(kinds, Stopped(down, rows), steps, Resumes(down), rows);
    CaughtUpReads(kinds, After(kinds, Stopped(down, rows), steps, Resumes(down)), Resumes(down), rows);
  }

  // ---- the order is needed

  const MAIL := S.Mail("", "", "", "", "", "")
  const QUEUED := S.Row(1, "Q", "a@b", MAIL, S.Queued, S.NoReason, 0)

  // The renamed file's lines say deferred, those of the new one sent.
  const FIRST_DEFERRED: Kinds := (l: F.Line) => S.Delivery("Q", "a@b", if l.file == 0 then S.Deferred else S.Sent)

  // A line late in the renamed file; one in the new file then; the new one read, and then the late one.
  function Late(): Both {
    Both(N.LateWorld(), [QUEUED], F.Spot(0, 2), 0)
  }

  function Written(): Both {
    Late().(w := Late().w.(files := ["a\nb\n", "n\n"]))
  }

  function NewRead(): Both {
    Both(Written().w.(tail := N.Short(1, 2, 0, true, Some(F.Old(0, 2, None)), {F.Line(1, 0, 2)})),
      [QUEUED.(status := S.Sent)], F.Spot(1, 2), 1)
  }

  lemma Writes()
    ensures Can(Late(), F.Append(1, "n\n")) && Do(FIRST_DEFERRED, Late(), F.Append(1, "n\n")) == Written()
  {
    assert "" + "n\n" == "n\n";
  }

  lemma ReadsNew()
    ensures var read := F.Read(F.Nothing);
            && Can(Written(), read) && !InOrder(Written(), read, F.Spot(0, 2))
            && Do(FIRST_DEFERRED, Written(), read) == NewRead()
  {
    LineEndUnique("n\n", 0, 2);
    LineEndUnique("a\nb\n", 2, 4);
    assert {} + {F.Line(1, 0, 2)} == {F.Line(1, 0, 2)};
    OneRow(QUEUED, S.Delivery("Q", "a@b", S.Sent));
    hide LineEnd, S.Handle;
  }

  lemma ReadsLate()
    ensures var read := F.ReadOld(F.Nothing);
            Can(NewRead(), read) && Do(FIRST_DEFERRED, NewRead(), read).rows == [QUEUED.(status := S.Deferred)]
  {
    LineEndUnique("a\nb\n", 2, 4);
    OneRow(QUEUED.(status := S.Sent), S.Delivery("Q", "a@b", S.Deferred));
    hide LineEnd, S.Handle;
  }

  lemma OneRow(r: S.Row, line: S.Line)
    requires r.status != S.Rejected
    ensures S.Handle([r], line) == [S.Act(r, line)]
  {
    assert S.Newest([r], 0);
  }

  lemma LinesThere()
    ensures Between(FIRST_DEFERRED, NewRead().w.files, F.Spot(0, 2), 1) ==
            [S.Delivery("Q", "a@b", S.Deferred), S.Delivery("Q", "a@b", S.Sent)]
  {
    var files := NewRead().w.files;
    LineEndUnique("a\nb\n", 2, 4);
    LineEndUnique("n\n", 0, 2);
    assert Lines("a\nb\n", 4) == [] && Lines("n\n", 2) == [];
    assert Lines("a\nb\n", 2) == [Span(2, 4)] && Lines("n\n", 0) == [Span(0, 2)];
    hide Lines, LineEnd;
    assert Between(FIRST_DEFERRED, files, F.Spot(1, 0), 1) == [S.Delivery("Q", "a@b", S.Sent)];
    assert Said(FIRST_DEFERRED, 0, [Span(2, 4)]) == [S.Delivery("Q", "a@b", S.Deferred)];
  }

  lemma OnePassSays()
    ensures S.HandleAll([QUEUED], Between(FIRST_DEFERRED, NewRead().w.files, F.Spot(0, 2), 1)) ==
            [QUEUED.(status := S.Sent)]
  {
    LinesThere();
    var (deferred, sent) := (S.Delivery("Q", "a@b", S.Deferred), S.Delivery("Q", "a@b", S.Sent));
    var later := QUEUED.(status := S.Deferred);
    OneRow(QUEUED, deferred);
    OneRow(later, sent);
    assert S.Act(QUEUED, deferred) == later && S.Act(later, sent) == QUEUED.(status := S.Sent);
    hide Between, S.Handle, S.Act;
    assert [deferred, sent][1..] == [sent] && [sent][1..] == [];
    assert S.HandleAll([QUEUED], [deferred, sent]) == S.HandleAll([later], [sent]);
    assert S.HandleAll([later], [sent]) == S.HandleAll([QUEUED.(status := S.Sent)], []);
  }

  // A result written late to the renamed file, and read after one of the new file that was written later, is what
  // the row ends with.
  lemma LateResultStands()
    ensures N.Fresh(N.Zero()) && N.Run(N.Zero(), N.LateSteps()) && N.After(N.Zero(), N.LateSteps()) == Late().w
    ensures var (write, read, readOld) := (F.Append(1, "n\n"), F.Read(F.Nothing), F.ReadOld(F.Nothing));
            && Can(Late(), write) && Do(FIRST_DEFERRED, Late(), write) == Written()
            && Can(Written(), read) && !InOrder(Written(), read, F.Spot(0, 2))
            && Do(FIRST_DEFERRED, Written(), read) == NewRead()
            && Can(NewRead(), readOld)
            && Do(FIRST_DEFERRED, NewRead(), readOld).rows == [QUEUED.(status := S.Deferred)]
            && S.HandleAll([QUEUED], Between(FIRST_DEFERRED, NewRead().w.files, F.Spot(0, 2), 1)) ==
               [QUEUED.(status := S.Sent)]
  {
    N.LineComesLate();
    Writes();
    ReadsNew();
    ReadsLate();
    OnePassSays();
    assert N.Fresh(N.Zero()) && Late().w == N.LateWorld();
    hide *;
  }
}
