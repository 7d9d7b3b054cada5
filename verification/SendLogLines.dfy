/**
 The rows of the send log under the lines of several files: from every place the tailer may be set back to, reading
 on to the end makes of them what one pass over the lines does.
 */
module SendLogLines {
  import opened Wrappers
  import opened LogLines
  import F = Follow
  import N = NoLineLost
  import S = SendLog

  // What a line says of the send log.
  type Kinds = f: F.Line -> S.Line | forall l :: S.WellFormed(f(l)) witness (l: F.Line) => S.Other

  // ---- the lines from a place on

  function Said(kinds: Kinds, file: nat, spans: seq<Span>): (lines: seq<S.Line>)
    ensures |lines| == |spans|
  {
    seq(|spans|, i requires 0 <= i < |spans| => kinds(F.Line(file, spans[i].start, spans[i].end)))
  }

  // To the end of the file of that number.
  function Between(kinds: Kinds, files: seq<string>, a: F.Spot, last: nat): seq<S.Line>
    requires a.file <= last < |files|
    decreases last - a.file
  {
    Said(kinds, a.file, Lines(files[a.file], a.at)) +
    if a.file == last then [] else Between(kinds, files, F.Spot(a.file + 1, 0), last)
  }

  predicate NotPast(a: F.Spot, b: F.Spot) {
    a.file < b.file || (a.file == b.file && a.at <= b.at)
  }

  // The start of a line, and of the reading or after it.
  predicate LineStart(files: seq<string>, from: F.Spot, a: F.Spot) {
    a.file < |files| && Boundary(files[a.file], a.at) && NotPast(from, a)
  }

  // ---- the table under lines said again

  lemma {:induction false} HandleAllJoins(rows: seq<S.Row>, one: seq<S.Line>, two: seq<S.Line>)
    ensures S.HandleAll(rows, one + two) == S.HandleAll(S.HandleAll(rows, one), two)
    decreases |one|
  {
    if one == [] {
      assert one + two == two;
    } else {
      assert (one + two)[1..] == one[1..] + two;
      HandleAllJoins(S.Handle(rows, one[0]), one[1..], two);
    }
  }

  lemma Absorbed(rows: seq<S.Row>, line: S.Line, log: seq<S.Line>)
    requires S.WellFormedLog(log) && line in log
    ensures S.HandleAll(S.Handle(rows, line), log) == S.HandleAll(rows, log)
  {
    var now := S.Handle(rows, line);
    assert S.WellFormed(line);
    S.HandleKeys(rows, line);
    forall i | 0 <= i < |rows| ensures S.HandleAll(now, log)[i] == S.HandleAll(rows, log)[i] {
      S.HandleAllRows(rows, log, i);
      S.HandleAllRows(now, log, i);
      if S.Newest(rows, i) {
        S.Absorb(rows[i], log, line);
      }
    }
  }

  // ---- reading on

  lemma WellFormedSaid(kinds: Kinds, file: nat, spans: seq<Span>)
    ensures S.WellFormedLog(Said(kinds, file, spans))
  {
    forall i | 0 <= i < |spans| ensures S.WellFormed(Said(kinds, file, spans)[i]) {
      assert S.WellFormed(kinds(F.Line(file, spans[i].start, spans[i].end)));
    }
  }

  lemma WellFormedJoins(kinds: Kinds, files: seq<string>, a: F.Spot, last: nat)
    requires a.file <= last < |files| && S.WellFormedLog(Said(kinds, a.file, Lines(files[a.file], a.at)))
    requires a.file < last ==> S.WellFormedLog(Between(kinds, files, F.Spot(a.file + 1, 0), last))
    ensures S.WellFormedLog(Between(kinds, files, a, last))
  {
    hide S.WellFormed, Lines, Said;
  }

  lemma {:induction false} WellFormedBetween(kinds: Kinds, files: seq<string>, a: F.Spot, last: nat)
    requires a.file <= last < |files|
    ensures S.WellFormedLog(Between(kinds, files, a, last))
    decreases last - a.file
  {
    hide *;
    WellFormedSaid(kinds, a.file, Lines(files[a.file], a.at));
    if a.file < last {
      WellFormedBetween(kinds, files, F.Spot(a.file + 1, 0), last);
    }
    WellFormedJoins(kinds, files, a, last);
  }

  lemma SaidInFile(kinds: Kinds, files: seq<string>, at: nat, l: F.Line)
    requires N.IsLine(files, l) && at <= l.start
    ensures kinds(l) in Said(kinds, l.file, Lines(files[l.file], at))
  {
    var spans := Lines(files[l.file], at);
    LinesCover(files[l.file], at, l.start, l.end);
    hide Lines, Complete;
    var i :| 0 <= i < |spans| && spans[i] == Span(l.start, l.end);
    assert Said(kinds, l.file, spans)[i] == kinds(l);
  }

  // A whole line is said from every place before it on.
  lemma {:induction false} SaidAhead(kinds: Kinds, files: seq<string>, a: F.Spot, l: F.Line, last: nat)
    requires a.file <= l.file <= last < |files| && N.IsLine(files, l) && NotPast(a, F.Spot(l.file, l.start))
    ensures kinds(l) in Between(kinds, files, a, last)
    decreases last - a.file
  {
    hide Lines, Said, N.IsLine;
    if a.file == l.file {
      SaidInFile(kinds, files, a.at, l);
    } else {
      SaidAhead(kinds, files, F.Spot(a.file + 1, 0), l, last);
    }
  }

  // From every place the tailer may be set back to, reading on to the end of the last file read makes of the rows
  // what one pass over the lines makes of those at the start.
  ghost predicate Settled(kinds: Kinds, files: seq<string>, from: F.Spot, start: seq<S.Row>, rows: seq<S.Row>,
                          pos: F.Spot, last: nat)
  {
    && pos.file <= last < |files| && LineStart(files, from, pos)
    && forall a: F.Spot | LineStart(files, from, a) && NotPast(a, pos) ::
         S.HandleAll(rows, Between(kinds, files, a, last)) == S.HandleAll(start, Between(kinds, files, from, last))
  }

  lemma SetBack(kinds: Kinds, files: seq<string>, from: F.Spot, start: seq<S.Row>, rows: seq<S.Row>, pos: F.Spot,
                last: nat, back: F.Spot)
    requires Settled(kinds, files, from, start, rows, pos, last) && LineStart(files, from, back) && NotPast(back, pos)
    ensures Settled(kinds, files, from, start, rows, back, last)
  {
  }

  lemma LineAbsorbed(kinds: Kinds, files: seq<string>, a: F.Spot, l: F.Line, last: nat, rows: seq<S.Row>)
    requires a.file <= l.file <= last < |files| && N.IsLine(files, l) && NotPast(a, F.Spot(l.file, l.start))
    ensures var log := Between(kinds, files, a, last);
            S.HandleAll(S.Handle(rows, kinds(l)), log) == S.HandleAll(rows, log)
  {
    hide *;
    SaidAhead(kinds, files, a, l, last);
    WellFormedBetween(kinds, files, a, last);
    Absorbed(rows, kinds(l), Between(kinds, files, a, last));
  }

  lemma LineThen(kinds: Kinds, files: seq<string>, pos: F.Spot, last: nat, end: nat, rows: seq<S.Row>)
    requires pos.file <= last < |files| && LineEnd(files[pos.file], pos.at) == Some(end)
    ensures S.HandleAll(S.Handle(rows, kinds(F.Line(pos.file, pos.at, end))),
              Between(kinds, files, F.Spot(pos.file, end), last)) ==
            S.HandleAll(rows, Between(kinds, files, pos, last))
  {
    var line, rest := kinds(F.Line(pos.file, pos.at, end)), Between(kinds, files, F.Spot(pos.file, end), last);
    OneSaid(kinds, files, pos, last, end);
    hide Between, LineEnd, S.Handle;
    assert ([line] + rest)[1..] == rest;
  }

  lemma LineSettles(kinds: Kinds, files: seq<string>, from: F.Spot, start: seq<S.Row>, rows: seq<S.Row>, pos: F.Spot,
                    last: nat, end: nat)
    requires Settled(kinds, files, from, start, rows, pos, last) && LineEnd(files[pos.file], pos.at) == Some(end)
    ensures Settled(kinds, files, from, start, S.Handle(rows, kinds(F.Line(pos.file, pos.at, end))),
              F.Spot(pos.file, end), last)
  {
    hide Between, S.HandleAll, S.Handle;
    var l, pos' := F.Line(pos.file, pos.at, end), F.Spot(pos.file, end);
    var rows' := S.Handle(rows, kinds(l));
    forall a: F.Spot | LineStart(files, from, a) && NotPast(a, pos')
      ensures S.HandleAll(rows', Between(kinds, files, a, last)) ==
              S.HandleAll(start, Between(kinds, files, from, last))
    {
      if NotPast(a, pos) {
        LineAbsorbed(kinds, files, a, l, last, rows);
      } else {
        assert a == pos' && NotPast(pos, pos);
        LineThen(kinds, files, pos, last, end, rows);
      }
    }
  }

  lemma OneMoreSaid(kinds: Kinds, file: nat, x: Span, rest: seq<Span>)
    ensures Said(kinds, file, [x] + rest) == [kinds(F.Line(file, x.start, x.end))] + Said(kinds, file, rest)
  {
  }

  lemma OneSaid(kinds: Kinds, files: seq<string>, pos: F.Spot, last: nat, end: nat)
    requires pos.file <= last < |files| && LineEnd(files[pos.file], pos.at) == Some(end)
    ensures Between(kinds, files, pos, last) ==
            [kinds(F.Line(pos.file, pos.at, end))] + Between(kinds, files, F.Spot(pos.file, end), last)
  {
    hide Said;
    var text := files[pos.file];
    var here, rest := Lines(text, pos.at), Lines(text, end);
    assert here == [Span(pos.at, end)] + rest;
    hide Lines, LineEnd;
    OneMoreSaid(kinds, pos.file, Span(pos.at, end), rest);
    var line, said := kinds(F.Line(pos.file, pos.at, end)), Said(kinds, pos.file, rest);
    var later := if pos.file == last then [] else Between(kinds, files, F.Spot(pos.file + 1, 0), last);
    assert ([line] + said) + later == [line] + (said + later);
  }

  lemma NothingSaid(kinds: Kinds, files: seq<string>, pos: F.Spot, last: nat)
    requires pos.file < last < |files| && LineEnd(files[pos.file], pos.at).None?
    ensures Between(kinds, files, pos, last) == Between(kinds, files, F.Spot(pos.file + 1, 0), last)
  {
    hide Said;
    assert Lines(files[pos.file], pos.at) == [];
    hide Lines, LineEnd;
    assert Said(kinds, pos.file, []) == [];
    var next := Between(kinds, files, F.Spot(pos.file + 1, 0), last);
    assert [] + next == next;
  }

  lemma NoPlaceThere(files: seq<string>, from: F.Spot, pos: F.Spot, a: F.Spot)
    requires pos.file < |files| && LineEnd(files[pos.file], pos.at).None? && LineStart(files, from, a)
    requires NotPast(a, F.Spot(pos.file + 1, 0)) && !NotPast(a, pos)
    ensures a == F.Spot(pos.file + 1, 0)
  {
  }

  // At the end of a file, on to the next one.
  lemma NextFile(kinds: Kinds, files: seq<string>, from: F.Spot, start: seq<S.Row>, rows: seq<S.Row>, pos: F.Spot,
                 last: nat)
    requires Settled(kinds, files, from, start, rows, pos, last) && pos.file < last
    requires LineEnd(files[pos.file], pos.at).None?
    ensures Settled(kinds, files, from, start, rows, F.Spot(pos.file + 1, 0), last)
  {
    var pos' := F.Spot(pos.file + 1, 0);
    forall a: F.Spot | LineStart(files, from, a) && NotPast(a, pos')
      ensures S.HandleAll(rows, Between(kinds, files, a, last)) ==
              S.HandleAll(start, Between(kinds, files, from, last))
    {
      hide LineEnd, Between, S.HandleAll;
      if !NotPast(a, pos) {
        NoPlaceThere(files, from, pos, a);
        NothingSaid(kinds, files, pos, last);
        assert NotPast(pos, pos);
      }
    }
  }

  // ---- what is written

  lemma SaidJoins(kinds: Kinds, file: nat, one: seq<Span>, two: seq<Span>)
    ensures Said(kinds, file, one + two) == Said(kinds, file, one) + Said(kinds, file, two)
  {
  }

  lemma MoreOfFile(kinds: Kinds, file: nat, text: string, more: string, at: nat)
    requires Boundary(text, at)
    ensures Said(kinds, file, Lines(text + more, at)) ==
            Said(kinds, file, Lines(text, at)) + Said(kinds, file, Lines(text + more, Last(text)))
  {
    PassesAddUp(text, more, at);
    LinesAreLines(text, at);
    hide Lines, Last;
    SaidJoins(kinds, file, Lines(text, at), Lines(text + more, Last(text)));
  }

  lemma {:induction false} MoreSaid(kinds: Kinds, files: seq<string>, more: string, a: F.Spot, last: nat)
    requires a.file <= last < |files| && Boundary(files[a.file], a.at)
    ensures var text := files[last];
            Between(kinds, files[last := text + more], a, last) ==
            Between(kinds, files, a, last) + Said(kinds, last, Lines(text + more, Last(text)))
    decreases last - a.file
  {
    hide Lines, Last, Said;
    var text := files[last];
    if a.file == last {
      MoreOfFile(kinds, last, text, more, a.at);
    } else {
      var next := F.Spot(a.file + 1, 0);
      MoreSaid(kinds, files, more, next, last);
      var (here, there, later) := (Said(kinds, a.file, Lines(files[a.file], a.at)), Between(kinds, files, next, last),
                                  Said(kinds, last, Lines(text + more, Last(text))));
      assert here + (there + later) == (here + there) + later;
    }
  }

  lemma {:induction false} SameBetween(kinds: Kinds, files: seq<string>, files': seq<string>, a: F.Spot, last: nat)
    requires a.file <= last < |files| <= |files'| && forall i | 0 <= i <= last :: files'[i] == files[i]
    ensures Between(kinds, files', a, last) == Between(kinds, files, a, last)
    decreases last - a.file
  {
    hide Lines, Said;
    if a.file < last {
      SameBetween(kinds, files, files', F.Spot(a.file + 1, 0), last);
    }
  }

  lemma WrittenLater(kinds: Kinds, files: seq<string>, files': seq<string>, from: F.Spot, start: seq<S.Row>,
                     rows: seq<S.Row>, pos: F.Spot, last: nat)
    requires Settled(kinds, files, from, start, rows, pos, last)
    requires |files| <= |files'| && forall i | 0 <= i <= last :: files'[i] == files[i]
    ensures Settled(kinds, files', from, start, rows, pos, last)
  {
    SameBetween(kinds, files, files', from, last);
    forall a: F.Spot | LineStart(files', from, a) && NotPast(a, pos)
      ensures LineStart(files, from, a)
      ensures Between(kinds, files', a, last) == Between(kinds, files, a, last)
    {
      SameBetween(kinds, files, files', a, last);
    }
  }

  lemma WrittenOn(kinds: Kinds, files: seq<string>, more: string, from: F.Spot, start: seq<S.Row>, rows: seq<S.Row>,
                  pos: F.Spot, last: nat)
    requires Settled(kinds, files, from, start, rows, pos, last) && LineStart(files, from, from)
    ensures Settled(kinds, files[last := files[last] + more], from, start, rows, pos, last)
  {
    var text := files[last];
    var files', said := files[last := text + more], Said(kinds, last, Lines(text + more, Last(text)));
    BoundaryStaysAll(files, more, last, pos);
    MoreSaid(kinds, files, more, from, last);
    HandleAllJoins(start, Between(kinds, files, from, last), said);
    forall a: F.Spot | LineStart(files', from, a) && NotPast(a, pos)
      ensures S.HandleAll(rows, Between(kinds, files', a, last)) ==
              S.HandleAll(start, Between(kinds, files', from, last))
    {
      assert LineStart(files, from, a);
      MoreSaid(kinds, files, more, a, last);
      HandleAllJoins(rows, Between(kinds, files, a, last), said);
    }
  }

  lemma BoundaryStaysAll(files: seq<string>, more: string, last: nat, pos: F.Spot)
    requires pos.file <= last < |files| && Boundary(files[pos.file], pos.at)
    ensures var files' := files[last := files[last] + more];
            && Boundary(files'[pos.file], pos.at)
            && forall a: F.Spot | NotPast(a, pos) && Boundary(files'[a.file], a.at) :: Boundary(files[a.file], a.at)
  {
    if pos.file == last {
      BoundaryStays(files[last], more, pos.at);
    }
  }

  // The next file is one of those read.
  lemma {:induction false} LastGrowsBy(kinds: Kinds, files: seq<string>, a: F.Spot, last: nat)
    requires a.file <= last && last + 1 < |files|
    ensures Between(kinds, files, a, last + 1) ==
            Between(kinds, files, a, last) + Said(kinds, last + 1, Lines(files[last + 1], 0))
    decreases last - a.file
  {
    hide Lines, Said;
    var here, more := Said(kinds, a.file, Lines(files[a.file], a.at)), Said(kinds, last + 1, Lines(files[last + 1], 0));
    if a.file < last {
      var next := F.Spot(a.file + 1, 0);
      LastGrowsBy(kinds, files, next, last);
      assert here + (Between(kinds, files, next, last) + more) == (here + Between(kinds, files, next, last)) + more;
    } else {
      assert Between(kinds, files, F.Spot(last + 1, 0), last + 1) == more + [];
    }
  }

  lemma LastIsNext(kinds: Kinds, files: seq<string>, from: F.Spot, start: seq<S.Row>, rows: seq<S.Row>, pos: F.Spot,
                   last: nat)
    requires Settled(kinds, files, from, start, rows, pos, last) && last + 1 < |files|
    ensures Settled(kinds, files, from, start, rows, pos, last + 1)
  {
    var more := Said(kinds, last + 1, Lines(files[last + 1], 0));
    LastGrowsBy(kinds, files, from, last);
    HandleAllJoins(start, Between(kinds, files, from, last), more);
    forall a: F.Spot | LineStart(files, from, a) && NotPast(a, pos)
      ensures S.HandleAll(rows, Between(kinds, files, a, last + 1)) ==
              S.HandleAll(start, Between(kinds, files, from, last + 1))
    {
      LastGrowsBy(kinds, files, a, last);
      HandleAllJoins(rows, Between(kinds, files, a, last), more);
    }
  }
}
