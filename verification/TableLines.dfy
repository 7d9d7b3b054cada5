/** The lines of a texthash table, said as a grammar, against the sender check's reading of them (milter, sender.go). */
module TableLines {
  import opened Wrappers
  import opened Strings
  import opened SenderCheck

  // ---- logical lines

  predicate AllIn(s: string, cs: set<char>) {
    forall c | c in s :: c in cs
  }

  // Something that is no comment, with nothing to trim at its ends.
  predicate Text(t: string) {
    t != "" && t[0] !in {' ', '\t', '#', '\r'} && t[|t| - 1] != '\r'
  }

  lemma TrimmedIs(blanks: string, t: string, ends: string)
    requires AllIn(blanks, {' ', '\t'}) && AllIn(ends, {'\r'}) && Text(t)
    ensures TrimRight(blanks + t + ends, {'\r'}) == blanks + t && TrimLeft(blanks + t, BLANKS) == t
  {
    TrimRightIs(blanks + t, ends, {'\r'});
    TrimLeftIs(blanks, t, BLANKS);
    hide TrimLeft, TrimRight;
  }

  // A line that starts with a blank goes on with the one before it; any other starts one.
  lemma LineIs(lines: seq<string>, blanks: string, t: string, ends: string)
    requires AllIn(blanks, {' ', '\t'}) && AllIn(ends, {'\r'}) && Text(t)
    ensures var before := Logical(lines);
            Logical(lines + [blanks + t + ends]) ==
            if blanks == "" || before == [] then before + [t]
            else before[..|before| - 1] + [before[|before| - 1] + (blanks + t)]
  {
    TrimmedIs(blanks, t, ends);
    assert (lines + [blanks + t + ends])[..|lines|] == lines;
    hide TrimLeft, TrimRight;
  }

  // Empty lines and comments are none.
  lemma NoteIs(lines: seq<string>, blanks: string, rest: string)
    requires AllIn(blanks, {' ', '\t'}) && (AllIn(rest, {'\r'}) || rest[0] == '#')
    ensures Logical(lines + [blanks + rest]) == Logical(lines)
  {
    var raw := blanks + rest;
    assert (lines + [raw])[..|lines|] == lines;
    if AllIn(rest, {'\r'}) {
      EmptyNote(blanks, rest);
    } else {
      CommentNote(blanks, rest);
    }
    hide TrimLeft, TrimRight;
  }

  lemma EmptyNote(blanks: string, rest: string)
    requires AllIn(blanks, {' ', '\t'}) && AllIn(rest, {'\r'})
    ensures TrimLeft(TrimRight(blanks + rest, {'\r'}), BLANKS) == ""
  {
    assert blanks != "" ==> blanks[|blanks| - 1] in blanks;
    TrimRightIs(blanks, rest, {'\r'});
    assert blanks + "" == blanks;
    TrimLeftIs(blanks, "", BLANKS);
    hide TrimLeft, TrimRight;
  }

  lemma CommentNote(blanks: string, rest: string)
    requires AllIn(blanks, {' ', '\t'}) && rest != "" && rest[0] == '#'
    ensures var t := TrimLeft(TrimRight(blanks + rest, {'\r'}), BLANKS); t != "" && t[0] == '#'
  {
    var text := TrimRight(rest, {'\r'});
    EndsOff(rest);
    assert rest == text + rest[|text|..] && text != "";
    TrimRightIs(blanks + text, rest[|text|..], {'\r'});
    assert blanks + rest == (blanks + text) + rest[|text|..];
    TrimLeftIs(blanks, text, BLANKS);
    hide TrimLeft, TrimRight;
  }

  lemma {:induction false} EndsOff(s: string)
    requires s != "" && s[0] == '#'
    ensures var t := TrimRight(s, {'\r'}); t != "" && t <= s && t[0] == '#' && AllIn(s[|t|..], {'\r'})
  {
    if s[|s| - 1] == '\r' {
      var front := s[..|s| - 1];
      EndsOff(front);
      var t := TrimRight(front, {'\r'});
      assert s[|t|..] == front[|t|..] + [s[|s| - 1]];
    }
  }

  // ---- key and value

  // Between quotation marks: no quotation mark or backslash but after a backslash.
  predicate Quotable(q: string)
    decreases |q|
  {
    || q == ""
    || (q[0] == '\\' && |q| > 1 && Quotable(q[2..]))
    || (q[0] !in {'\\', '"'} && Quotable(q[1..]))
  }

  // A piece of a key: a character after a backslash, a text in quotes, or any other character but a blank.
  ghost predicate Piece(u: string) {
    || (|u| == 2 && u[0] == '\\')
    || (|u| == 1 && u[0] !in {'\\', '"', ' ', '\t'})
    || exists q :: Quotable(q) && u == "\"" + q + "\""
  }

  function Whole(pieces: seq<string>): string {
    if pieces == [] then "" else pieces[0] + Whole(pieces[1..])
  }

  lemma {:induction false} QuoteEnds(line: string, i: nat, q: string, rest: string)
    requires i <= |line| && line[i..] == q + rest && Quotable(q)
    ensures KeyEnd(line, i, true) == KeyEnd(line, i + |q|, true)
    decreases |q|
  {
    if q != "" {
      var n := if q[0] == '\\' then 2 else 1;
      assert line[i] == q[0] && line[i + n..] == q[n..] + rest;
      QuoteEnds(line, i + n, q[n..], rest);
    }
  }

  lemma PieceEnds(line: string, i: nat, u: string, rest: string)
    requires i <= |line| && line[i..] == u + rest && Piece(u)
    ensures KeyEnd(line, i, false) == KeyEnd(line, i + |u|, false)
  {
    assert line[i] == u[0];
    if q :| Quotable(q) && u == "\"" + q + "\"" {
      assert line[i + 1..] == q + ("\"" + rest);
      QuoteEnds(line, i + 1, q, "\"" + rest);
      assert line[i + 1 + |q|] == '"';
    }
  }

  lemma {:induction false} PiecesEnd(line: string, i: nat, pieces: seq<string>, rest: string)
    requires i <= |line| && line[i..] == Whole(pieces) + rest && forall u | u in pieces :: Piece(u)
    ensures KeyEnd(line, i, false) == KeyEnd(line, i + |Whole(pieces)|, false)
    decreases |pieces|
  {
    if pieces != [] {
      var u, more := pieces[0], Whole(pieces[1..]);
      assert line[i..] == u + (more + rest);
      PieceEnds(line, i, u, more + rest);
      assert line[i + |u|..] == more + rest;
      hide Piece, KeyEnd;
      PiecesEnd(line, i + |u|, pieces[1..], rest);
    }
  }

  // A key of such pieces ends at the first blank after them, and the value is what follows, its blanks at the ends
  // trimmed; a line without key or value is ignored.
  lemma KeyAndValueAre(pieces: seq<string>, blanks: string, value: string, ends: string)
    requires forall u | u in pieces :: Piece(u)
    requires AllIn(blanks, {' ', '\t'}) && AllIn(ends, {' ', '\t'}) && blanks != ""
    requires value != "" ==> value[0] !in {' ', '\t'} && value[|value| - 1] !in {' ', '\t'}
    ensures var key := Whole(pieces);
            SplitTableLine(key + (blanks + value + ends)) ==
            if key != "" && value != "" then Some((key, value)) else None
  {
    var key, rest := Whole(pieces), blanks + value + ends;
    var line := key + rest;
    PiecesEnd(line, 0, pieces, rest);
    assert line[|key|] == blanks[0] && blanks[0] in blanks;
    assert KeyEnd(line, 0, false) == (|key|, false);
    ValueIs(blanks, value, ends);
    assert line[..|key|] == key && line[|key|..] == rest;
    hide KeyEnd, TrimLeft, TrimRight;
  }

  lemma ValueIs(blanks: string, value: string, ends: string)
    requires AllIn(blanks, {' ', '\t'}) && AllIn(ends, {' ', '\t'})
    requires value != "" ==> value[0] !in {' ', '\t'} && value[|value| - 1] !in {' ', '\t'}
    ensures TrimRight(TrimLeft(blanks + value + ends, BLANKS), BLANKS) == value
  {
    if value == "" {
      assert blanks + value + ends == (blanks + ends) + "";
      TrimLeftIs(blanks + ends, "", BLANKS);
    } else {
      assert blanks + value + ends == blanks + (value + ends);
      TrimLeftIs(blanks, value + ends, BLANKS);
      TrimRightIs(value, ends, BLANKS);
    }
  }

  // A line that ends within quotes is ignored.
  lemma OpenQuoteIsIgnored(pieces: seq<string>, q: string)
    requires (forall u | u in pieces :: Piece(u)) && Quotable(q)
    ensures SplitTableLine(Whole(pieces) + ("\"" + q)) == None
  {
    var key := Whole(pieces);
    var line := key + ("\"" + q);
    PiecesEnd(line, 0, pieces, "\"" + q);
    assert line[|key|] == '"' && line[|key| + 1..] == q + "";
    QuoteEnds(line, |key| + 1, q, "");
    assert KeyEnd(line, |line|, true) == (|line|, true);
  }
}
