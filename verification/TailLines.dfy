/** The last lines of the log, read backwards in chunks (TailLines in logtail). */
module TailLines {
  import opened Strings

  const CHUNK_SIZE := 8192

  function Count(s: string, c: char): nat {
    if s == "" then 0 else Count(s[1..], c) + if s[0] == c then 1 else 0
  }

  function LastOf(lines: seq<string>, n: nat): seq<string> {
    if |lines| > n then lines[|lines| - n..] else lines
  }

  // The whole file split, and its last n lines.
  function LastLines(text: string, n: nat): seq<string> {
    var trimmed := TrimRight(text, {'\n'});
    if trimmed == "" then [] else LastOf(Split(trimmed, '\n'), n)
  }

  // The bytes the loop has read when it stops.
  function ReadFrom(text: string, offset: nat, n: nat): (from: nat)
    requires offset <= |text|
    ensures from <= offset && (from == 0 || Count(text[from..], '\n') > n)
    decreases offset
  {
    if offset == 0 || Count(text[offset..], '\n') > n then offset
    else ReadFrom(text, if offset < CHUNK_SIZE then 0 else offset - CHUNK_SIZE, n)
  }

  method Tail(text: string, n: nat) returns (lines: seq<string>)
    ensures lines == LastLines(text[ReadFrom(text, |text|, n)..], n)
    ensures lines == LastLines(text, n) <==> Enough(text, ReadFrom(text, |text|, n), n)
    ensures OneNewlineAtMost(text) ==> lines == LastLines(text, n)
  {
    var buf, offset := ReadBack(text, n);
    EnoughExactly(text, offset, n);
    if OneNewlineAtMost(text) && offset > 0 {
      ChunksSuffice(text, offset, n);
    }
    assert text[0..] == text;
    hide ReadFrom, Count, Split, TrimRight, Enough, OneNewlineAtMost;
    lines := [];
    var trimmed := TrimRight(buf, {'\n'});
    if trimmed != "" {
      lines := Split(trimmed, '\n');
      if |lines| > n {
        lines := lines[|lines| - n..];
      }
    }
  }

  // The chunks from the end of the file back, until they hold more than n newlines.
  method ReadBack(text: string, n: nat) returns (buf: string, offset: nat)
    ensures offset <= |text| && buf == text[offset..] && offset == ReadFrom(text, |text|, n)
    ensures offset > 0 ==> Count(buf, '\n') > n
  {
    buf, offset := "", |text|;
    while offset > 0 && Count(buf, '\n') <= n
      invariant 0 <= offset <= |text| && buf == text[offset..]
      invariant ReadFrom(text, |text|, n) == ReadFrom(text, offset, n)
    {
      var size := CHUNK_SIZE;
      if size > offset {
        size := offset;
      }
      OneChunk(text, offset, n, size);
      hide Count, ReadFrom;
      offset := offset - size;
      var chunk := text[offset..offset + size];
      buf := chunk + buf;
    }
  }

  lemma OneChunk(text: string, offset: nat, n: nat, size: nat)
    requires 0 < offset <= |text| && Count(text[offset..], '\n') <= n
    requires size == if CHUNK_SIZE > offset then offset else CHUNK_SIZE
    ensures ReadFrom(text, offset, n) == ReadFrom(text, offset - size, n)
    ensures text[offset - size..offset] + text[offset..] == text[offset - size..]
  {
    hide Count;
  }

  // The bytes from there on hold the last n lines: they are the whole file; no line is asked for, or none is
  // there; with the newlines at the end off they have n newlines, or one less and start a line.
  predicate Enough(text: string, from: nat, n: nat)
    requires from <= |text|
  {
    var rest := TrimRight(text[from..], {'\n'});
    || from == 0 || n == 0 || TrimRight(text, {'\n'}) == ""
    || Count(rest, '\n') >= n
    || (Count(rest, '\n') == n - 1 && rest != "" && text[from - 1] == '\n')
  }

  predicate OneNewlineAtMost(text: string) {
    |text| < 2 || text[|text| - 1] != '\n' || text[|text| - 2] != '\n'
  }

  // ---- lines of a suffix

  lemma SplitHead(s: string)
    requires s != ""
    ensures Split(s, '\n') ==
            var rest := Split(s[1..], '\n');
            if s[0] == '\n' then [""] + rest else [[s[0]] + rest[0]] + rest[1..]
  {
    var i := IndexOf(s, '\n');
    if s[0] == '\n' {
      assert s[..0] == "";
    } else {
      var t := s[1..];
      var k := IndexOf(t, '\n');
      if k == |t| {
        assert [s[0]] + t == s;
      } else {
        assert s[..k + 1] == [s[0]] + t[..k] && s[k + 2..] == t[k + 1..];
      }
    }
  }

  lemma {:induction false} SplitCount(s: string)
    ensures |Split(s, '\n')| == Count(s, '\n') + 1
  {
    if s != "" {
      SplitHead(s);
      SplitCount(s[1..]);
    }
  }

  // A suffix with n newlines has the last n lines of the whole.
  lemma {:induction false} SuffixLines(s: string, from: nat, n: nat)
    requires from <= |s| && Count(s[from..], '\n') >= n
    ensures LastOf(Split(s, '\n'), n) == LastOf(Split(s[from..], '\n'), n)
    ensures Count(s, '\n') >= n
    decreases from
  {
    if from == 0 {
      assert s[0..] == s;
    } else {
      var t := s[1..];
      assert t[from - 1..] == s[from..];
      SuffixLines(t, from - 1, n);
      SplitHead(s);
      SplitCount(t);
      hide Split;
      LastOfTail(Split(s, '\n'), Split(t, '\n'), n);
    }
  }

  lemma LastOfTail(lines: seq<string>, rest: seq<string>, n: nat)
    requires n < |rest| <= |lines| && lines[|lines| - |rest| + 1..] == rest[1..]
    ensures LastOf(lines, n) == LastOf(rest, n)
  {
    assert lines[|lines| - n..] == lines[|lines| - |rest| + 1..][|rest| - n - 1..];
    assert rest[|rest| - n..] == rest[1..][|rest| - n - 1..];
  }

  lemma TrimOne(s: string)
    requires OneNewlineAtMost(s)
    ensures TrimRight(s, {'\n'}) == if s != "" && s[|s| - 1] == '\n' then s[..|s| - 1] else s
  {
  }

  lemma {:induction false} CountSplit(s: string, at: nat)
    requires at <= |s|
    ensures Count(s, '\n') == Count(s[..at], '\n') + Count(s[at..], '\n')
    decreases at
  {
    if at == 0 {
      assert s[0..] == s;
    } else {
      assert s[1..][..at - 1] == s[..at][1..] && s[1..][at - 1..] == s[at..];
      CountSplit(s[1..], at - 1);
    }
  }

  lemma {:induction false} TrimSuffix(text: string, from: nat)
    requires from <= |text|
    ensures var s := TrimRight(text, {'\n'});
            TrimRight(text[from..], {'\n'}) == if |s| > from then s[from..] else ""
  {
    var m := |text| - 1;
    if from < |text| && text[m] == '\n' {
      var buf := text[from..];
      assert buf[m - from] == '\n' && buf[..m - from] == text[..m][from..];
      assert TrimRight(text, {'\n'}) == TrimRight(text[..m], {'\n'});
      assert TrimRight(buf, {'\n'}) == TrimRight(buf[..m - from], {'\n'});
      hide TrimRight;
      TrimSuffix(text[..m], from);
    } else if from < |text| {
      assert text[from..][m - from] == text[m];
    }
  }

  // The lines of two pieces put together: the last of one and the first of the other are one line.
  function Glued(x: seq<string>, y: seq<string>): seq<string>
    requires x != [] && y != []
  {
    x[..|x| - 1] + [x[|x| - 1] + y[0]] + y[1..]
  }

  // A character more in front.
  function Longer(c: char, x: seq<string>): (r: seq<string>)
    requires x != []
    ensures r != []
  {
    if c == '\n' then [""] + x else [[c] + x[0]] + x[1..]
  }

  lemma LongerGlued(c: char, x: seq<string>, y: seq<string>)
    requires x != [] && y != []
    ensures Glued(x, y) != [] && Longer(c, Glued(x, y)) == Glued(Longer(c, x), y)
  {
    var n, tail := |x| - 1, [x[|x| - 1] + y[0]] + y[1..];
    assert Glued(x, y) == x[..n] + tail;
    if c == '\n' {
      assert ([""] + x)[..n + 1] == [""] + x[..n];
      assert ([""] + x[..n]) + tail == [""] + (x[..n] + tail);
    } else if n == 0 {
      assert [c] + (x[0] + y[0]) == ([c] + x[0]) + y[0];
    } else {
      var r := [[c] + x[0]] + x[1..];
      assert r[..n] == [[c] + x[0]] + x[1..n] && x[..n][1..] == x[1..n];
      assert r[..n] + tail == [[c] + x[0]] + (x[1..n] + tail);
    }
  }

  lemma NothingGlued(y: seq<string>)
    requires y != []
    ensures Glued([""], y) == y
  {
    assert "" + y[0] == y[0];
  }

  lemma LongerSplit(c: char, s: string)
    ensures Split([c] + s, '\n') == Longer(c, Split(s, '\n'))
  {
    SplitHead([c] + s);
    assert ([c] + s)[1..] == s;
  }

  lemma {:induction false} SplitConcat(a: string, b: string)
    ensures Split(a + b, '\n') == Glued(Split(a, '\n'), Split(b, '\n'))
  {
    if a == "" {
      assert a + b == b && Split(a, '\n') == [""];
      NothingGlued(Split(b, '\n'));
    } else {
      hide Split, Glued, Longer;
      var c, rest := a[0], a[1..];
      assert a == [c] + rest && a + b == [c] + (rest + b);
      LongerSplit(c, rest);
      LongerSplit(c, rest + b);
      SplitConcat(rest, b);
      LongerGlued(c, Split(rest, '\n'), Split(b, '\n'));
    }
  }

  lemma LongerLast(c: char, x: seq<string>)
    requires x != []
    ensures var (r, last) := (Longer(c, x), x[|x| - 1]);
            && |r| == |x| + (if c == '\n' then 1 else 0)
            && r[|r| - 1] == if |r| == 1 then [c] + last else last
  {
  }

  lemma {:induction false} LastPiece(a: string)
    ensures var x := Split(a, '\n'); x[|x| - 1] == "" <==> a == "" || a[|a| - 1] == '\n'
    ensures |Split(a, '\n')| == 1 ==> Split(a, '\n')[0] == a
  {
    if a != "" {
      hide Split, Longer;
      var c, rest := a[0], a[1..];
      assert a == [c] + rest;
      LongerSplit(c, rest);
      LongerLast(c, Split(rest, '\n'));
      LastPiece(rest);
      assert rest != "" ==> rest[|rest| - 1] == a[|a| - 1];
    }
  }

  // Fewer lines than asked for, the first of them whole or not.
  lemma LastOfPieces(x: seq<string>, y: seq<string>, n: nat)
    requires x != [] && 0 < |y| <= n && (|x| == 1 ==> x[0] != "")
    ensures LastOf(y, n) == LastOf(Glued(x, y), n) <==> |y| == n && x[|x| - 1] == ""
  {
    var m, z := |x| - 1, Glued(x, y);
    assert LastOf(y, n) == y;
    if |y| == n {
      assert LastOf(z, n) == [x[m] + y[0]] + y[1..];
      assert |x[m] + y[0]| == |x[m]| + |y[0]|;
      assert y == [y[0]] + y[1..];
      assert x[m] == "" ==> x[m] + y[0] == y[0];
    } else if m == 0 {
      assert LastOf(z, n)[0] == x[0] + y[0] && |x[0] + y[0]| > |y[0]|;
    }
  }

  // A text and what is left of it from there on, with no newline at the end of either.
  lemma PiecesExactly(s: string, from: nat, n: nat)
    requires 0 < from < |s| && n > 0
    ensures LastOf(Split(s[from..], '\n'), n) == LastOf(Split(s, '\n'), n) <==>
            Count(s[from..], '\n') >= n || (Count(s[from..], '\n') == n - 1 && s[from - 1] == '\n')
  {
    var a, t := s[..from], s[from..];
    assert s == a + t;
    SplitCount(t);
    if Count(t, '\n') >= n {
      SuffixLines(s, from, n);
    } else {
      SplitConcat(a, t);
      LastPiece(a);
      LastOfPieces(Split(a, '\n'), Split(t, '\n'), n);
      hide Split, Count, Glued, LastOf;
    }
  }

  // Exactly then do they give the last n lines of the file.
  lemma EnoughExactly(text: string, from: nat, n: nat)
    requires from <= |text|
    ensures LastLines(text[from..], n) == LastLines(text, n) <==> Enough(text, from, n)
  {
    TrimSuffix(text, from);
    var s := TrimRight(text, {'\n'});
    if from == 0 {
      assert text[0..] == text;
    } else if |s| > from && n > 0 {
      PiecesExactly(s, from, n);
      hide TrimRight, Split, Count, LastOf;
    } else {
      hide TrimRight, Count;
    }
  }

  // With one trailing newline at most, the chunks read when the loop stops hold the last n lines.
  lemma ChunksSuffice(text: string, from: nat, n: nat)
    requires OneNewlineAtMost(text) && from <= |text| && Count(text[from..], '\n') > n
    ensures Enough(text, from, n) && LastLines(text[from..], n) == LastLines(text, n)
  {
    hide *;
    EnoughExactly(text, from, n);
    SuffixAtMostOne(text, from);
    MostNewlines(text[from..]);
    EnoughByCount(text, from, n);
  }

  lemma SuffixAtMostOne(text: string, from: nat)
    requires OneNewlineAtMost(text) && from <= |text|
    ensures OneNewlineAtMost(text[from..])
  {
  }

  lemma EnoughByCount(text: string, from: nat, n: nat)
    requires from <= |text| && Count(TrimRight(text[from..], {'\n'}), '\n') >= n
    ensures Enough(text, from, n)
  {
    hide TrimRight, Count;
  }

  lemma MostNewlines(s: string)
    requires OneNewlineAtMost(s)
    ensures Count(TrimRight(s, {'\n'}), '\n') + 1 >= Count(s, '\n')
  {
    TrimOne(s);
    var t := TrimRight(s, {'\n'});
    CountSplit(s, |t|);
    assert s[..|t|] == t;
    assert Count(s[|t|..], '\n') <= 1;
  }

  // The condition is needed: blank lines at the end are counted before they are dropped, and the line asked for
  // can then come back cut.
  lemma TwoNewlinesCutALine()
    ensures var text := seq(9000, i => 'x') + "\n\n";
            LastLines(text[ReadFrom(text, |text|, 1)..], 1) != LastLines(text, 1)
  {
    var text := seq(9000, i => 'x') + "\n\n";
    assert text[9002..] == "";
    assert text[810..] == seq(8190, i => 'x') + "\n\n";
    CutAt(text, 8190);
    CutAt(text, 9000);
    assert text[0..] == text;
    NoNewline(8190);
    CountSplit(text[810..], 8190);
    assert text[810..][8190..] == "\n\n" && Count("\n\n", '\n') == 2 by {
      assert "\n\n"[1..] == "\n";
    }
    assert ReadFrom(text, 9002, 1) == 810;
  }

  lemma CutAt(text: string, n: nat)
    requires text == seq(9000, i => 'x') + "\n\n" && n <= 9000
    ensures LastLines(text[9000 - n..], 1) == if n == 0 then [] else [seq(n, i => 'x')]
  {
    var xs := seq(n, i => 'x');
    assert text[9000 - n..] == xs + "\n\n";
    hide *;
    LastOfXs(xs);
  }

  lemma LastOfXs(xs: string)
    requires forall i | 0 <= i < |xs| :: xs[i] == 'x'
    ensures LastLines(xs + "\n\n", 1) == if xs == "" then [] else [xs]
  {
    var s := xs + "\n\n";
    assert TrimRight(s, {'\n'}) == xs by {
      assert s[..|s| - 1] == xs + "\n" && (xs + "\n")[..|xs|] == xs;
      assert TrimRight(s, {'\n'}) == TrimRight(xs + "\n", {'\n'}) == TrimRight(xs, {'\n'}) == xs;
    }
    hide TrimRight;
    assert '\n' !in xs;
  }

  lemma {:induction false} NoNewline(n: nat)
    ensures Count(seq(n, i => 'x'), '\n') == 0
  {
    if n > 0 {
      assert seq(n, i => 'x')[1..] == seq(n - 1, i => 'x');
      NoNewline(n - 1);
    }
  }
}
