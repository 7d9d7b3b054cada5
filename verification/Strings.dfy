/** The string operations of Go's standard library the tables and addresses are read with. */
module Strings {

  // Folds A to Z only: asciiLower, and strings.ToLower of an ASCII string.
  function Lower(s: string): (r: string)
    ensures |r| == |s|
  {
    seq(|s|, i requires 0 <= i < |s| => if 'A' <= s[i] <= 'Z' then s[i] - 'A' + 'a' else s[i])
  }

  const UPPER := "ABCDEFGHIJKLMNOPQRSTUVWXYZ"
  const LOWER := "abcdefghijklmnopqrstuvwxyz"

  // Letter by letter, and nothing but letters.
  lemma LowerIs(s: string, t: string)
    ensures Lower(UPPER) == LOWER && Lower(s + t) == Lower(s) + Lower(t)
    ensures (forall c | c in s :: c < 'A' || c > 'Z') ==> Lower(s) == s
  {
    assert forall i | 0 <= i < |s| :: s[i] in s;
  }

  // strings.IndexByte, |s| for none.
  function IndexOf(s: string, c: char): (i: nat)
    ensures i <= |s| && c !in s[..i] && (i < |s| ==> s[i] == c)
  {
    if s == "" || s[0] == c then 0 else
      var k := IndexOf(s[1..], c);
      assert s[..k + 1] == [s[0]] + s[1..][..k];
      1 + k
  }

  // strings.LastIndexByte, -1 for none.
  function LastIndexOf(s: string, c: char): (i: int)
    ensures -1 <= i < |s| && (i >= 0 ==> s[i] == c) && forall k | i < k < |s| :: s[k] != c
  {
    if s == "" then -1
    else if s[|s| - 1] == c then |s| - 1
    else LastIndexOf(s[..|s| - 1], c)
  }

  function TrimLeft(s: string, cut: set<char>): (r: string)
    ensures r != "" ==> r[0] !in cut
  {
    if s != "" && s[0] in cut then TrimLeft(s[1..], cut) else s
  }

  function TrimRight(s: string, cut: set<char>): (r: string)
    ensures r <= s && (r != "" ==> r[|r| - 1] !in cut)
  {
    if s != "" && s[|s| - 1] in cut then TrimRight(s[..|s| - 1], cut) else s
  }

  lemma {:induction false} TrimLeftIs(left: string, s: string, cut: set<char>)
    requires (forall c | c in left :: c in cut) && (s != "" ==> s[0] !in cut)
    ensures TrimLeft(left + s, cut) == s
  {
    if left == "" {
      assert left + s == s;
    } else {
      assert (left + s)[1..] == left[1..] + s;
      TrimLeftIs(left[1..], s, cut);
    }
  }

  lemma {:induction false} TrimRightIs(s: string, right: string, cut: set<char>)
    requires (forall c | c in right :: c in cut) && (s != "" ==> s[|s| - 1] !in cut)
    ensures TrimRight(s + right, cut) == s
  {
    if right == "" {
      assert s + right == s;
    } else {
      var n := |right| - 1;
      assert (s + right)[..|s| + n] == s + right[..n];
      TrimRightIs(s, right[..n], cut);
    }
  }

  // The white space of the Latin-1 range.
  const SPACES := {' ', '\t', '\n', '\r', 11 as char, 12 as char, 0x85 as char, 0xA0 as char}

  function TrimSpace(s: string): string {
    TrimRight(TrimLeft(s, SPACES), SPACES)
  }

  // strings.Split around one character.
  function Split(s: string, sep: char): (parts: seq<string>)
    ensures |parts| > 0 && forall i | 0 <= i < |parts| :: sep !in parts[i]
    decreases |s|
  {
    var i := IndexOf(s, sep);
    if i == |s| then (assert s[..i] == s; [s]) else [s[..i]] + Split(s[i + 1..], sep)
  }

  function Join(parts: seq<string>, sep: string): string {
    if parts == [] then ""
    else if |parts| == 1 then parts[0]
    else parts[0] + sep + Join(parts[1..], sep)
  }

  // strings.FieldsFunc: the maximal runs of characters that separate nothing.
  function Fields(s: string, seps: set<char>): (fields: seq<string>)
    ensures forall f | f in fields :: f != "" && forall c | c in f :: c !in seps
    decreases |s|
  {
    if s == "" then []
    else if s[0] in seps then Fields(s[1..], seps)
    else
      var n := Run(s, seps);
      [s[..n]] + Fields(s[n..], seps)
  }

  function Run(s: string, seps: set<char>): (n: nat)
    ensures n <= |s| && (forall c | c in s[..n] :: c !in seps) && (n < |s| ==> s[n] in seps)
    ensures s != "" && s[0] !in seps ==> n > 0
  {
    if s == "" || s[0] in seps then 0 else
      var k := Run(s[1..], seps);
      assert s[..k + 1] == [s[0]] + s[1..][..k];
      1 + k
  }

  lemma {:induction false} IndexUnique(s: string, c: char, i: nat)
    requires i < |s| && s[i] == c && c !in s[..i]
    ensures IndexOf(s, c) == i
  {
    if i > 0 {
      assert s[0] in s[..i] && s[1..][..i - 1] == s[..i][1..];
      IndexUnique(s[1..], c, i - 1);
    }
  }

  lemma {:induction false} LastIndexUnique(s: string, c: char, i: nat)
    requires i < |s| && s[i] == c && c !in s[i + 1..]
    ensures LastIndexOf(s, c) == i
  {
    var n := |s| - 1;
    if i < n {
      assert s[i + 1..][n - i - 1] == s[n];
      assert s[..n][i + 1..] == s[i + 1..][..n - i - 1];
      LastIndexUnique(s[..n], c, i);
    }
  }

  lemma SplitCons(line: string, sep: char, rest: string)
    requires sep !in line
    ensures Split(line + [sep] + rest, sep) == [line] + Split(rest, sep)
  {
    var s := line + [sep] + rest;
    assert s[..|line|] == line;
    IndexUnique(s, sep, |line|);
    assert s[|line| + 1..] == rest;
  }

  lemma {:induction false} RunUnique(s: string, seps: set<char>, n: nat)
    requires n <= |s| && (forall i | 0 <= i < n :: s[i] !in seps) && (n < |s| ==> s[n] in seps)
    ensures Run(s, seps) == n
  {
    if n > 0 {
      RunUnique(s[1..], seps, n - 1);
    }
  }

  // Joining fields with one separator and splitting them again.
  lemma {:induction false} FieldsOfJoin(parts: seq<string>, sep: char, seps: set<char>)
    requires sep in seps
    requires forall i | 0 <= i < |parts| :: parts[i] != "" && forall c | c in parts[i] :: c !in seps
    ensures Fields(Join(parts, [sep]), seps) == parts
    decreases |parts|
  {
    if parts != [] {
      var s := Join(parts, [sep]);
      var p := parts[0];
      assert p[0] in p;
      if |parts| == 1 {
        RunUnique(s, seps, |p|);
        assert s[..|p|] == p && s[|p|..] == "";
      } else {
        var rest := Join(parts[1..], [sep]);
        assert s == p + ([sep] + rest);
        RunUnique(s, seps, |p|);
        assert s[..|p|] == p && s[|p|..] == [sep] + rest;
        assert ([sep] + rest)[1..] == rest;
        FieldsOfJoin(parts[1..], sep, seps);
      }
    }
  }
}
