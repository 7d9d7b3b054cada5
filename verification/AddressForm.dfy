/**
 A recipient in the form Postfix logs it (recipientAsLogged in milter) against the grammar the delivery lines
 are read by (loggedAddress and deliveryRe in logtail).
 */
module AddressForm {
  import opened Wrappers
  import opened Strings

  const ANGLES := {'<', '>'}
  const SPECIALS := {'(', ')', '<', '>', '@', ',', ';', ':', '\\', '"', '[', ']'}

  // ---- the form

  predicate AtomChar(c: char) {
    c != ' ' && c >= 32 as char && c != 127 as char && c !in SPECIALS
  }

  predicate IsDotString(s: string) {
    && s != "" && s[0] != '.' && s[|s| - 1] != '.'
    && (forall i | 0 <= i < |s| - 1 :: !(s[i] == '.' && s[i + 1] == '.'))
    && (forall i | 0 <= i < |s| :: AtomChar(s[i]))
  }

  // The characters of an atom are letters, digits, the marks of section 3.2.3 of RFC 5322, the dot, and those past
  // ASCII.
  lemma AtomCharIs(c: char)
    ensures AtomChar(c) <==>
            || 'a' <= c <= 'z' || 'A' <= c <= 'Z' || '0' <= c <= '9' || c >= 128 as char || c == '.'
            || c in {'!', '#', '$', '%', '&', '\'', '*', '+', '-', '/', '=', '?', '^', '_', '`', '{', '|', '}', '~'}
  {
  }

  predicate IsAtom(s: string) {
    s != "" && forall c | c in s :: AtomChar(c)
  }

  predicate AreAtoms(parts: seq<string>) {
    forall i | 0 <= i < |parts| :: IsAtom(parts[i])
  }

  // A dot-string is atoms joined by single dots.
  lemma {:induction false} DotStringIsAtoms(s: string)
    ensures IsDotString(s) <==> AreAtoms(Split(s, '.'))
    decreases |s|
  {
    hide *;
    var i := IndexOf(s, '.');
    DotSplits(s);
    if i < |s| {
      DotStringIsAtoms(s[i + 1..]);
      FirstAtom(s, i);
      AtomsCons(s[..i], Split(s[i + 1..], '.'));
    } else {
      assert s[..i] == s;
      OneAtom(s);
      AtomsCons(s, []);
      assert [s] + [] == [s];
    }
  }

  lemma DotSplits(s: string)
    ensures var i := IndexOf(s, '.');
            Split(s, '.') == if i == |s| then [s] else [s[..i]] + Split(s[i + 1..], '.')
  {
    hide IndexOf;
  }

  lemma AtomsCons(p: string, parts: seq<string>)
    ensures AreAtoms([p] + parts) <==> IsAtom(p) && AreAtoms(parts)
    ensures AreAtoms([])
  {
    var all := [p] + parts;
    assert all[0] == p && all[1..] == parts;
    if AreAtoms(all) {
      forall i | 0 <= i < |parts| ensures IsAtom(parts[i]) {
        assert parts[i] == all[i + 1];
      }
    }
    hide IsAtom;
  }

  lemma OneAtom(s: string)
    requires '.' !in s
    ensures IsDotString(s) <==> IsAtom(s)
  {
    assert forall k | 0 <= k < |s| :: s[k] in s && s[k] != '.';
    hide AtomChar;
  }

  lemma FirstAtom(s: string, i: nat)
    requires i < |s| && s[i] == '.' && '.' !in s[..i]
    ensures IsDotString(s) <==> IsAtom(s[..i]) && IsDotString(s[i + 1..])
  {
    var head, rest := s[..i], s[i + 1..];
    assert AtomChar('.');
    assert forall k | 0 <= k < i :: s[k] == head[k] && s[k] in head && s[k] != '.';
    assert forall k | i < k < |s| :: s[k] == rest[k - i - 1];
    assert forall k | 0 <= k < |rest| :: rest[k] == s[k + i + 1];
    hide AtomChar;
  }

  predicate Escaped(c: char) {
    c in {'"', '\\', '\r'}
  }

  function Escape(s: string): string {
    if s == "" then "" else Escape(s[..|s| - 1]) + (if Escaped(s[|s| - 1]) then "\\" else "") + [s[|s| - 1]]
  }

  function Quote(local: string): string {
    if IsDotString(local) then local else "\"" + Escape(local) + "\""
  }

  function Blank(c: char): char {
    if c in {' ', '\t', '\r', '\n'} then ' ' else c
  }

  function Blanked(s: string): (r: string)
    ensures |r| == |s|
  {
    seq(|s|, i requires 0 <= i < |s| => Blank(s[i]))
  }

  // What is between the quotes, a backslash dropped before the character it escapes.
  function Unescape(s: string): string
    decreases |s|
  {
    if s == "" then ""
    else if s[0] == '\\' && |s| > 1 then [Blank(s[1])] + Unescape(s[2..])
    else [Blank(s[0])] + Unescape(s[1..])
  }

  predicate InQuotes(local: string) {
    |local| >= 2 && local[0] == '"' && local[|local| - 1] == '"'
  }

  function Unquote(local: string): string {
    if InQuotes(local) then Unescape(local[1..|local| - 1]) else local
  }

  // A local part is unquoted exactly if it is in quotes at both ends.
  lemma UnquoteIs(local: string)
    ensures forall s :: local == "\"" + s + "\"" ==> Unquote(local) == Unescape(s)
    ensures (forall s :: local != "\"" + s + "\"") ==> Unquote(local) == local
  {
    forall s | local == "\"" + s + "\"" ensures local[1..|local| - 1] == s {
    }
    if InQuotes(local) {
      assert local == "\"" + local[1..|local| - 1] + "\"";
    }
  }

  function Clean(a: string): string {
    TrimRight(TrimLeft(TrimSpace(a), ANGLES), ANGLES)
  }

  // The address of a command is what is between the angle brackets, and between the blanks around them.
  lemma CleanIs(before: string, open: string, a: string, close: string, after: string)
    requires forall c | c in before + after :: c in SPACES
    requires forall c | c in open + close :: c in {'<', '>'}
    requires a != "" && a[0] !in {'<', '>'} && a[|a| - 1] !in {'<', '>'}
    requires (open == "" ==> a[0] !in SPACES) && (close == "" ==> a[|a| - 1] !in SPACES)
    ensures Clean(before + (open + a + close) + after) == a
  {
    hide *;
    var inner := open + a + close;
    BracketsAround(open, a, close);
    assert before + inner + after == before + (inner + after) && inner == open + (a + close);
    assert forall c | c in before || c in after :: c in before + after;
    assert forall c | c in open || c in close :: c in open + close;
    CleanParts(before, inner, after, open, a, close);
  }

  lemma CleanParts(before: string, inner: string, after: string, open: string, a: string, close: string)
    requires (forall c | c in before :: c in SPACES) && (forall c | c in after :: c in SPACES)
    requires inner != "" && inner[0] !in SPACES && inner[|inner| - 1] !in SPACES && inner == open + (a + close)
    requires (forall c | c in open :: c in {'<', '>'}) && (forall c | c in close :: c in {'<', '>'})
    requires a != "" && a[0] !in {'<', '>'} && a[|a| - 1] !in {'<', '>'}
    ensures Clean(before + (inner + after)) == a
  {
    hide TrimLeft, TrimRight;
    assert (inner + after)[0] == inner[0] && (a + close)[0] == a[0];
    TrimLeftIs(before, inner + after, SPACES);
    TrimRightIs(inner, after, SPACES);
    TrimLeftIs(open, a + close, ANGLES);
    TrimRightIs(a, close, ANGLES);
  }

  lemma BracketsAround(open: string, a: string, close: string)
    requires forall c | c in open + close :: c in {'<', '>'}
    requires a != ""
    requires (open == "" ==> a[0] !in SPACES) && (close == "" ==> a[|a| - 1] !in SPACES)
    ensures var inner := open + a + close;
            inner != "" && inner[0] !in SPACES && inner[|inner| - 1] !in SPACES
  {
    var inner := open + a + close;
    if open != "" {
      assert open[0] in open + close && inner[0] == open[0];
    }
    if close != "" {
      assert close[|close| - 1] in open + close && inner[|inner| - 1] == close[|close| - 1];
    }
  }

  // The local part, and the domain with its "@".
  function Parts(a: string): (string, string) {
    var at := LastIndexOf(a, '@');
    if at >= 0 then (a[..at], a[at..]) else (a, "")
  }

  function AsLogged(addr: string): string {
    var a := Clean(addr);
    var (local, domain) := Parts(a);
    Quote(Unquote(local)) + domain
  }

  method DotString(s: string) returns (ok: bool)
    ensures ok == IsDotString(s)
  {
    if s == "" || s[0] == '.' || s[|s| - 1] == '.' {
      return false;
    }
    for i := 0 to |s| - 1
      invariant forall k | 0 <= k < i :: !(s[k] == '.' && s[k + 1] == '.')
    {
      if s[i] == '.' && s[i + 1] == '.' {
        return false;
      }
    }
    for i := 0 to |s|
      invariant forall k | 0 <= k < i :: AtomChar(s[k])
    {
      if s[i] == ' ' || s[i] < 32 as char || s[i] == 127 as char || s[i] in SPECIALS {
        return false;
      }
    }
    return true;
  }

  method QuoteLocalPart(local: string) returns (r: string)
    ensures r == Quote(local)
  {
    var dot := DotString(local);
    if dot {
      return local;
    }
    r := "\"";
    for i := 0 to |local|
      invariant r == "\"" + Escape(local[..i])
    {
      assert local[..i + 1][..i] == local[..i];
      if local[i] == '"' || local[i] == '\\' || local[i] == '\r' {
        r := r + "\\";
      }
      r := r + [local[i]];
    }
    assert local[..|local|] == local;
    r := r + "\"";
  }

  method UnquoteLocalPart(local: string) returns (b: string)
    requires InQuotes(local)
    ensures b == Unquote(local)
  {
    b := "";
    var i := 1;
    while i < |local| - 1
      invariant 1 <= i <= |local| - 1
      invariant Unescape(local[1..|local| - 1]) == b + Unescape(local[i..|local| - 1])
    {
      ghost var left, before := local[i..|local| - 1], b;
      var c := local[i];
      if c == '\\' && i + 1 < |local| - 1 {
        i := i + 1;
        c := local[i];
        assert left[1] == c && left[2..] == local[i + 1..|local| - 1];
      } else {
        assert left[1..] == local[i + 1..|local| - 1];
      }
      if c == ' ' || c == '\t' || c == '\r' || c == '\n' {
        c := ' ';
      }
      b := b + [c];
      i := i + 1;
      assert Unescape(left) == [c] + Unescape(local[i..|local| - 1]);
      assert before + ([c] + Unescape(local[i..|local| - 1])) == b + Unescape(local[i..|local| - 1]);
    }
    assert local[i..|local| - 1] == "" && b + "" == b;
  }

  method RecipientAsLogged(addr: string) returns (r: string)
    ensures r == AsLogged(addr)
  {
    var (local, domain) := Parts(Clean(addr));
    hide Quote, Clean, Parts, Unescape;
    if InQuotes(local) {
      local := UnquoteLocalPart(local);
    }
    var quoted := QuoteLocalPart(local);
    r := quoted + domain;
  }

  // ---- quoting and unquoting

  lemma {:induction false} EscapeCons(c: char, s: string)
    ensures Escape([c] + s) == (if Escaped(c) then "\\" else "") + [c] + Escape(s)
    decreases |s|
  {
    var n := |s| - 1;
    if s == "" {
      assert [c] + s == [c] && [c][..0] == "";
    } else {
      assert ([c] + s)[..n + 1] == [c] + s[..n];
      EscapeCons(c, s[..n]);
    }
  }

  lemma {:induction false} UnescapeOfEscape(s: string)
    ensures Unescape(Escape(s)) == Blanked(s)
  {
    if s != "" {
      var c, rest := s[0], s[1..];
      assert s == [c] + rest;
      EscapeCons(c, rest);
      UnescapeOfEscape(rest);
      var e := Escape(s);
      assert Blanked(s) == [Blank(c)] + Blanked(rest);
      if Escaped(c) {
        assert e[1] == c && e[2..] == Escape(rest);
      } else {
        assert e[1..] == Escape(rest);
      }
    }
  }

  lemma BlankedIs(s: string)
    ensures Blanked(s) == s <==> '\t' !in s && '\r' !in s && '\n' !in s
  {
    if Blanked(s) == s {
      assert forall i | 0 <= i < |s| :: Blank(s[i]) == s[i];
    }
  }

  lemma DotStringIs(s: string)
    requires IsDotString(s)
    ensures forall c | c in s :: AtomChar(c)
    ensures !InQuotes(s)
  {
    assert AtomChar(s[0]);
  }

  // Unquoting what was quoted gives the local part back, but for its tabs and line ends, which become spaces.
  lemma UnquoteOfQuote(local: string)
    ensures Unquote(Quote(local)) == if IsDotString(local) then local else Blanked(local)
    ensures Unquote(Quote(local)) == local <==> '\t' !in local && '\r' !in local && '\n' !in local
  {
    BlankedIs(local);
    if IsDotString(local) {
      DotStringIs(local);
    } else {
      UnescapeOfEscape(local);
      assert Quote(local)[1..|Quote(local)| - 1] == Escape(local);
    }
    hide IsDotString, Blanked, Unescape, Escape;
  }

  // What is logged of a recipient given in the logged form is that form, its blanks spaces: no second pass, by
  // Postfix or by the panel, changes it.
  lemma LoggedFormStays(local: string, domain: string)
    requires '@' !in domain && Clean(Quote(local) + ("@" + domain)) == Quote(local) + ("@" + domain)
    ensures AsLogged(Quote(local) + ("@" + domain)) ==
            (if IsDotString(local) then local else Quote(Blanked(local))) + ("@" + domain)
  {
    var quoted, rest := Quote(local), "@" + domain;
    var a := quoted + rest;
    assert a[..|quoted|] == quoted && a[|quoted|..] == rest;
    assert a[|quoted| + 1..] == domain;
    LastIndexUnique(a, '@', |quoted|);
    UnquoteOfQuote(local);
    hide Clean, LastIndexOf, Blanked, IsDotString;
  }

  lemma {:induction false} EscapeInjective(s: string, t: string)
    requires Escape(s) == Escape(t)
    ensures s == t
  {
    if s == "" || t == "" {
      return;
    }
    var e, m, n := Escape(s), |s| - 1, |t| - 1;
    assert s[m] == e[|e| - 1] == t[n];
    var last := if Escaped(s[m]) then 2 else 1;
    assert e[..|e| - last] == Escape(s[..m]) by {
      hide Escaped;
    }
    assert e[..|e| - last] == Escape(t[..n]) by {
      hide Escaped;
    }
    assert s == s[..m] + [s[m]] && t == t[..n] + [t[n]];
    hide Escape;
    EscapeInjective(s[..m], t[..n]);
  }

  // Two recipients logged alike are one recipient.
  lemma QuoteInjective(l1: string, d1: string, l2: string, d2: string)
    requires '@' !in d1 && '@' !in d2 && Quote(l1) + ("@" + d1) == Quote(l2) + ("@" + d2)
    ensures l1 == l2 && d1 == d2
  {
    var a, q1, q2 := Quote(l1) + ("@" + d1), Quote(l1), Quote(l2);
    assert a[|q1| + 1..] == d1 && a[|q2| + 1..] == d2;
    LastIndexUnique(a, '@', |q1|);
    LastIndexUnique(a, '@', |q2|);
    assert q1 == a[..|q1|] == q2;
    hide LastIndexOf;
    QuotedAlike(l1, l2);
  }

  lemma QuotedAlike(l1: string, l2: string)
    requires Quote(l1) == Quote(l2)
    ensures l1 == l2
  {
    if !IsDotString(l1) && !IsDotString(l2) {
      var q := Quote(l1);
      assert q[1..|q| - 1] == Escape(l1) && q[1..|q| - 1] == Escape(l2);
      EscapeInjective(l1, l2);
    }
    assert IsDotString(l1) ==> AtomChar(l1[0]);
    assert IsDotString(l2) ==> AtomChar(l2[0]);
  }

  // ---- the grammar of the delivery line

  // What may stand between the quotes of a quoted local part: no quotation mark or backslash but after a backslash.
  predicate Body(s: string)
    decreases |s|
  {
    || s == ""
    || (s[0] != '"' && s[0] != '\\' && Body(s[1..]))
    || (s[0] == '\\' && |s| > 1 && s[1] != '\n' && Body(s[2..]))
  }

  ghost predicate QuotedAs(s: string, body: string, domain: string) {
    Body(body) && '>' !in domain && s == "\"" + body + ("\"@" + domain)
  }

  ghost predicate Logged(s: string) {
    ('>' !in s && '"' !in s) || Quoted(s)
  }

  // The recipient at the head of text, read up to the ">, " that ends it.
  ghost predicate ReadsAs(text: string, addr: string) {
    Logged(addr) && addr + ">, " <= text
  }

  lemma {:induction false} BodyUnique(b1: string, r1: string, b2: string, r2: string)
    requires Body(b1) && Body(b2) && b1 + ("\"" + r1) == b2 + ("\"" + r2)
    ensures b1 == b2
    decreases |b1|
  {
    var text := b1 + ("\"" + r1);
    assert text[|b1|] == '"' && text[|b2|] == '"';
    if b1 == "" || b2 == "" {
      return;
    }
    assert b1[0] == text[0] == b2[0];
    if b1[0] == '\\' {
      assert b1[2..] + ("\"" + r1) == text[2..] == b2[2..] + ("\"" + r2);
      assert b1[1] == text[1] == b2[1];
      BodyUnique(b1[2..], r1, b2[2..], r2);
      assert b1 == b1[..2] + b1[2..] && b2 == b2[..2] + b2[2..];
    } else {
      assert b1[1..] + ("\"" + r1) == text[1..] == b2[1..] + ("\"" + r2);
      BodyUnique(b1[1..], r1, b2[1..], r2);
    }
  }

  lemma ToTheBracket(a: string, x: string, b: string, y: string)
    requires '>' !in a && '>' !in b && a + (">" + x) == b + (">" + y)
    ensures a == b
  {
    var text := a + (">" + x);
    assert text[..|a|] == a && text[..|b|] == b;
    IndexUnique(text, '>', |a|);
    IndexUnique(text, '>', |b|);
  }

  ghost predicate Quoted(s: string) {
    exists body, domain :: QuotedAs(s, body, domain)
  }

  lemma QuotedStarts(s: string)
    requires Quoted(s)
    ensures s != "" && s[0] == '"' && '"' in s
  {
    var body, domain :| QuotedAs(s, body, domain);
    assert s[0] == '"';
  }

  // The grammar has one reading at most: no text a remote host wrote into an address ends it early or late.
  lemma OneReading(text: string, a: string, b: string)
    requires ReadsAs(text, a) && ReadsAs(text, b)
    ensures a == b
  {
    var x, y := text[|a| + 1..], text[|b| + 1..];
    assert text == a + (">" + x) && text == b + (">" + y);
    assert Logged(a) ==> ('>' !in a && '"' !in a) || Quoted(a);
    assert Logged(b) ==> ('>' !in b && '"' !in b) || Quoted(b);
    if Quoted(a) && Quoted(b) {
      QuotedReading(a, x, b, y);
    } else if !Quoted(a) && !Quoted(b) {
      ToTheBracket(a, x, b, y);
    } else if Quoted(b) {
      PlainOrQuoted(a, x, b, y);
    } else {
      PlainOrQuoted(b, y, a, x);
    }
  }

  lemma PlainOrQuoted(a: string, x: string, b: string, y: string)
    requires '>' !in a && '"' !in a && a + (">" + x) == b + (">" + y)
    ensures !Quoted(b)
  {
    var text := b + (">" + y);
    assert a != "" ==> a[0] in a && text[0] == a[0];
    assert a == "" ==> text[0] == '>';
    assert b != "" ==> text[0] == b[0];
    if Quoted(b) {
      QuotedStarts(b);
    }
  }

  lemma QuotedReading(a: string, x: string, b: string, y: string)
    requires Quoted(a) && Quoted(b)
    requires a + (">" + x) == b + (">" + y)
    ensures a == b
  {
    var body1, domain1 :| QuotedAs(a, body1, domain1);
    var body2, domain2 :| QuotedAs(b, body2, domain2);
    var text := a + (">" + x);
    var r1, r2 := "@" + domain1 + (">" + x), "@" + domain2 + (">" + y);
    assert text[1..] == body1 + ("\"" + r1) && text[1..] == body2 + ("\"" + r2);
    BodyUnique(body1, r1, body2, r2);
    assert domain1 + (">" + x) == text[|body1| + 3..] == domain2 + (">" + y);
    ToTheBracket(domain1, x, domain2, y);
  }

  lemma {:induction false} BodyAppend(s: string, t: string)
    requires Body(s) && Body(t)
    ensures Body(s + t)
    decreases |s|
  {
    if s == "" {
      assert s + t == t;
    } else if s[0] == '\\' {
      assert (s + t)[2..] == s[2..] + t;
      BodyAppend(s[2..], t);
    } else {
      assert (s + t)[1..] == s[1..] + t;
      BodyAppend(s[1..], t);
    }
  }

  lemma {:induction false} EscapeIsBody(s: string)
    ensures Body(Escape(s))
  {
    if s != "" {
      var c := s[|s| - 1];
      EscapeIsBody(s[..|s| - 1]);
      var last := (if Escaped(c) then "\\" else "") + [c];
      assert last[1..] == (if Escaped(c) then [c] else "");
      assert Escaped(c) ==> last[2..] == "";
      assert Body(last);
      BodyAppend(Escape(s[..|s| - 1]), last);
      assert Escape(s) == Escape(s[..|s| - 1]) + last;
    }
  }

  // When a logged recipient is one the grammar reads: always, but for a plain local part with a quotation mark
  // in the domain.
  lemma FormIsLogged(local: string, domain: string)
    requires '>' !in domain
    ensures Logged(Quote(local) + ("@" + domain)) <==> !(IsDotString(local) && '"' in domain)
  {
    var form := Quote(local) + ("@" + domain);
    if IsDotString(local) {
      DotStringIs(local);
      assert form == local + ("@" + domain) && form[0] == local[0] && local[0] in local;
      hide IsDotString, QuotedAs;
      if Quoted(form) {
        QuotedStarts(form);
      }
      assert '"' in form <==> '"' in domain;
    } else {
      EscapeIsBody(local);
      assert form == "\"" + Escape(local) + ("\"@" + domain);
      assert QuotedAs(form, Escape(local), domain);
    }
  }

  // The recipient of a delivery line: its logged form with ">, " and any text after it is read as that form and
  // as nothing else - exactly where the form is one the grammar has, else not at all.
  lemma DeliveryReadsTheRecipient(local: string, domain: string, rest: string, addr: string)
    requires '>' !in domain
    ensures var form := Quote(local) + ("@" + domain);
            ReadsAs(form + (">, " + rest), addr) <==> addr == form && !(IsDotString(local) && '"' in domain)
  {
    var form := Quote(local) + ("@" + domain);
    var text := form + (">, " + rest);
    FormIsLogged(local, domain);
    assert form + ">, " <= text;
    hide Logged, Quote, IsDotString;
    if ReadsAs(text, addr) {
      if IsDotString(local) && '"' in domain {
        PlainNotRead(local, domain, rest, addr);
      } else {
        OneReading(text, addr, form);
      }
    }
  }

  lemma PlainNotRead(local: string, domain: string, rest: string, addr: string)
    requires '>' !in domain && IsDotString(local) && '"' in domain
    ensures !ReadsAs(Quote(local) + ("@" + domain) + (">, " + rest), addr)
  {
    var form := Quote(local) + ("@" + domain);
    var text := form + (">, " + rest);
    DotStringIs(local);
    assert form == local + ("@" + domain) && text[0] == local[0] && local[0] in local;
    hide IsDotString, QuotedAs;
    if ReadsAs(text, addr) {
      var y := text[|addr| + 1..];
      assert text == addr + (">" + y) && text == form + (">" + (", " + rest));
      if Quoted(addr) {
        QuotedStarts(addr);
      } else {
        ToTheBracket(addr, y, form, ", " + rest);
      }
    }
  }

  // Such a recipient, as a client can send it: a@b\"c is logged as it is, and no delivery line is read as its.
  lemma QuoteInTheDomain(rest: string, addr: string)
    ensures AsLogged("a@b\\\"c") == "a@b\\\"c"
    ensures !ReadsAs("a@b\\\"c" + (">, " + rest), addr)
  {
    var given, local, domain := "a@b\\\"c", "a", "b\\\"c";
    assert given == local + ("@" + domain) && IsDotString(local) && Quote(local) == local;
    assert domain[2] == '"';
    DeliveryReadsTheRecipient(local, domain, rest, addr);
    assert TrimSpace(given) == given && Clean(given) == given;
    assert given[2..] == domain && given[..1] == local && given[1..] == "@" + domain;
    assert '@' !in given[2..];
    LastIndexUnique(given, '@', 1);
    hide LastIndexOf, ReadsAs, Clean;
    assert Parts(given) == (local, "@" + domain);
  }

  // ---- the fields of the line

  ghost predicate Fields2(text: string, to: string, orig: Option<string>, tail: string) {
    && Logged(to) && (orig.Some? ==> Logged(orig.value))
    && text == to + ">, " + (if orig.Some? then "orig_to=<" + orig.value + ">, " else "") + ("relay=" + tail)
  }

  // After "to=<": the recipients of a delivery line and what follows "relay=" can be read in one way only, so
  // nothing inside a logged address, or in the reply, passes for the line's own fields.
  lemma FieldsAreTheLines(text: string, to: string, orig: Option<string>, tail: string,
                          to': string, orig': Option<string>, tail': string)
    requires Fields2(text, to, orig, tail) && Fields2(text, to', orig', tail')
    ensures to == to' && orig == orig' && tail == tail'
  {
    FirstField(text, to, orig, tail);
    FirstField(text, to', orig', tail');
    OneReading(text, to, to');
    hide Logged, Fields2;
    OrigIsOne(orig, tail, orig', tail');
  }

  lemma FirstField(text: string, to: string, orig: Option<string>, tail: string)
    requires Fields2(text, to, orig, tail)
    ensures ReadsAs(text, to) && (orig.Some? ==> Logged(orig.value))
    ensures text[|to + ">, "|..] ==
            (if orig.Some? then "orig_to=<" + orig.value + ">, " else "") + ("relay=" + tail)
  {
    hide Logged;
    var rest := (if orig.Some? then "orig_to=<" + orig.value + ">, " else "") + ("relay=" + tail);
    assert text == (to + ">, ") + rest;
  }

  lemma OrigIsOne(orig: Option<string>, tail: string, orig': Option<string>, tail': string)
    requires (orig.Some? ==> Logged(orig.value)) && (orig'.Some? ==> Logged(orig'.value))
    requires (if orig.Some? then "orig_to=<" + orig.value + ">, " else "") + ("relay=" + tail) ==
             (if orig'.Some? then "orig_to=<" + orig'.value + ">, " else "") + ("relay=" + tail')
    ensures orig == orig' && tail == tail'
  {
    hide Logged;
    var rest := (if orig.Some? then "orig_to=<" + orig.value + ">, " else "") + ("relay=" + tail);
    assert rest[0] == if orig.Some? then 'o' else 'r';
    assert rest[0] == if orig'.Some? then 'o' else 'r';
    if orig.Some? {
      var after := rest[9..];
      assert after == orig.value + ">, " + ("relay=" + tail);
      assert after == orig'.value + ">, " + ("relay=" + tail');
      OneReading(after, orig.value, orig'.value);
      assert "relay=" + tail == after[|orig.value| + 3..] == "relay=" + tail';
    } else {
      assert rest == "relay=" + tail && rest == "relay=" + tail';
    }
    SameTail(tail, tail');
  }

  lemma SameTail(tail: string, tail': string)
    requires "relay=" + tail == "relay=" + tail'
    ensures tail == tail'
  {
    assert ("relay=" + tail)[6..] == tail && ("relay=" + tail')[6..] == tail';
  }
}
