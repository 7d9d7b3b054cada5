/**
 The sender map written by the panel and read by the sender check: what comes back, and what Allowed makes
 of it.
 */
module SenderMapRoundTrip {
  import opened Strings
  import opened Wrappers
  import opened SenderMap
  import opened SenderCheck

  predicate OddQuotes(s: string) {
    s != "" && (s[0] == '"') != OddQuotes(s[1..])
  }

  // The renderer lets two things through that its reader does not take as part of a key: a quotation mark
  // that is not closed, and a number sign at the start.
  predicate Readable(addr: string) {
    addr != "" && addr[0] != '#' && !OddQuotes(addr)
  }

  ghost function LowerAll(logins: seq<string>): set<string> {
    set l | l in logins :: Lower(l)
  }

  ghost predicate Bound(bs: seq<Binding>, addr: string) {
    exists i | 0 <= i < |bs| :: Lower(bs[i].address) == addr
  }

  ghost predicate Owns(bs: seq<Binding>, login: string, addr: string) {
    exists i | 0 <= i < |bs| :: Lower(bs[i].address) == addr && Lower(bs[i].login) == login
  }

  // ---- the keys and the logins of the file

  lemma {:induction false} KeysAre(bs: seq<Binding>)
    requires AllSafe(bs)
    ensures Distinct(Keys(bs))
    ensures forall a :: a in Keys(bs) <==> Bound(bs, a)
    ensures forall a | a in Keys(bs) :: Safe(a, ADDRESS_FORBIDDEN) && Lower(a) == a
  {
    if bs != [] {
      var n := |bs| - 1;
      KeysAre(bs[..n]);
      assert MapSafe(bs[n]);
      var last := Lower(bs[n].address);
      forall a ensures Bound(bs, a) <==> Bound(bs[..n], a) || a == last {
        if Bound(bs[..n], a) {
          var i :| 0 <= i < n && Lower(bs[..n][i].address) == a;
          assert Lower(bs[i].address) == a;
        }
        assert a == last ==> Lower(bs[n].address) == a;
      }
      LowerSafe(bs[n].address);
    }
  }

  lemma LowerSafe(s: string)
    requires Safe(s, ADDRESS_FORBIDDEN)
    ensures Safe(Lower(s), ADDRESS_FORBIDDEN) && Lower(Lower(s)) == Lower(s)
  {
    forall i | 0 <= i < |s| ensures Lower(s)[i] !in ADDRESS_FORBIDDEN {
      assert s[i] in s;
    }
  }

  lemma {:induction false} LoginsAre(bs: seq<Binding>, addr: string)
    requires AllSafe(bs)
    ensures forall l | l in LoginsOf(bs, addr) :: Safe(l, LOGIN_FORBIDDEN)
    ensures forall l :: l in LowerAll(LoginsOf(bs, addr)) <==> Owns(bs, l, addr)
    ensures LoginsOf(bs, addr) == [] <==> !Bound(bs, addr)
  {
    if bs != [] {
      var n := |bs| - 1;
      LoginsAre(bs[..n], addr);
      assert MapSafe(bs[n]);
      var here := Lower(bs[n].address) == addr;
      forall l ensures Owns(bs, l, addr) <==> Owns(bs[..n], l, addr) || (here && l == Lower(bs[n].login)) {
        if Owns(bs[..n], l, addr) {
          var i :| 0 <= i < n && Lower(bs[..n][i].address) == addr && Lower(bs[..n][i].login) == l;
          assert Lower(bs[i].address) == addr && Lower(bs[i].login) == l;
        }
      }
      var before, logins := LoginsOf(bs[..n], addr), LoginsOf(bs, addr);
      assert logins == before || logins == before + [bs[n].login];
      assert here ==> bs[n].login in logins;
      if Bound(bs[..n], addr) {
        var i :| 0 <= i < n && Lower(bs[..n][i].address) == addr;
        assert Lower(bs[i].address) == addr;
      }
    }
  }

  // ---- one line

  lemma {:induction false} ScanKey(a: string, rest: string, i: nat, q: bool)
    requires i <= |a| && forall c | c in a :: c !in BLANKS && c != '\\'
    ensures KeyEnd(a + rest, i, q) == KeyEnd(a + rest, |a|, q != OddQuotes(a[i..]))
    decreases |a| - i
  {
    if i < |a| {
      assert a[i] in a && (a + rest)[i] == a[i];
      assert a[i..][0] == a[i] && a[i..][1..] == a[i + 1..];
      ScanKey(a, rest, i + 1, if a[i] == '"' then !q else q);
    }
  }

  lemma ValueTrimmed(joined: string)
    requires joined != "" && forall c | c in joined :: c !in BLANKS
    ensures TrimRight(TrimLeft(" " + joined, BLANKS), BLANKS) == joined
  {
    assert (" " + joined)[1..] == joined;
    assert joined[0] in joined && joined[|joined| - 1] in joined;
    assert TrimLeft(" " + joined, BLANKS) == TrimLeft(joined, BLANKS) == joined;
  }

  // A key with its quotation marks closed ends at the blank after it; with one open, nothing is left for a value.
  lemma LineSplits(a: string, joined: string)
    requires Safe(a, ADDRESS_FORBIDDEN) && joined != "" && forall c | c in joined :: c !in BLANKS && c != '\\'
    ensures SplitTableLine(a + " " + joined) == if OddQuotes(a) then None else Some((a, joined))
  {
    var line := a + " " + joined;
    assert KeyEnd(line, 0, false) == KeyEnd(line, |a|, OddQuotes(a)) by {
      assert line == a + (" " + joined) && a[0..] == a;
      ScanKey(a, " " + joined, 0, false);
    }
    assert line[|a|] == ' ' && line[..|a|] == a && line[|a|..] == " " + joined;
    hide Safe, OddQuotes, TrimLeft, TrimRight;
    if OddQuotes(a) {
      assert KeyEnd(line, |a| + 1, true).0 == |line| by {
        assert line == (a + " ") + joined;
        ScanAll(a + " ", joined, |a| + 1, true);
      }
      assert line[|line|..] == "";
      NothingTrimmed();
    } else {
      ValueTrimmed(joined);
    }
  }

  lemma NothingTrimmed()
    ensures TrimRight(TrimLeft("", BLANKS), BLANKS) == ""
  {
  }

  lemma {:induction false} ScanAll(a: string, rest: string, i: nat, q: bool)
    requires |a| <= i <= |a + rest| && forall c | c in rest :: c !in BLANKS && c != '\\'
    ensures KeyEnd(a + rest, i, q).0 == |a + rest|
    decreases |a + rest| - i
  {
    if i < |a + rest| {
      assert (a + rest)[i] == rest[i - |a|] && rest[i - |a|] in rest;
      ScanAll(a, rest, i + 1, if (a + rest)[i] == '"' then !q else q);
    }
  }

  lemma {:induction false} JoinChars(logins: seq<string>)
    requires forall l | l in logins :: Safe(l, LOGIN_FORBIDDEN)
    ensures forall c | c in Join(logins, ",") :: c !in BLANKS && c != '\\' && c != '\n' && c != '\r'
    ensures logins != [] ==> Join(logins, ",") != ""
  {
    if logins != [] {
      assert logins[0] in logins && forall l | l in logins[1..] :: l in logins;
      JoinChars(logins[1..]);
    }
  }

  // A line of the file is a line of the table, unless it starts as a comment does.
  lemma LineStands(a: string, joined: string, logical: seq<string>)
    requires Safe(a, ADDRESS_FORBIDDEN) && joined != "" && forall c | c in joined :: c != '\r' && c != '\n'
    ensures var line := a + " " + joined;
            && '\n' !in line
            && AddLine(logical, line) == if a[0] == '#' then logical else logical + [line]
  {
    var line := a + " " + joined;
    assert line[|line| - 1] == joined[|joined| - 1] && joined[|joined| - 1] in joined;
    assert a[0] in a && line[0] == a[0];
    assert TrimRight(line, {'\r'}) == line && TrimLeft(line, BLANKS) == line;
  }

  // What one line of the file adds to the table: nothing where its key is not readable, else its owners.
  lemma LineAdds(bs: seq<Binding>, a: string, logical: seq<string>)
    requires AllSafe(bs) && a in Keys(bs) && TableOf(logical).Table? && a !in TableOf(logical).logins
    ensures '\n' !in LineOf(bs, a)
    ensures var t := TableOf(logical);
            TableOf(AddLine(logical, LineOf(bs, a))) == WithLine(bs, a, t)
  {
    var logins := Sort(LoginsOf(bs, a));
    var joined := Join(logins, ",");
    var line := a + " " + joined;
    assert Safe(a, ADDRESS_FORBIDDEN) && Lower(a) == a by {
      KeysAre(bs);
    }
    assert '\n' !in line && AddLine(logical, line) == if a[0] == '#' then logical else logical + [line] by {
      LoginsJoin(bs, a);
      LineStands(a, joined, logical);
    }
    assert SplitTableLine(line) == if OddQuotes(a) then None else Some((a, joined)) by {
      LoginsJoin(bs, a);
      LineSplits(a, joined);
    }
    assert Fields(joined, OWNER_SEPARATORS) == logins by {
      LoginsJoin(bs, a);
      FieldsOfJoin(logins, ',', OWNER_SEPARATORS);
    }
    assert (logical + [line])[..|logical|] == logical;
    hide AddLine, SplitTableLine, Fields, Join, Sort, LoginsOf, Keys, AddOwners, Lower, Safe;
  }

  lemma LoginsJoin(bs: seq<Binding>, a: string)
    requires AllSafe(bs) && a in Keys(bs)
    ensures var logins := Sort(LoginsOf(bs, a));
            && (forall c | c in Join(logins, ",") :: c !in BLANKS && c != '\\' && c != '\n' && c != '\r')
            && Join(logins, ",") != ""
            && (forall i | 0 <= i < |logins| :: logins[i] != "" && forall c | c in logins[i] :: c !in OWNER_SEPARATORS)
  {
    var logins := Sort(LoginsOf(bs, a));
    KeysAre(bs);
    LoginsAre(bs, a);
    SameMembers(LoginsOf(bs, a), logins);
    JoinChars(logins);
    forall i | 0 <= i < |logins| ensures Safe(logins[i], LOGIN_FORBIDDEN) {
      assert logins[i] in logins;
    }
  }

  // ---- the whole file

  function LinesOf(bs: seq<Binding>, order: seq<string>): (lines: seq<string>)
    ensures |lines| == |order|
  {
    if order == [] then [] else LinesOf(bs, order[..|order| - 1]) + [LineOf(bs, order[|order| - 1])]
  }

  lemma {:induction false} LinesCons(bs: seq<Binding>, a: string, order: seq<string>)
    ensures LinesOf(bs, [a] + order) == [LineOf(bs, a)] + LinesOf(bs, order)
  {
    if order == [] {
      assert [a] + order == [a];
    } else {
      var n := |order| - 1;
      assert ([a] + order)[..n + 1] == [a] + order[..n];
      LinesCons(bs, a, order[..n]);
    }
  }

  lemma {:induction false} SplitRendered(bs: seq<Binding>, order: seq<string>)
    requires forall a | a in order :: '\n' !in LineOf(bs, a)
    ensures Split(RenderFrom(bs, order), '\n') == LinesOf(bs, order) + [""]
  {
    if order == [] {
      hide LineOf;
    } else {
      hide *;
      var a, rest := order[0], order[1..];
      assert order == [a] + rest;
      SplitRendered(bs, rest);
      RenderFirst(bs, order);
      SplitCons(LineOf(bs, a), '\n', RenderFrom(bs, rest));
      LinesCons(bs, a, rest);
      assert [LineOf(bs, a)] + (LinesOf(bs, rest) + [""]) == ([LineOf(bs, a)] + LinesOf(bs, rest)) + [""];
    }
  }

  lemma RenderFirst(bs: seq<Binding>, order: seq<string>)
    requires order != []
    ensures RenderFrom(bs, order) == LineOf(bs, order[0]) + ['\n'] + RenderFrom(bs, order[1..])
  {
    hide LineOf;
  }

  lemma LowerAllGrows(owners: seq<string>, n: nat)
    requires |owners| == n + 1
    ensures LowerAll(owners) == LowerAll(owners[..n]) + {Lower(owners[n])}
  {
    hide Lower;
    assert owners == owners[..n] + [owners[n]];
  }

  lemma {:induction false} OwnersAdded(t: Table, sender: string, owners: seq<string>)
    requires t.Table? && sender in t.logins
    ensures var t' := AddOwners(t, sender, owners);
            && (forall a | a in t.logins && a != sender :: t'.logins[a] == t.logins[a])
            && (forall l :: l in t'.logins[sender] <==> l in t.logins[sender] || l in LowerAll(owners))
  {
    if owners != [] {
      var n := |owners| - 1;
      OwnersAdded(t, sender, owners[..n]);
      LowerAllGrows(owners, n);
      hide LowerAll, DomainOf, Lower;
    }
  }

  lemma {:induction false} DomainsAdded(t: Table, sender: string, owners: seq<string>)
    requires t.Table? && sender in t.logins
    ensures var t' := AddOwners(t, sender, owners);
            && (forall l :: l in t'.domains <==> l in t.domains || l in LowerAll(owners))
            && (forall l | l in t'.domains ::
                  t'.domains[l] == if l in t.domains then t.domains[l] else DomainOf(sender))
  {
    if owners != [] {
      var n := |owners| - 1;
      DomainsAdded(t, sender, owners[..n]);
      LowerAllGrows(owners, n);
      hide LowerAll, DomainOf, Lower;
    }
  }

  // The table after the lines of order: its keys, their owners, and the domain of each login.
  ghost predicate KeysHeld(order: seq<string>, t: Table) {
    t.Table? && forall a :: a in t.logins <==> a in order && Readable(a)
  }

  ghost predicate OwnersHeld(bs: seq<Binding>, t: Table) {
    t.Table? && forall a | a in t.logins :: forall l :: l in t.logins[a] <==> Owns(bs, l, a)
  }

  ghost predicate Listed(bs: seq<Binding>, order: seq<string>, l: string, domain: string, a: string) {
    a in order && Readable(a) && Owns(bs, l, a) && domain == DomainOf(a)
  }

  ghost predicate DomainsHeld(bs: seq<Binding>, order: seq<string>, t: Table) {
    && t.Table?
    && (forall a, l | a in order && Readable(a) && Owns(bs, l, a) :: l in t.domains)
    && (forall l | l in t.domains :: exists a :: Listed(bs, order, l, t.domains[l], a))
  }

  ghost predicate Holds(bs: seq<Binding>, order: seq<string>, t: Table) {
    KeysHeld(order, t) && OwnersHeld(bs, t) && DomainsHeld(bs, order, t)
  }

  lemma {:induction false} TableHolds(bs: seq<Binding>, order: seq<string>)
    requires AllSafe(bs) && Distinct(order) && forall a | a in order :: a in Keys(bs)
    ensures Holds(bs, order, TableOf(Logical(LinesOf(bs, order))))
  {
    if order != [] {
      var n := |order| - 1;
      var front, a := order[..n], order[n];
      assert order == front + [a];
      TableHolds(bs, front);
      var logical := Logical(LinesOf(bs, front));
      assert LinesOf(bs, order)[..n] == LinesOf(bs, front);
      LineAdds(bs, a, logical);
      OneLineHolds(bs, front, a, TableOf(logical));
    }
  }

  function WithLine(bs: seq<Binding>, a: string, t: Table): Table
    requires t.Table?
  {
    if !Readable(a) then t else AddOwners(t.(logins := t.logins[a := {}]), a, Sort(LoginsOf(bs, a)))
  }

  lemma OneLineHolds(bs: seq<Binding>, front: seq<string>, a: string, t: Table)
    requires AllSafe(bs) && a in Keys(bs) && a !in front && Holds(bs, front, t)
    ensures Holds(bs, front + [a], WithLine(bs, a, t))
  {
    OwnersOn(bs, front, a, t);
    DomainsOn(bs, front, a, t);
    hide AddOwners, Sort, LoginsOf, Keys, Owns, Readable, LowerAll, AllSafe, DomainsHeld, OwnersHeld, WithLine;
  }

  lemma SortedOwners(bs: seq<Binding>, a: string)
    requires AllSafe(bs)
    ensures forall l :: l in LowerAll(Sort(LoginsOf(bs, a))) <==> Owns(bs, l, a)
  {
    LoginsAre(bs, a);
    SameMembers(LoginsOf(bs, a), Sort(LoginsOf(bs, a)));
    assert LowerAll(Sort(LoginsOf(bs, a))) == LowerAll(LoginsOf(bs, a));
  }

  lemma OwnersOn(bs: seq<Binding>, front: seq<string>, a: string, t: Table)
    requires AllSafe(bs) && a !in front && KeysHeld(front, t) && OwnersHeld(bs, t)
    ensures KeysHeld(front + [a], WithLine(bs, a, t)) && OwnersHeld(bs, WithLine(bs, a, t))
  {
    if Readable(a) {
      SortedOwners(bs, a);
      OwnersAdded(t.(logins := t.logins[a := {}]), a, Sort(LoginsOf(bs, a)));
      hide AddOwners, Sort, LoginsOf, Owns, Readable, LowerAll, AllSafe;
    }
  }

  lemma DomainsOn(bs: seq<Binding>, front: seq<string>, a: string, t: Table)
    requires AllSafe(bs) && DomainsHeld(bs, front, t)
    ensures DomainsHeld(bs, front + [a], WithLine(bs, a, t))
  {
    if Readable(a) {
      SortedOwners(bs, a);
      DomainsAdded(t.(logins := t.logins[a := {}]), a, Sort(LoginsOf(bs, a)));
      hide AddOwners, Sort, LoginsOf, Owns, LowerAll, AllSafe, DomainsHeld;
    }
    hide Owns, Readable, DomainOf;
    ListedOn(bs, front, a, t, WithLine(bs, a, t));
  }

  lemma ListedOn(bs: seq<Binding>, front: seq<string>, a: string, t: Table, t': Table)
    requires DomainsHeld(bs, front, t) && t'.Table?
    requires forall l :: l in t'.domains <==> l in t.domains || (Readable(a) && Owns(bs, l, a))
    requires forall l | l in t'.domains :: t'.domains[l] == if l in t.domains then t.domains[l] else DomainOf(a)
    ensures DomainsHeld(bs, front + [a], t')
  {
    forall l | l in t'.domains ensures exists x :: Listed(bs, front + [a], l, t'.domains[l], x) {
      if l in t.domains {
        var x :| Listed(bs, front, l, t.domains[l], x);
        assert Listed(bs, front + [a], l, t'.domains[l], x);
      } else {
        assert Listed(bs, front + [a], l, t'.domains[l], a);
      }
    }
  }

  // ---- what the sender check makes of the panel's file

  lemma FileHolds(bs: seq<Binding>)
    requires AllSafe(bs)
    ensures Holds(bs, Sort(Keys(bs)), Parse(Render(bs)))
    ensures forall a :: a in Sort(Keys(bs)) <==> Bound(bs, a)
  {
    var order := Sort(Keys(bs));
    KeysAre(bs);
    SameMembers(Keys(bs), order);
    TableHolds(bs, order);
    assert Parse(Render(bs)) == TableOf(Logical(LinesOf(bs, order))) by {
      LinesParsed(bs, order);
      hide Logical, TableOf, LinesOf, Split, Sort, Keys, RenderFrom;
    }
    hide *;
  }

  lemma LinesParsed(bs: seq<Binding>, order: seq<string>)
    requires AllSafe(bs) && forall a | a in order :: a in Keys(bs)
    ensures Logical(Split(RenderFrom(bs, order), '\n')) == Logical(LinesOf(bs, order))
  {
    forall a | a in order ensures '\n' !in LineOf(bs, a) {
      LineAdds(bs, a, []);
    }
    SplitRendered(bs, order);
    hide Split, LineOf, LinesOf, RenderFrom, Keys;
    var lines := LinesOf(bs, order) + [""];
    assert lines[..|order|] == LinesOf(bs, order);
  }

  // Of any bindings the renderer takes, the sender check reads back every readable address with its logins,
  // and nothing else; the table is never one Postfix would refuse.
  lemma RoundTrip(bs: seq<Binding>)
    requires AllSafe(bs)
    ensures var t := Parse(Render(bs));
            && t.Table?
            && (forall a :: a in t.logins <==> Bound(bs, a) && Readable(a))
            && (forall a, l | a in t.logins :: l in t.logins[a] <==> Owns(bs, l, a))
  {
    FileHolds(bs);
  }

  ghost predicate Intended(bs: seq<Binding>, t: Table) {
    && t.Table?
    && (forall a :: a in t.logins <==> Bound(bs, a))
    && (forall a, l | a in t.logins :: l in t.logins[a] <==> Owns(bs, l, a))
  }

  // The table is the bindings exactly when every address is readable: the renderer's own check lets through
  // a quotation mark left open and a leading number sign, and such a line is lost.
  lemma RoundTripExactly(bs: seq<Binding>)
    requires AllSafe(bs)
    ensures Intended(bs, Parse(Render(bs))) <==> forall i | 0 <= i < |bs| :: Readable(Lower(bs[i].address))
  {
    RoundTrip(bs);
    hide Parse, Render, Readable;
    if Intended(bs, Parse(Render(bs))) {
      forall i | 0 <= i < |bs| ensures Readable(Lower(bs[i].address)) {
        assert Bound(bs, Lower(bs[i].address));
      }
    }
  }

  // Two that the renderer takes and the sender check does not read back.
  lemma NumberSignIsLost()
    ensures var bs := [Binding("#a@b", "u")]; AllSafe(bs) && !Intended(bs, Parse(Render(bs)))
  {
    var bs := [Binding("#a@b", "u")];
    assert Lower("#a@b")[0] == '#' && !Readable(Lower(bs[0].address));
    RoundTripExactly(bs);
    hide Parse, Render, Intended;
  }

  lemma {:induction false} NoneIsNotOdd(s: string)
    requires '"' !in s
    ensures !OddQuotes(s)
  {
    if s != "" {
      NoneIsNotOdd(s[1..]);
    }
  }

  lemma OpenQuoteIsLost()
    ensures var bs := [Binding("\"a@b", "u")]; AllSafe(bs) && !Intended(bs, Parse(Render(bs)))
  {
    var bs := [Binding("\"a@b", "u")];
    var s := Lower("\"a@b");
    assert s[0] == '"' && s[1] != '"' && s[2] != '"' && s[3] != '"';
    NoneIsNotOdd(s[1..]);
    assert !Readable(Lower(bs[0].address));
    RoundTripExactly(bs);
    hide Parse, Render, Intended;
  }

  // The address whitelist of the panel's forms, and the "@domain" of a whole domain.
  predicate Whitelisted(addr: string) {
    addr != "" && forall c | c in addr :: 'a' <= c <= 'z' || '0' <= c <= '9' || c in {'.', '-', '_', '+', '@'}
  }

  lemma {:induction false} WhitelistedIsReadable(addr: string)
    requires Whitelisted(addr)
    ensures Readable(addr) && Lower(addr) == addr && Safe(addr, ADDRESS_FORBIDDEN)
  {
    assert addr[0] in addr;
    assert forall i | 0 <= i < |addr| :: addr[i] in addr;
    if addr[1..] != "" {
      assert forall c | c in addr[1..] :: c in addr;
      WhitelistedIsReadable(addr[1..]);
    }
  }

  // The lookup stated on the bindings: the first of the sender's keys that anybody is bound to decides.
  ghost predicate Rule(bs: seq<Binding>, login: string, keys: seq<string>) {
    exists k | 0 <= k < |keys| ::
      Bound(bs, keys[k]) && (forall j | 0 <= j < k :: !Bound(bs, keys[j])) && Owns(bs, login, keys[k])
  }

  lemma {:induction false} OwnedIsRule(bs: seq<Binding>, t: Table, login: string, keys: seq<string>)
    requires Intended(bs, t)
    ensures OwnedBy(t.logins, login, keys) <==> Rule(bs, login, keys)
  {
    if keys != [] {
      var rest := keys[1..];
      OwnedIsRule(bs, t, login, rest);
      if Bound(bs, keys[0]) {
        assert Rule(bs, login, keys) <==> Owns(bs, login, keys[0]);
      } else {
        if Rule(bs, login, rest) {
          var k :| 0 <= k < |rest| && Bound(bs, rest[k]) && (forall j | 0 <= j < k :: !Bound(bs, rest[j]))
              && Owns(bs, login, rest[k]);
          assert keys[k + 1] == rest[k] && forall j | 0 < j < k + 1 :: keys[j] == rest[j - 1];
        }
        if Rule(bs, login, keys) {
          var k :| 0 <= k < |keys| && Bound(bs, keys[k]) && (forall j | 0 <= j < k :: !Bound(bs, keys[j]))
              && Owns(bs, login, keys[k]);
          assert k > 0 && rest[k - 1] == keys[k] && forall j | 0 <= j < k - 1 :: rest[j] == keys[j + 1];
        }
      }
    }
  }

  // Allowed, on the file the panel wrote for its bindings, is the rule on the bindings.
  lemma AllowedIsRule(bs: seq<Binding>, login: string, addr: string)
    requires AllSafe(bs) && forall i | 0 <= i < |bs| :: Readable(Lower(bs[i].address))
    ensures var t := Parse(Render(bs));
            t.Table? && (OwnedBy(t.logins, Lower(login), Candidates(Lower(addr))) <==>
                          Rule(bs, Lower(login), Candidates(Lower(addr))))
  {
    RoundTripExactly(bs);
    OwnedIsRule(bs, Parse(Render(bs)), Lower(login), Candidates(Lower(addr)));
  }

  predicate LoginListed(login: string) {
    login != "" && forall c | c in login ::
      'a' <= c <= 'z' || 'A' <= c <= 'Z' || '0' <= c <= '9' || c in {'.', '-', '_'}
  }

  // What the panel's forms let through, the renderer takes, and the sender check decides by the bindings.
  lemma WhitelistedRoundTrip(bs: seq<Binding>, login: string, addr: string)
    requires forall i | 0 <= i < |bs| :: Whitelisted(bs[i].address) && LoginListed(bs[i].login)
    ensures AllSafe(bs) && Intended(bs, Parse(Render(bs)))
    ensures OwnedBy(Parse(Render(bs)).logins, Lower(login), Candidates(Lower(addr))) <==>
            Rule(bs, Lower(login), Candidates(Lower(addr)))
  {
    forall i | 0 <= i < |bs| ensures MapSafe(bs[i]) && Readable(Lower(bs[i].address))
        && Lower(bs[i].address) == bs[i].address {
      WhitelistedIsReadable(bs[i].address);
    }
    RoundTripExactly(bs);
    AllowedIsRule(bs, login, addr);
  }

  // The keys of a sender: the address, the address without what follows a "+" in its local part that does
  // not stand first, and the domain.
  lemma CandidatesOf(name: string, tag: string, domain: string)
    requires '@' !in domain && domain != "" && '+' !in name && name != ""
    ensures Candidates(name + "+" + tag + "@" + domain) ==
            [name + "+" + tag + "@" + domain, name + "@" + domain, "@" + domain]
  {
    hide *;
    var local, rest := name + "+" + tag, "@" + domain;
    assert local[..|name|] == name && local[|name|] == '+';
    assert rest[0] == '@' && rest[1..] == domain;
    assert local + "@" + domain == local + rest && name + "@" + domain == name + rest;
    IndexUnique(local, '+', |name|);
    KeysOf(local, rest);
  }

  lemma CandidatesWithoutExtension(local: string, domain: string)
    requires '@' !in domain && domain != "" && ('+' !in local || local[0] == '+')
    ensures Candidates(local + "@" + domain) == [local + "@" + domain, "@" + domain]
  {
    hide *;
    var rest := "@" + domain;
    assert local + "@" + domain == local + rest;
    assert rest[0] == '@' && rest[1..] == domain;
    TwoKeys(local, rest);
  }

  lemma TwoKeys(local: string, rest: string)
    requires |rest| > 1 && rest[0] == '@' && '@' !in rest[1..] && ('+' !in local || local[0] == '+')
    ensures Candidates(local + rest) == [local + rest, rest]
  {
    hide *;
    NoExtension(local);
    KeysOf(local, rest);
  }

  lemma NoExtension(local: string)
    requires '+' !in local || local[0] == '+'
    ensures !(0 < IndexOf(local, '+') < |local|)
  {
    var plus := IndexOf(local, '+');
    assert plus > 0 ==> local[..plus][0] == local[0];
    hide IndexOf;
  }

  lemma KeysOf(local: string, rest: string)
    requires |rest| > 1 && rest[0] == '@' && '@' !in rest[1..]
    ensures var (addr, plus) := (local + rest, IndexOf(local, '+'));
            Candidates(addr) == if 0 < plus < |local| then [addr, local[..plus] + rest, rest] else [addr, rest]
  {
    var addr, plus := local + rest, IndexOf(local, '+');
    var bare := if 0 < plus < |local| then local[..plus] + rest else addr;
    assert WithoutExtension(addr) == bare by {
      Bare(local, rest);
    }
    assert 0 <= LastIndexOf(addr, '@') < |addr| - 1 && addr[LastIndexOf(addr, '@')..] == rest by {
      At(local, rest);
    }
    assert 0 < plus < |local| ==> |bare| < |addr|;
    KeysGiven(addr, bare, rest);
    hide *;
  }

  lemma KeysGiven(addr: string, bare: string, rest: string)
    requires WithoutExtension(addr) == bare
    requires 0 <= LastIndexOf(addr, '@') < |addr| - 1 && addr[LastIndexOf(addr, '@')..] == rest
    ensures Candidates(addr) == if bare != addr then [addr, bare, rest] else [addr, rest]
  {
    hide LastIndexOf, WithoutExtension;
  }

  lemma At(local: string, rest: string)
    requires rest != "" && rest[0] == '@' && '@' !in rest[1..]
    ensures var addr := local + rest;
            LastIndexOf(addr, '@') == |local| && addr[..|local|] == local && addr[|local|..] == rest
  {
    var addr := local + rest;
    assert addr[|local| + 1..] == rest[1..];
    LastIndexUnique(addr, '@', |local|);
  }

  lemma Bare(local: string, rest: string)
    requires rest != "" && rest[0] == '@' && '@' !in rest[1..]
    ensures var plus := IndexOf(local, '+');
            WithoutExtension(local + rest) == if 0 < plus < |local| then local[..plus] + rest else local + rest
  {
    hide *;
    var addr, plus := local + rest, IndexOf(local, '+');
    At(local, rest);
    BareGiven(addr, |local|);
    if 0 < plus < |local| {
      assert addr[..plus] == local[..plus];
    }
  }

  lemma BareGiven(addr: string, at: nat)
    requires at < |addr| && LastIndexOf(addr, '@') == at
    ensures var plus := IndexOf(addr[..at], '+');
            WithoutExtension(addr) == if 0 < plus < at then addr[..plus] + addr[at..] else addr
  {
    hide IndexOf, LastIndexOf;
  }

  // A login's domain is the one all its addresses are of.
  lemma DomainOfLogin(bs: seq<Binding>, login: string, domain: string)
    requires AllSafe(bs) && forall i | 0 <= i < |bs| :: Readable(Lower(bs[i].address))
    requires forall i | 0 <= i < |bs| && Lower(bs[i].login) == Lower(login) :: DomainOf(Lower(bs[i].address)) == domain
    ensures var t := Parse(Render(bs));
            && t.Table?
            && (Lower(login) in t.domains <==> exists i | 0 <= i < |bs| :: Lower(bs[i].login) == Lower(login))
            && (Lower(login) in t.domains ==> t.domains[Lower(login)] == domain)
  {
    FileHolds(bs);
    hide Parse, Render, Readable, Keys, Sort, DomainOf;
    var t, l, order := Parse(Render(bs)), Lower(login), Sort(Keys(bs));
    if l in t.domains {
      var a :| Listed(bs, order, l, t.domains[l], a);
      var i :| 0 <= i < |bs| && Lower(bs[i].address) == a && Lower(bs[i].login) == l;
    }
    if i :| 0 <= i < |bs| && Lower(bs[i].login) == l {
      assert Owns(bs, l, Lower(bs[i].address)) && Bound(bs, Lower(bs[i].address));
    }
  }
}
