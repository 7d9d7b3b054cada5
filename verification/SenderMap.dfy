/**
 The sender map: rendered from the bindings by internal/postfix, read back by the sender check of
 internal/milter as Postfix reads a texthash table, and looked up as Postfix looks it up. Strings are ASCII.
 */
module SenderMap {
  import opened Strings
  import opened Wrappers

  // One sender to login pair; the address is an address or "@domain".
  datatype Binding = Binding(address: string, login: string)

  datatype Error = Unsafe(value: string)

  const ADDRESS_FORBIDDEN: set<char> := {' ', '\t', '\r', '\n', ',', ':', '\\'}
  const LOGIN_FORBIDDEN: set<char> := ADDRESS_FORBIDDEN + {'@'}

  predicate Safe(value: string, forbidden: set<char>) {
    value != "" && forall c | c in value :: c !in forbidden
  }

  // assertMapSafe
  predicate MapSafe(b: Binding) {
    Safe(b.address, ADDRESS_FORBIDDEN) && Safe(b.login, LOGIN_FORBIDDEN)
  }

  ghost predicate AllSafe(bs: seq<Binding>) {
    forall i | 0 <= i < |bs| :: MapSafe(bs[i])
  }

  // ---- rendering

  // The addresses as the file has them, each once, in the order they first come.
  function Keys(bs: seq<Binding>): seq<string> {
    if bs == [] then [] else
      var keys, a := Keys(bs[..|bs| - 1]), Lower(bs[|bs| - 1].address);
      if a in keys then keys else keys + [a]
  }

  // The logins bound to an address, each once.
  function LoginsOf(bs: seq<Binding>, addr: string): seq<string> {
    if bs == [] then [] else
      var logins, b := LoginsOf(bs[..|bs| - 1], addr), bs[|bs| - 1];
      if Lower(b.address) == addr && b.login !in logins then logins + [b.login] else logins
  }

  ghost predicate Distinct(s: seq<string>) {
    forall i, j | 0 <= i < j < |s| :: s[i] != s[j]
  }

  // Go's order of strings: byte by byte, a prefix first.
  predicate AtMost(a: string, b: string) {
    a == "" || (b != "" && (a[0] < b[0] || (a[0] == b[0] && AtMost(a[1..], b[1..]))))
  }

  function Insert(s: seq<string>, x: string): (r: seq<string>)
    ensures multiset(r) == multiset(s) + multiset{x}
  {
    if s == [] || AtMost(x, s[0]) then [x] + s else
      assert s == [s[0]] + s[1..];
      [s[0]] + Insert(s[1..], x)
  }

  // sort.Strings
  function Sort(s: seq<string>): (r: seq<string>)
    ensures multiset(r) == multiset(s)
  {
    if s == [] then [] else
      assert s == [s[0]] + s[1..];
      Insert(Sort(s[1..]), s[0])
  }

  function LineOf(bs: seq<Binding>, addr: string): string {
    addr + " " + Join(Sort(LoginsOf(bs, addr)), ",")
  }

  function RenderFrom(bs: seq<Binding>, order: seq<string>): string {
    if order == [] then "" else LineOf(bs, order[0]) + "\n" + RenderFrom(bs, order[1..])
  }

  function Render(bs: seq<Binding>): string {
    RenderFrom(bs, Sort(Keys(bs)))
  }

  lemma {:induction false} RenderSnoc(bs: seq<Binding>, order: seq<string>, addr: string)
    ensures RenderFrom(bs, order + [addr]) == RenderFrom(bs, order) + LineOf(bs, addr) + "\n"
  {
    if order == [] {
      assert [addr][1..] == [];
    } else {
      assert (order + [addr])[1..] == order[1..] + [addr];
      RenderSnoc(bs, order[1..], addr);
    }
  }

  method AppendUnique(list: seq<string>, v: string) returns (r: seq<string>)
    ensures r == With(list, v)
  {
    for i := 0 to |list|
      invariant v !in list[..i]
    {
      if list[i] == v {
        return list;
      }
    }
    return list + [v];
  }

  lemma NoBindings(bs: seq<Binding>)
    ensures AllSafe(bs[..0]) && Keys(bs[..0]) == [] && forall a :: LoginsOf(bs[..0], a) == []
  {
  }

  lemma NextBinding(bs: seq<Binding>, i: nat)
    requires i < |bs|
    ensures AllSafe(bs[..i + 1]) <==> AllSafe(bs[..i]) && MapSafe(bs[i])
    ensures var (keys, a) := (Keys(bs[..i]), Lower(bs[i].address));
            Keys(bs[..i + 1]) == if a in keys then keys else keys + [a]
    ensures forall a :: LoginsOf(bs[..i + 1], a) ==
                        var logins := LoginsOf(bs[..i], a);
                        if Lower(bs[i].address) == a && bs[i].login !in logins then logins + [bs[i].login] else logins
    ensures AllSafe(bs) ==> AllSafe(bs[..i + 1])
  {
    assert bs[..i + 1][..i] == bs[..i] && bs[..i + 1][i] == bs[i];
    hide MapSafe, Lower;
  }

  // What the loop has gathered from the first bindings: the addresses in order, and the logins under each.
  ghost predicate Gathered(bs: seq<Binding>, byAddr: map<string, seq<string>>, order: seq<string>) {
    && order == Keys(bs)
    && (forall a :: a in byAddr <==> a in order)
    && (forall a | a in byAddr :: byAddr[a] == LoginsOf(bs, a))
    && (forall a | a !in byAddr :: LoginsOf(bs, a) == [])
  }

  function With(logins: seq<string>, v: string): seq<string> {
    if v in logins then logins else logins + [v]
  }

  lemma GatherOne(bs: seq<Binding>, i: nat, byAddr: map<string, seq<string>>, order: seq<string>)
    requires i < |bs| && Gathered(bs[..i], byAddr, order)
    ensures var (a, login) := (Lower(bs[i].address), bs[i].login);
            Gathered(bs[..i + 1],
                     byAddr[a := With(if a in byAddr then byAddr[a] else [], login)],
                     if a in byAddr then order else order + [a])
  {
    NextBinding(bs, i);
    hide Lower, Keys, LoginsOf;
  }

  // The logins under each address, and the addresses in the order they first come; or the first value that
  // is not safe to write.
  method Collect(bs: seq<Binding>) returns (unsafe: Option<Error>, byAddr: map<string, seq<string>>, order: seq<string>)
    ensures unsafe.None? <==> AllSafe(bs)
    ensures unsafe.None? ==> Gathered(bs, byAddr, order)
  {
    NoBindings(bs);
    unsafe, byAddr, order := None, map[], [];
    assert Gathered(bs[..0], byAddr, order);
    hide Lower, Gathered, AllSafe, MapSafe, Safe;
    for i := 0 to |bs|
      invariant unsafe.None? && AllSafe(bs[..i]) && Gathered(bs[..i], byAddr, order)
    {
      NextBinding(bs, i);
      if !MapSafe(bs[i]) {
        unsafe := Some(Unsafe(if Safe(bs[i].address, ADDRESS_FORBIDDEN) then bs[i].login else bs[i].address));
        return;
      }
      GatherOne(bs, i, byAddr, order);
      var addr := Lower(bs[i].address);
      var logins := AppendUnique(if addr in byAddr then byAddr[addr] else [], bs[i].login);
      if addr !in byAddr {
        order := order + [addr];
      }
      byAddr := byAddr[addr := logins];
    }
    assert bs[..|bs|] == bs;
  }

  // The renderer refuses exactly the bindings with an unsafe address or login among them.
  method RenderSenderLoginMaps(bs: seq<Binding>) returns (res: Result<string, Error>)
    ensures res.Ok? <==> AllSafe(bs)
    ensures res.Ok? ==> res.value == Render(bs)
  {
    var unsafe, byAddr, keys := Collect(bs);
    if unsafe.Some? {
      return Err(unsafe.value);
    }
    var order := Sort(keys);
    SameMembers(keys, order);
    var text := WriteLines(bs, byAddr, order);
    return Ok(text);
  }

  method WriteLines(ghost bs: seq<Binding>, byAddr: map<string, seq<string>>, order: seq<string>) returns (text: string)
    requires forall a | a in order :: a in byAddr && byAddr[a] == LoginsOf(bs, a)
    ensures text == RenderFrom(bs, order)
  {
    hide Sort, Join, LoginsOf;
    text := "";
    for i := 0 to |order|
      invariant text == RenderFrom(bs, order[..i])
    {
      var line := order[i] + " " + Join(Sort(byAddr[order[i]]), ",");
      RenderSnoc(bs, order[..i], order[i]);
      assert order[..i + 1] == order[..i] + [order[i]];
      assert line == LineOf(bs, order[i]);
      text := text + line + "\n";
    }
    assert order[..|order|] == order;
  }

  lemma SameMembers(s: seq<string>, r: seq<string>)
    requires multiset(r) == multiset(s)
    ensures |r| == |s| && forall x :: x in r <==> x in s
    ensures Distinct(s) ==> Distinct(r)
  {
    forall x ensures x in r <==> x in s {
      assert x in r <==> x in multiset(r);
      assert x in s <==> x in multiset(s);
    }
    assert |r| == |multiset(r)| == |s|;
    if Distinct(s) {
      forall i, j | 0 <= i < j < |r| ensures r[i] != r[j] {
        if r[i] == r[j] {
          Twice(r, i, j);
          Once(s, r[i]);
        }
      }
    }
  }

  lemma Twice(r: seq<string>, i: nat, j: nat)
    requires i < j < |r| && r[i] == r[j]
    ensures multiset(r)[r[i]] >= 2
  {
    assert r == r[..j] + [r[j]] + r[j + 1..];
    assert r[i] in r[..j];
    assert multiset(r) == multiset(r[..j]) + multiset{r[j]} + multiset(r[j + 1..]);
  }

  lemma {:induction false} Once(s: seq<string>, x: string)
    requires Distinct(s)
    ensures multiset(s)[x] <= 1
  {
    if s != [] {
      var n := |s| - 1;
      Once(s[..n], x);
      assert s == s[..n] + [s[n]];
      if s[n] == x {
        assert x !in s[..n];
      }
    }
  }
}
