/** The header names a DKIM signature covers (signLines in milter), under the selection of section 5.4.2 of RFC 6376. */
module SignLines {
  import opened Wrappers
  import opened Strings

  datatype Field = Field(name: string, value: string)

  const SIGNED := {
    "from", "sender", "reply-to", "subject", "date", "to", "cc",
    "resent-date", "resent-from", "resent-sender", "resent-to", "resent-cc",
    "in-reply-to", "references",
    "list-id", "list-help", "list-unsubscribe", "list-unsubscribe-post",
    "list-subscribe", "list-post", "list-owner", "list-archive",
    "content-type", "mime-version", "message-id"
  }

  const OVER_SIGNED := {"subject", "date", "to", "cc", "reply-to", "sender"}

  predicate Signed(key: string) {
    key in SIGNED
  }

  predicate Shown(key: string) {
    key in OVER_SIGNED
  }

  lemma ShownIsSigned(key: string)
    requires Shown(key) || key == "from"
    ensures Signed(key) && (key == "from" ==> !Shown(key))
  {
  }

  function Name(f: Field): string {
    TrimSpace(f.name)
  }

  function Key(f: Field): string {
    Lower(Name(f))
  }

  // ---- the names, and the block of headers

  // Every signed header, in the order of the message.
  function Own(headers: seq<Field>): seq<string> {
    if headers == [] then [] else
      var f := headers[|headers| - 1];
      Own(headers[..|headers| - 1]) + if Signed(Key(f)) then [Name(f)] else []
  }

  predicate Has(headers: seq<Field>, key: string) {
    exists i | 0 <= i < |headers| :: Key(headers[i]) == key
  }

  // Each header shown that the message has, once, in the order it first comes.
  function Again(headers: seq<Field>): seq<string> {
    if headers == [] then [] else
      var front, f := headers[..|headers| - 1], headers[|headers| - 1];
      Again(front) + if Shown(Key(f)) && !Has(front, Key(f)) then [Name(f)] else []
  }

  function Names(headers: seq<Field>): seq<string> {
    Own(headers) + Again(headers) + ["From"]
  }

  // "\r\n" made "\n", and then every "\n" "\r\n".
  function Joined(v: string): string {
    if v == "" then ""
    else if v[0] == '\r' && |v| > 1 && v[1] == '\n' then "\n" + Joined(v[2..])
    else [v[0]] + Joined(v[1..])
  }

  function Broken(v: string): string {
    if v == "" then "" else (if v[0] == '\n' then "\r\n" else [v[0]]) + Broken(v[1..])
  }

  // A value broken with CRLF is one line for line: joining gives it back, so nothing but line ends was changed.
  lemma {:induction false} BrokenComesBack(v: string)
    ensures Joined(Broken(v)) == v
    ensures Broken(v) != "" ==> Broken(v)[0] != '\n'
  {
    if v != "" {
      BrokenComesBack(v[1..]);
      if v[0] == '\n' {
        assert Broken(v)[2..] == Broken(v[1..]);
      } else {
        assert Broken(v)[1..] == Broken(v[1..]);
      }
    }
  }

  // What joining and breaking do, piece by piece: each CR LF is made one LF, and each LF a CR LF.
  lemma {:induction false} JoinedIs(u: string, v: string)
    ensures Joined(u + "\r\n" + v) == Joined(u) + "\n" + Joined(v)
  {
    var w := u + "\r\n" + v;
    if u == "" {
      assert w[0] == '\r' && w[1] == '\n' && w[2..] == v && Joined(w) == "\n" + Joined(v);
    } else {
      var n := if CrLf(u) then 2 else 1;
      var first, rest := if n == 2 then "\n" else [u[0]], u[n..];
      JoinedFirst(u);
      JoinedFirst(w);
      assert w[n..] == rest + "\r\n" + v && w[0] == u[0] && (|u| > 1 ==> w[1] == u[1])
             && (|u| == 1 ==> w[1] == '\r');
      hide Joined;
      JoinedIs(rest, v);
      assert first + (Joined(rest) + "\n" + Joined(v)) == (first + Joined(rest)) + "\n" + Joined(v);
    }
  }

  predicate CrLf(v: string) {
    |v| > 1 && v[0] == '\r' && v[1] == '\n'
  }

  lemma JoinedFirst(v: string)
    requires v != ""
    ensures Joined(v) == if CrLf(v) then "\n" + Joined(v[2..]) else [v[0]] + Joined(v[1..])
  {
  }

  lemma {:induction false} NothingToJoin(u: string)
    requires forall i | 0 <= i < |u| - 1 :: !(u[i] == '\r' && u[i + 1] == '\n')
    ensures Joined(u) == u
  {
    if u != "" {
      assert forall i | 0 <= i < |u[1..]| :: u[1..][i] == u[i + 1];
      NothingToJoin(u[1..]);
    }
  }

  lemma {:induction false} BrokenIs(u: string, v: string)
    ensures Broken(u + "\n" + v) == Broken(u) + "\r\n" + Broken(v)
    ensures '\n' !in u ==> Broken(u) == u
  {
    var w := u + "\n" + v;
    if u == "" {
      assert w[1..] == v && w[0] == '\n' && Broken(w) == "\r\n" + Broken(v);
    } else {
      var rest := u[1..];
      assert w[1..] == rest + "\n" + v && w[0] == u[0];
      BrokenIs(rest, v);
      var first := if u[0] == '\n' then "\r\n" else [u[0]];
      assert Broken(w) == first + Broken(rest + "\n" + v) && Broken(u) == first + Broken(rest);
      hide Broken;
      assert first + (Broken(rest) + "\r\n" + Broken(v)) == (first + Broken(rest)) + "\r\n" + Broken(v);
    }
  }

  // The header as Postfix delivers it: its value with the same lines, joined with CR LF, and no LF alone.
  predicate Delivers(t: string, v: string) {
    Joined(t) == Joined(v) && forall i | 0 <= i < |t| && t[i] == '\n' :: i > 0 && t[i - 1] == '\r'
  }

  lemma DeliveredIs(v: string)
    ensures Delivers(Broken(Joined(v)), v)
    ensures forall t :: Delivers(t, v) ==> t == Broken(Joined(v))
  {
    BrokenComesBack(Joined(v));
    NoBareNewline(Joined(v));
    forall t | Delivers(t, v) ensures t == Broken(Joined(v)) {
      JoinedComesBack(t);
    }
  }

  lemma {:induction false} NoBareNewline(v: string)
    ensures var t := Broken(v); forall i | 0 <= i < |t| && t[i] == '\n' :: i > 0 && t[i - 1] == '\r'
  {
    if v != "" {
      NoBareNewline(v[1..]);
      var t, n := Broken(v), if v[0] == '\n' then 2 else 1;
      assert forall i | n <= i < |t| :: t[i] == Broken(v[1..])[i - n];
    }
  }

  lemma {:induction false} JoinedComesBack(t: string)
    requires forall i | 0 <= i < |t| && t[i] == '\n' :: i > 0 && t[i - 1] == '\r'
    ensures Broken(Joined(t)) == t
  {
    if t != "" {
      var n := if t[0] == '\r' && |t| > 1 && t[1] == '\n' then 2 else 1;
      var rest := t[n..];
      assert forall i | 0 <= i < |rest| :: rest[i] == t[i + n];
      JoinedComesBack(rest);
      assert Joined(t) == (if n == 2 then "\n" else [t[0]]) + Joined(rest);
      assert (if n == 2 then "\n" else [t[0]]) + Joined(rest) != "";
      assert Joined(t)[1..] == Joined(rest);
    }
  }

  function Lines(headers: seq<Field>): string {
    if headers == [] then "" else
      var f := headers[|headers| - 1];
      Lines(headers[..|headers| - 1]) + f.name + ":" + Broken(Joined(f.value)) + "\r\n"
  }

  // One more header in the block.
  lemma LinesNext(headers: seq<Field>, f: Field, t: string)
    requires Delivers(t, f.value)
    ensures Lines(headers + [f]) == Lines(headers) + f.name + ":" + t + "\r\n" && Lines([]) == ""
  {
    DeliveredIs(f.value);
    assert (headers + [f])[..|headers|] == headers;
    hide Broken, Joined, Delivers;
  }

  method SignLines(headers: seq<Field>) returns (names: seq<string>, block: string)
    ensures names == Names(headers)
    ensures block == Lines(headers) + "\r\n"
  {
    var keys: seq<string>, again: seq<string> := [], [];
    var seen: set<string> := {};
    block := "";
    for i := 0 to |headers|
      invariant keys == Own(headers[..i]) && again == Again(headers[..i]) && block == Lines(headers[..i])
      invariant forall k :: k in seen <==> Shown(k) && Has(headers[..i], k)
    {
      var f := headers[i];
      HasOneMore(headers, i);
      assert headers[..i + 1][..i] == headers[..i];
      block := block + f.name + ":" + Broken(Joined(f.value)) + "\r\n";
      var name := TrimSpace(f.name);
      var lower := Lower(name);
      if Shown(lower) {
        ShownIsSigned(lower);
      }
      hide TrimSpace, Joined, Broken, Signed, Shown, Has, Lower;
      if Signed(lower) {
        keys := keys + [name];
        if Shown(lower) && lower !in seen {
          seen := seen + {lower};
          again := again + [name];
        }
      }
    }
    assert headers[..|headers|] == headers;
    block := block + "\r\n";
    names := keys + again + ["From"];
  }

  lemma HasOneMore(headers: seq<Field>, i: nat)
    requires i < |headers|
    ensures forall k :: Has(headers[..i + 1], k) <==> Has(headers[..i], k) || k == Key(headers[i])
  {
    forall k | Has(headers[..i], k) ensures Has(headers[..i + 1], k) {
      var j :| 0 <= j < i && Key(headers[..i][j]) == k;
      assert Key(headers[..i + 1][j]) == k;
    }
    assert headers[..i + 1][i] == headers[i];
    forall k | Has(headers[..i + 1], k) ensures Has(headers[..i], k) || k == Key(headers[i]) {
      var j :| 0 <= j < i + 1 && Key(headers[..i + 1][j]) == k;
      assert j < i ==> Key(headers[..i][j]) == k;
    }
  }

  // ---- the selection

  // The instances of a header, from the top.
  function Instances(headers: seq<Field>, key: string): seq<Field> {
    if headers == [] then [] else
      var f := headers[|headers| - 1];
      Instances(headers[..|headers| - 1], key) + if Key(f) == key then [f] else []
  }

  // And where they stand.
  function Positions(headers: seq<Field>, key: string): (ps: seq<nat>)
    ensures forall i | 0 <= i < |ps| :: ps[i] < |headers|
  {
    if headers == [] then [] else
      var n := |headers| - 1;
      Positions(headers[..n], key) + if Key(headers[n]) == key then [n] else []
  }

  lemma {:induction false} PositionsAre(headers: seq<Field>, key: string)
    ensures var (ps, fs) := (Positions(headers, key), Instances(headers, key));
            && |ps| == |fs|
            && (forall i | 0 <= i < |ps| :: headers[ps[i]] == fs[i] && Key(fs[i]) == key)
            && (forall i, j | 0 <= i < j < |ps| :: ps[i] < ps[j])
  {
    if headers != [] {
      var front := headers[..|headers| - 1];
      PositionsAre(front, key);
      var ps, fs := Positions(front, key), Instances(front, key);
      assert forall i | 0 <= i < |ps| :: headers[ps[i]] == front[ps[i]];
      hide Key;
    }
  }

  // How often the names hold a header, whatever the case.
  function Occurs(names: seq<string>, key: string): nat {
    if names == [] then 0 else
      Occurs(names[..|names| - 1], key) + if Lower(names[|names| - 1]) == key then 1 else 0
  }

  // What is hashed for the i-th name: the lowest header of that name not hashed for an earlier one.
  function Hashed(names: seq<string>, headers: seq<Field>, i: nat): Option<Field>
    requires i < |names|
  {
    var key := Lower(names[i]);
    FromBottom(Instances(headers, key), Occurs(names[..i], key))
  }

  function FromBottom(fs: seq<Field>, j: nat): Option<Field> {
    if j < |fs| then Some(fs[|fs| - 1 - j]) else None
  }

  // And where it stands.
  function Selects(names: seq<string>, headers: seq<Field>, i: nat): Option<nat>
    requires i < |names|
  {
    var key := Lower(names[i]);
    var ps, j := Positions(headers, key), Occurs(names[..i], key);
    if j < |ps| then Some(ps[|ps| - 1 - j]) else None
  }

  ghost predicate SameHashed(names: seq<string>, one: seq<Field>, other: seq<Field>) {
    forall i | 0 <= i < |names| :: Hashed(names, one, i) == Hashed(names, other, i)
  }

  // ---- how often each header is named

  lemma {:induction false} OccursSum(a: seq<string>, b: seq<string>, key: string)
    ensures Occurs(a + b, key) == Occurs(a, key) + Occurs(b, key)
    decreases |b|
  {
    if b == [] {
      assert a + b == a;
    } else {
      assert (a + b)[..|a + b| - 1] == a + b[..|b| - 1];
      OccursSum(a, b[..|b| - 1], key);
    }
  }

  lemma OccursOne(name: string, key: string)
    ensures Occurs([name], key) == if Lower(name) == key then 1 else 0
  {
    assert [name][..0] == [];
  }

  lemma {:induction false} OwnOccurs(headers: seq<Field>, key: string)
    ensures Occurs(Own(headers), key) == if Signed(key) then |Instances(headers, key)| else 0
  {
    if headers != [] {
      var n := |headers| - 1;
      var f := headers[n];
      OwnOccurs(headers[..n], key);
      OccursSum(Own(headers[..n]), [Name(f)], key);
      OccursOne(Name(f), key);
      assert Own(headers[..n]) + [] == Own(headers[..n]);
      hide Occurs, TrimSpace, Lower, Signed;
    }
  }

  lemma {:induction false} AgainOccurs(headers: seq<Field>, key: string)
    ensures Occurs(Again(headers), key) == if Shown(key) && Has(headers, key) then 1 else 0
  {
    if headers != [] {
      var n := |headers| - 1;
      var f := headers[n];
      AgainOccurs(headers[..n], key);
      OccursSum(Again(headers[..n]), [Name(f)], key);
      OccursOne(Name(f), key);
      HasOneMore(headers, n);
      assert headers[..n + 1] == headers;
      assert Again(headers[..n]) + [] == Again(headers[..n]);
      hide Occurs, TrimSpace, Lower, Has, Shown;
    }
  }

  predicate OverSigned(headers: seq<Field>, key: string) {
    key == "from" || (Shown(key) && Has(headers, key))
  }

  // A signed header is named once for each instance, and once more where it is over-signed.
  lemma NamesOccur(headers: seq<Field>, key: string)
    ensures Occurs(Names(headers), key) ==
            (if Signed(key) then |Instances(headers, key)| else 0) + (if OverSigned(headers, key) then 1 else 0)
  {
    hide Signed, Shown, Has;
    assert Lower("From") == "from";
    OwnOccurs(headers, key);
    AgainOccurs(headers, key);
    OccursSum(Own(headers), Again(headers), key);
    OccursSum(Own(headers) + Again(headers), ["From"], key);
    OccursOne("From", key);
    hide Lower, Occurs, Own, Again;
    if key == "from" {
      ShownIsSigned(key);
    }
  }

  // Where the names hold a header for the j-th time.
  lemma {:induction false} NthName(names: seq<string>, key: string, j: nat) returns (i: nat)
    requires j < Occurs(names, key)
    ensures i < |names| && Lower(names[i]) == key && Occurs(names[..i], key) == j
  {
    var n := |names| - 1;
    if Lower(names[n]) == key && Occurs(names[..n], key) == j {
      i := n;
    } else {
      i := NthName(names[..n], key, j);
      assert names[..n][..i] == names[..i];
    }
  }

  lemma {:induction false} PositionAt(headers: seq<Field>, p: nat) returns (i: nat)
    requires p < |headers|
    ensures var ps := Positions(headers, Key(headers[p])); i < |ps| && ps[i] == p
  {
    var n := |headers| - 1;
    if p == n {
      i := |Positions(headers, Key(headers[p]))| - 1;
    } else {
      i := PositionAt(headers[..n], p);
    }
  }

  // ---- what the signature covers

  // Every instance of every signed header is selected, by one name.
  lemma EverySignedHeaderIsSelected(headers: seq<Field>, p: nat) returns (i: nat)
    requires p < |headers| && Signed(Key(headers[p]))
    ensures i < |Names(headers)| && Selects(Names(headers), headers, i) == Some(p)
    ensures forall k | 0 <= k < |Names(headers)| && Selects(Names(headers), headers, k) == Some(p) :: k == i
  {
    var key, names := Key(headers[p]), Names(headers);
    var at := PositionAt(headers, p);
    NamesOccur(headers, key);
    PositionsAre(headers, key);
    hide Signed, Shown, Has, Lower, Key, Names, Positions, Instances, Occurs;
    i := NthName(names, key, |Positions(headers, key)| - 1 - at);
    assert Selects(names, headers, i) == Some(p);
    hide Selects;
    forall k | 0 <= k < |names| && Selects(names, headers, k) == Some(p) ensures k == i {
      SelectedOnce(names, headers, p, k, i);
    }
  }

  lemma SelectedOnce(names: seq<string>, headers: seq<Field>, p: nat, k: nat, i: nat)
    requires k < |names| && i < |names| && Selects(names, headers, k) == Some(p)
               && Selects(names, headers, i) == Some(p)
    ensures k == i
  {
    SelectedKey(names, headers, p, k);
    SelectedKey(names, headers, p, i);
    PositionsAre(headers, Lower(names[i]));
    hide Lower, Key, Positions, Instances, Occurs;
    OccursDiffers(names, Lower(names[i]), k, i);
  }

  lemma SelectedKey(names: seq<string>, headers: seq<Field>, p: nat, i: nat)
    requires i < |names| && Selects(names, headers, i) == Some(p)
    ensures p < |headers| && Key(headers[p]) == Lower(names[i]) && Hashed(names, headers, i) == Some(headers[p])
  {
    var key := Lower(names[i]);
    PositionsAre(headers, key);
    hide Lower, Key, Positions, Instances, Occurs;
    var ps := Positions(headers, key);
    assert ps[|ps| - 1 - Occurs(names[..i], key)] == p;
  }

  lemma {:induction false} OccursPrefix(names: seq<string>, key: string, i: nat)
    requires i <= |names|
    ensures Occurs(names[..i], key) <= Occurs(names, key)
    decreases |names|
  {
    if i < |names| {
      OccursPrefix(names[..|names| - 1], key, i);
      assert names[..|names| - 1][..i] == names[..i];
    } else {
      assert names[..i] == names;
    }
  }

  lemma OccursDiffers(names: seq<string>, key: string, i: nat, j: nat)
    requires i < |names| && j < |names| && Lower(names[i]) == key && Lower(names[j]) == key
    ensures Occurs(names[..i], key) == Occurs(names[..j], key) ==> i == j
  {
    if i < j {
      OccursPrefix(names[..j], key, i + 1);
      assert names[..j][..i + 1] == names[..i + 1] && names[..i + 1][..i] == names[..i];
    } else if j < i {
      OccursPrefix(names[..i], key, j + 1);
      assert names[..i][..j + 1] == names[..j + 1] && names[..j + 1][..j] == names[..j];
    }
  }

  function Inserted(headers: seq<Field>, p: nat, f: Field): seq<Field>
    requires p <= |headers|
  {
    headers[..p] + [f] + headers[p..]
  }

  lemma {:induction false} InstancesSum(a: seq<Field>, b: seq<Field>, key: string)
    ensures Instances(a + b, key) == Instances(a, key) + Instances(b, key)
    decreases |b|
  {
    if b == [] {
      assert a + b == a;
    } else {
      assert (a + b)[..|a + b| - 1] == a + b[..|b| - 1];
      InstancesSum(a, b[..|b| - 1], key);
      hide Key;
    }
  }

  lemma JustAbove(a: seq<Field>, f: Field, b: seq<Field>)
    ensures FromBottom(a + [f] + b, |b|) == Some(f)
  {
  }

  lemma InstancesIn(above: seq<Field>, f: Field, below: seq<Field>, key: string)
    ensures Instances(above + [f] + below, key) ==
            Instances(above, key) + (if Key(f) == key then [f] else []) + Instances(below, key)
  {
    InstancesSum(above + [f], below, key);
    InstancesSum(above, [f], key);
    assert [f][..0] == [];
    hide Key;
  }

  // Two messages are told apart where one of the instances named differs.
  lemma Shows(names: seq<string>, one: seq<Field>, other: seq<Field>, key: string, j: nat)
    requires j < Occurs(names, key)
    requires FromBottom(Instances(one, key), j) != FromBottom(Instances(other, key), j)
    ensures !SameHashed(names, one, other)
  {
    var i := NthName(names, key, j);
    hide FromBottom, Instances, Occurs;
    assert Hashed(names, one, i) != Hashed(names, other, i);
  }

  lemma OneMore(above: seq<Field>, f: Field, below: seq<Field>)
    ensures |Instances(above + [f] + below, Key(f))| == |Instances(above + below, Key(f))| + 1
  {
    InstancesIn(above, f, below, Key(f));
    InstancesSum(above, below, Key(f));
    hide Instances, Key;
  }

  // One more From, or one more of an over-signed header the message has, changes what is hashed, wherever it is
  // put in.
  lemma InsertionShows(headers: seq<Field>, p: nat, f: Field)
    requires p <= |headers| && OverSigned(headers, Key(f))
    ensures !SameHashed(Names(headers), headers, Inserted(headers, p, f))
  {
    NamesOccur(headers, Key(f));
    ShownIsSigned(Key(f));
    hide Signed, Shown, Has, Key, Names, Instances, Occurs, SameHashed;
    OneMore(headers[..p], f, headers[p..]);
    assert headers[..p] + headers[p..] == headers;
    Shows(Names(headers), headers, Inserted(headers, p, f), Key(f), |Instances(headers, Key(f))|);
  }

  // So does taking a signed header out.
  lemma RemovalShows(headers: seq<Field>, p: nat)
    requires p < |headers| && Signed(Key(headers[p]))
    ensures !SameHashed(Names(headers), headers, headers[..p] + headers[p + 1..])
  {
    var key, less := Key(headers[p]), headers[..p] + headers[p + 1..];
    NamesOccur(headers, key);
    hide Signed, Shown, Has, Key, Names, Instances, Occurs, SameHashed;
    OneMore(headers[..p], headers[p], headers[p + 1..]);
    assert headers == headers[..p] + [headers[p]] + headers[p + 1..];
    Shows(Names(headers), headers, less, key, |Instances(less, key)|);
  }

  // And changing one.
  lemma ChangeShows(headers: seq<Field>, p: nat, f: Field)
    requires p < |headers| && Signed(Key(headers[p])) && Key(f) == Key(headers[p]) && f != headers[p]
    ensures !SameHashed(Names(headers), headers, headers[p := f])
  {
    var key, above, below := Key(f), headers[..p], headers[p + 1..];
    NamesOccur(headers, key);
    assert headers == above + [headers[p]] + below && headers[p := f] == above + [f] + below;
    hide Signed, Shown, Has, Key, Names, Instances, Occurs, FromBottom, SameHashed;
    FoundAt(above, headers[p], below);
    FoundAt(above, f, below);
    Shows(Names(headers), headers, headers[p := f], key, |Instances(below, key)|);
  }

  lemma FoundAt(above: seq<Field>, f: Field, below: seq<Field>)
    ensures var (fs, n) := (Instances(above + [f] + below, Key(f)), |Instances(below, Key(f))|);
            n < |fs| && FromBottom(fs, n) == Some(f)
  {
    InstancesIn(above, f, below, Key(f));
    JustAbove(Instances(above, Key(f)), f, Instances(below, Key(f)));
    hide Instances, FromBottom, Key;
  }

  // A header that is not over-signed can be put in above the others of its name - or alone, where the message
  // has none - and nothing hashed changes: the rule covers what it names, no more.
  lemma InsertionAboveDoesNotShow(headers: seq<Field>, p: nat, f: Field)
    requires p <= |headers| && !OverSigned(headers, Key(f)) && !Has(headers[..p], Key(f))
    ensures SameHashed(Names(headers), headers, Inserted(headers, p, f))
  {
    hide Signed, Shown, Has, Lower, Names, OverSigned, Key;
    var names, more := Names(headers), Inserted(headers, p, f);
    forall i | 0 <= i < |names| ensures Hashed(names, headers, i) == Hashed(names, more, i) {
      var key := Lower(names[i]);
      NamesOccur(headers, key);
      OccursPrefix(names, key, i + 1);
      assert names[..i + 1][..i] == names[..i];
      AboveKeeps(headers, p, f, key, Occurs(names[..i], key));
      hide Instances;
    }
  }

  lemma AboveKeeps(headers: seq<Field>, p: nat, f: Field, key: string, j: nat)
    requires p <= |headers| && !Has(headers[..p], Key(f))
    requires key == Key(f) ==> j < |Instances(headers, key)|
    ensures FromBottom(Instances(headers, key), j) == FromBottom(Instances(Inserted(headers, p, f), key), j)
  {
    var above, below := headers[..p], headers[p..];
    assert above + below == headers;
    InstancesSum(above, below, key);
    InstancesIn(above, f, below, key);
    var a, b := Instances(above, key), Instances(below, key);
    if key == Key(f) {
      NoInstances(above, key);
      hide Key, Instances, Has, FromBottom;
      BelowOnly(a, b, j);
      BelowOnly(a + [f], b, j);
    } else {
      assert a + [] == a;
    }
  }

  lemma BelowOnly(a: seq<Field>, b: seq<Field>, j: nat)
    requires j < |b|
    ensures FromBottom(a + b, j) == FromBottom(b, j)
  {
  }

  lemma {:induction false} NoInstances(headers: seq<Field>, key: string)
    requires !Has(headers, key)
    ensures Instances(headers, key) == []
  {
    if headers != [] {
      var n := |headers| - 1;
      HasOneMore(headers, n);
      assert headers[..n + 1] == headers;
      NoInstances(headers[..n], key);
    }
  }
}
