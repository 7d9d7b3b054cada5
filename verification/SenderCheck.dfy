/**
 The sender check's reading of the sender map (internal/milter, sender.go): the rules of a Postfix texthash
 table, and the lookup of a sender in it.
 */
module SenderCheck {
  import opened Strings
  import opened Wrappers
  import opened SenderMap

  const BLANKS: set<char> := {' ', '\t'}
  const OWNER_SEPARATORS: set<char> := {',', ' ', '\t', '\r', '\n'}

  // ---- logical lines

  function AddLine(logical: seq<string>, raw: string): seq<string> {
    var line := TrimRight(raw, {'\r'});
    var trimmed := TrimLeft(line, BLANKS);
    if trimmed == "" || trimmed[0] == '#' then logical
    else if |trimmed| < |line| && |logical| > 0 then logical[|logical| - 1 := logical[|logical| - 1] + line]
    else logical + [trimmed]
  }

  function Logical(lines: seq<string>): seq<string> {
    if lines == [] then [] else AddLine(Logical(lines[..|lines| - 1]), lines[|lines| - 1])
  }

  // ---- one line

  // Where the key ends, scanning from i: at the first blank outside quotes, a backslash escaping the
  // character after it; and whether the scan ends inside quotes.
  function KeyEnd(line: string, i: nat, inQuotes: bool): (nat, bool)
    decreases |line| - i
  {
    if i >= |line| then (i, inQuotes)
    else if line[i] == '\\' then KeyEnd(line, i + 2, inQuotes)
    else if line[i] == '"' then KeyEnd(line, i + 1, !inQuotes)
    else if line[i] in BLANKS && !inQuotes then (i, inQuotes)
    else KeyEnd(line, i + 1, inQuotes)
  }

  // A key and a value; None where Postfix ignores the line.
  function SplitTableLine(line: string): Option<(string, string)> {
    var (end, inQuotes) := KeyEnd(line, 0, false);
    if inQuotes then None else
      var i := if end > |line| then |line| else end;
      var key, value := line[..i], TrimRight(TrimLeft(line[i..], BLANKS), BLANKS);
      if key != "" && value != "" then Some((key, value)) else None
  }

  method SplitLine(line: string) returns (res: Option<(string, string)>)
    ensures res == SplitTableLine(line)
  {
    var inQuotes, i := false, 0;
    while i < |line|
      invariant KeyEnd(line, i, inQuotes) == KeyEnd(line, 0, false)
    {
      if line[i] == '\\' {
        i := i + 2;
        continue;
      }
      if line[i] == '"' {
        inQuotes := !inQuotes;
        i := i + 1;
        continue;
      }
      if line[i] in BLANKS && !inQuotes {
        break;
      }
      i := i + 1;
    }
    if inQuotes {
      return None;
    }
    if i > |line| {
      i := |line|;
    }
    var key, value := line[..i], TrimRight(TrimLeft(line[i..], BLANKS), BLANKS);
    return if key != "" && value != "" then Some((key, value)) else None;
  }

  // ---- the table

  // Sender to its owners, both in lower case; and login to the domain of the first sender it is listed for.
  datatype Table = Table(logins: map<string, set<string>>, domains: map<string, string>) | Broken

  function DomainOf(addr: string): string {
    var at := LastIndexOf(addr, '@');
    if at < 0 then "" else Lower(addr[at + 1..])
  }

  // What follows the last "@".
  lemma DomainIs(local: string, domain: string)
    requires '@' !in domain
    ensures DomainOf(local + ("@" + domain)) == Lower(domain) && DomainOf(domain) == ""
  {
    var addr := local + ("@" + domain);
    assert addr[|local| + 1..] == domain;
    LastIndexUnique(addr, '@', |local|);
    assert LastIndexOf(domain, '@') < 0;
  }

  function AddOwner(t: Table, sender: string, login: string): (t': Table)
    requires t.Table? && sender in t.logins
    ensures t'.Table? && t'.logins.Keys == t.logins.Keys
  {
    var l := Lower(login);
    Table(t.logins[sender := t.logins[sender] + {l}],
          if l in t.domains then t.domains else t.domains[l := DomainOf(sender)])
  }

  function AddOwners(t: Table, sender: string, owners: seq<string>): (t': Table)
    requires t.Table? && sender in t.logins
    ensures t'.Table? && t'.logins.Keys == t.logins.Keys
  {
    if owners == [] then t else AddOwner(AddOwners(t, sender, owners[..|owners| - 1]), sender, owners[|owners| - 1])
  }

  // A key given twice makes the whole table unusable.
  function AddEntry(t: Table, line: string): Table {
    var parts := SplitTableLine(line);
    if t.Broken? || parts.None? then t else
      var sender := Lower(parts.value.0);
      if sender in t.logins then Broken
      else AddOwners(t.(logins := t.logins[sender := {}]), sender, Fields(parts.value.1, OWNER_SEPARATORS))
  }

  function TableOf(logical: seq<string>): Table {
    if logical == [] then Table(map[], map[]) else AddEntry(TableOf(logical[..|logical| - 1]), logical[|logical| - 1])
  }

  function Parse(text: string): Table {
    TableOf(Logical(Split(text, '\n')))
  }

  method JoinLines(lines: seq<string>) returns (logical: seq<string>)
    ensures logical == Logical(lines)
  {
    logical := [];
    for i := 0 to |lines|
      invariant logical == Logical(lines[..i])
    {
      assert lines[..i + 1][..i] == lines[..i];
      var line := TrimRight(lines[i], {'\r'});
      var trimmed := TrimLeft(line, BLANKS);
      if trimmed == "" || trimmed[0] == '#' {
        continue;
      }
      if |trimmed| < |line| && |logical| > 0 {
        logical := logical[|logical| - 1 := logical[|logical| - 1] + line];
      } else {
        logical := logical + [trimmed];
      }
    }
    assert lines[..|lines|] == lines;
  }

  method ParseSenderMap(lines: seq<string>) returns (t: Table)
    ensures t == TableOf(Logical(lines))
  {
    var logical := JoinLines(lines);
    hide Fields, SplitTableLine;
    t := Table(map[], map[]);
    for i := 0 to |logical|
      invariant t.Table? && t == TableOf(logical[..i])
    {
      assert logical[..i + 1][..i] == logical[..i];
      var parts := SplitLine(logical[i]);
      if parts.None? {
        continue;
      }
      var sender := Lower(parts.value.0);
      if sender in t.logins {
        BrokenStays(logical, i + 1);
        return Broken;
      }
      t := OwnersOf(t.(logins := t.logins[sender := {}]), sender, Fields(parts.value.1, OWNER_SEPARATORS));
    }
    assert logical[..|logical|] == logical;
  }

  method OwnersOf(start: Table, sender: string, owners: seq<string>) returns (t: Table)
    requires start.Table? && sender in start.logins
    ensures t == AddOwners(start, sender, owners)
  {
    t := start;
    for k := 0 to |owners|
      invariant t.Table? && sender in t.logins && t == AddOwners(start, sender, owners[..k])
    {
      assert owners[..k + 1][..k] == owners[..k];
      t := AddOwner(t, sender, owners[k]);
    }
    assert owners[..|owners|] == owners;
  }

  lemma {:induction false} BrokenStays(logical: seq<string>, n: nat)
    requires n <= |logical| && TableOf(logical[..n]).Broken?
    ensures TableOf(logical).Broken?
    decreases |logical| - n
  {
    if n == |logical| {
      assert logical[..n] == logical;
    } else {
      assert logical[..n + 1][..n] == logical[..n];
      BrokenStays(logical, n + 1);
    }
  }

  // ---- looking a sender up

  function WithoutExtension(addr: string): string {
    var at := LastIndexOf(addr, '@');
    if at < 0 then addr else
      var plus := IndexOf(addr[..at], '+');
      if 0 < plus < at then addr[..plus] + addr[at..] else addr
  }

  // The keys tried for a sender in lower case, in order.
  function Candidates(addr: string): seq<string> {
    var bare, at := WithoutExtension(addr), LastIndexOf(addr, '@');
    [addr] + (if bare != addr then [bare] else []) + (if 0 <= at < |addr| - 1 then [addr[at..]] else [])
  }

  // Allowed, on a table that is not broken: the owners of the first key found decide.
  method Allowed(logins: map<string, set<string>>, login: string, addr: string) returns (ok: bool)
    ensures ok == OwnedBy(logins, Lower(login), Candidates(Lower(addr)))
  {
    var l, a := Lower(login), Lower(addr);
    var keys := [a];
    var bare := WithoutExtension(a);
    if bare != a {
      keys := keys + [bare];
    }
    var at := LastIndexOf(a, '@');
    if 0 <= at < |a| - 1 {
      keys := keys + [a[at..]];
    }
    for i := 0 to |keys|
      invariant OwnedBy(logins, l, keys) == OwnedBy(logins, l, keys[i..])
    {
      if keys[i] in logins {
        return l in logins[keys[i]];
      }
    }
    return false;
  }

  function OwnedBy(logins: map<string, set<string>>, login: string, keys: seq<string>): bool {
    if keys == [] then false
    else if keys[0] in logins then login in logins[keys[0]]
    else OwnedBy(logins, login, keys[1..])
  }
}
