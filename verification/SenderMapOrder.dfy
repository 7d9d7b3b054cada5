/** One set of bindings, one file: the order the bindings come in, and repeats among them, make no difference. */
module SenderMapOrder {
  import opened Strings
  import opened SenderMap

  ghost predicate Sorted(s: seq<string>) {
    forall i, j | 0 <= i < j < |s| :: AtMost(s[i], s[j])
  }

  lemma {:induction false} AtMostTotal(a: string, b: string)
    ensures AtMost(a, b) || AtMost(b, a)
    ensures AtMost(a, b) && AtMost(b, a) ==> a == b
  {
    if a != "" && b != "" {
      AtMostTotal(a[1..], b[1..]);
      assert a == [a[0]] + a[1..] && b == [b[0]] + b[1..];
    }
  }

  lemma {:induction false} AtMostTransitive(a: string, b: string, c: string)
    requires AtMost(a, b) && AtMost(b, c)
    ensures AtMost(a, c)
  {
    if a != "" && a[0] == b[0] && b[0] == c[0] {
      AtMostTransitive(a[1..], b[1..], c[1..]);
    }
  }

  lemma InFront(x: string, s: seq<string>)
    requires Sorted(s) && forall y | y in s :: AtMost(x, y)
    ensures Sorted([x] + s)
  {
    hide AtMost;
  }

  lemma {:induction false} InsertSorts(s: seq<string>, x: string)
    requires Sorted(s)
    ensures Sorted(Insert(s, x))
  {
    if s == [] {
      assert Insert(s, x) == [x];
    } else {
      AtMostTotal(x, s[0]);
      if AtMost(x, s[0]) {
        forall y | y in s ensures AtMost(x, y) {
          if y != s[0] {
            AtMostTransitive(x, s[0], y);
          }
        }
        InFront(x, s);
      } else {
        var rest := s[1..];
        InsertSorts(rest, x);
        hide AtMost;
        forall y | y in Insert(rest, x) ensures AtMost(s[0], y) {
          assert y in multiset(Insert(rest, x));
          assert y == x || y in rest;
        }
        InFront(s[0], Insert(rest, x));
      }
    }
  }

  lemma {:induction false} SortSorts(s: seq<string>)
    ensures Sorted(Sort(s))
  {
    if s != [] {
      SortSorts(s[1..]);
      InsertSorts(Sort(s[1..]), s[0]);
    }
  }

  lemma {:induction false} SortedIsUnique(s: seq<string>, t: seq<string>)
    requires Sorted(s) && Sorted(t) && multiset(s) == multiset(t)
    ensures s == t
  {
    assert |s| == |multiset(s)| == |multiset(t)| == |t|;
    if s != [] {
      SameFirst(s, t);
      hide AtMost;
      SameRest(s, t);
      SortedIsUnique(s[1..], t[1..]);
    }
  }

  lemma SameFirst(s: seq<string>, t: seq<string>)
    requires Sorted(s) && Sorted(t) && multiset(s) == multiset(t) && s != [] && t != []
    ensures s[0] == t[0]
  {
    assert s[0] in multiset(t) && t[0] in multiset(s);
    AtMostTotal(s[0], s[0]);
    AtMostTotal(t[0], s[0]);
    AtMostTotal(t[0], t[0]);
  }

  lemma SameRest(s: seq<string>, t: seq<string>)
    requires s != [] && t != [] && s[0] == t[0] && multiset(s) == multiset(t)
    ensures multiset(s[1..]) == multiset(t[1..]) && s == [s[0]] + s[1..] && t == [t[0]] + t[1..]
  {
    assert s == [s[0]] + s[1..] && t == [t[0]] + t[1..];
    assert multiset(s[1..]) == multiset(s) - multiset{s[0]};
  }

  lemma DistinctCounts(s: seq<string>, t: seq<string>)
    requires Distinct(s) && Distinct(t) && forall x :: x in s <==> x in t
    ensures multiset(s) == multiset(t)
  {
    forall x ensures multiset(s)[x] == multiset(t)[x] {
      Once(s, x);
      Once(t, x);
      assert x in s <==> x in multiset(s);
      assert x in t <==> x in multiset(t);
    }
  }

  // Sorting a set of strings gives one sequence.
  lemma SameSorted(s: seq<string>, t: seq<string>)
    requires Distinct(s) && Distinct(t) && forall x :: x in s <==> x in t
    ensures Sort(s) == Sort(t)
  {
    DistinctCounts(s, t);
    SortSorts(s);
    SortSorts(t);
    SortedIsUnique(Sort(s), Sort(t));
  }

  // ---- the bindings as pairs

  ghost predicate Paired(bs: seq<Binding>, addr: string, login: string) {
    exists i | 0 <= i < |bs| :: Lower(bs[i].address) == addr && bs[i].login == login
  }

  lemma PairedSnoc(bs: seq<Binding>, addr: string, login: string)
    requires bs != []
    ensures var (front, b) := (bs[..|bs| - 1], bs[|bs| - 1]);
            Paired(bs, addr, login) <==> Paired(front, addr, login) || (Lower(b.address) == addr && b.login == login)
  {
    var front := bs[..|bs| - 1];
    if Paired(front, addr, login) {
      var i :| 0 <= i < |front| && Lower(front[i].address) == addr && front[i].login == login;
      assert Lower(bs[i].address) == addr && bs[i].login == login;
    }
  }

  lemma {:induction false} LoginsArePaired(bs: seq<Binding>, addr: string)
    ensures Distinct(LoginsOf(bs, addr))
    ensures forall l :: l in LoginsOf(bs, addr) <==> Paired(bs, addr, l)
  {
    if bs != [] {
      LoginsArePaired(bs[..|bs| - 1], addr);
      forall l ensures l in LoginsOf(bs, addr) <==> Paired(bs, addr, l) {
        PairedSnoc(bs, addr, l);
      }
    }
  }

  ghost predicate HasAddress(bs: seq<Binding>, addr: string) {
    exists l :: Paired(bs, addr, l)
  }

  lemma {:induction false} KeysArePaired(bs: seq<Binding>)
    ensures Distinct(Keys(bs))
    ensures forall a :: a in Keys(bs) <==> HasAddress(bs, a)
  {
    if bs != [] {
      var b := bs[|bs| - 1];
      KeysArePaired(bs[..|bs| - 1]);
      forall a ensures a in Keys(bs) <==> HasAddress(bs, a) {
        if HasAddress(bs[..|bs| - 1], a) {
          var l :| Paired(bs[..|bs| - 1], a, l);
          PairedSnoc(bs, a, l);
        }
        PairedSnoc(bs, a, b.login);
        if HasAddress(bs, a) {
          var l :| Paired(bs, a, l);
          PairedSnoc(bs, a, l);
        }
      }
    }
  }

  lemma {:induction false} SameText(bs: seq<Binding>, cs: seq<Binding>, order: seq<string>)
    requires forall a :: LineOf(bs, a) == LineOf(cs, a)
    ensures RenderFrom(bs, order) == RenderFrom(cs, order)
  {
    if order != [] {
      SameText(bs, cs, order[1..]);
      hide LineOf;
    }
  }

  // Bindings that are the same pairs, addresses folded, make the same file, byte for byte.
  lemma OneFilePerSet(bs: seq<Binding>, cs: seq<Binding>)
    requires forall a, l :: Paired(bs, a, l) <==> Paired(cs, a, l)
    ensures Render(bs) == Render(cs)
  {
    forall a ensures LineOf(bs, a) == LineOf(cs, a) {
      LoginsArePaired(bs, a);
      LoginsArePaired(cs, a);
      SameSorted(LoginsOf(bs, a), LoginsOf(cs, a));
    }
    KeysArePaired(bs);
    KeysArePaired(cs);
    SameSorted(Keys(bs), Keys(cs));
    SameText(bs, cs, Sort(Keys(bs)));
  }
}
