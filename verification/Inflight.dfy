/**
 Messages between the level-2 limit check and the send log (internal/milter, inflight.go): the registry of
 reservations all sessions share.
 */
module Inflight {
  import opened Wrappers

  // reservationTTL, in seconds.
  const TTL: int := 600

  // One message that passed the check; id tells two of the same instant apart, as the identities of the source's
  // objects do.
  datatype Reservation = Reservation(key: string, at: int, id: nat)

  function Fresh(s: set<Reservation>, cutoff: int): (res: set<Reservation>)
    ensures res <= s
  {
    set r | r in s && r.at >= cutoff
  }

  function Within(s: set<Reservation>, since: int): (res: set<Reservation>)
    ensures res <= s
  {
    set r | r in s && r.at >= since
  }

  lemma AddOne(s: set<Reservation>, r: Reservation, from: int)
    ensures Fresh(s + {r}, from) == if r.at >= from then Fresh(s, from) + {r} else Fresh(s, from)
    ensures Within(s + {r}, from) == if r.at >= from then Within(s, from) + {r} else Within(s, from)
  {
  }

  // The loop over one key's set: what stays in it, and how many of those are in the window.
  method Prune(all: set<Reservation>, since: int, cutoff: int) returns (n: nat, kept: set<Reservation>)
    ensures kept == Fresh(all, cutoff) && n == |Within(kept, since)|
  {
    ghost var done := {};
    var todo := all;
    n, kept := 0, {};
    while todo != {}
      invariant done + todo == all && done !! todo
      invariant kept == Fresh(done, cutoff) && n == |Within(kept, since)|
      decreases todo
    {
      var r :| r in todo;
      AddOne(done, r, cutoff);
      AddOne(kept, r, since);
      done, todo := done + {r}, todo - {r};
      if r.at >= cutoff {
        kept := kept + {r};
        if r.at >= since {
          n := n + 1;
        }
      }
    }
    assert done == all;
  }

  class Registry {
    var m: map<string, set<Reservation>>
    var nextId: nat

    ghost predicate Valid()
      reads this
    {
      forall k | k in m :: m[k] != {} && forall r | r in m[k] :: r.key == k && r.id < nextId
    }

    function Held(key: string): set<Reservation>
      reads this
    {
      if key in m then m[key] else {}
    }

    constructor ()
      ensures Valid() && m == map[]
    {
      m, nextId := map[], 0;
    }

    // Counts the reservations taken at or after since, and drops those past their time.
    method CountLocked(key: string, since: int, now: int) returns (n: nat)
      requires Valid()
      modifies this`m
      ensures Valid()
      ensures Held(key) == Fresh(old(Held(key)), now - TTL)
      ensures forall k | k != key :: Held(k) == old(Held(k))
      ensures n == |Within(Held(key), since)|
    {
      var kept;
      n, kept := Prune(Held(key), since, now - TTL);
      m := if kept == {} then m - {key} else m[key := kept];
    }

    // Counting and reserving are one step: the slot is taken exactly when the messages logged, as the
    // caller counted them, and those on their way leave room for one more.
    method TryAdmit(key: string, since: int, stored: nat, max: nat, now: int)
        returns (r: Option<Reservation>, total: nat)
      requires Valid()
      modifies this
      ensures Valid()
      ensures total == stored + |Within(Fresh(old(Held(key)), now - TTL), since)|
      ensures r.Some? <==> total < max
      ensures r.None? ==> Held(key) == Fresh(old(Held(key)), now - TTL)
      ensures r.Some? ==> r.value.key == key && r.value.at == now
      ensures r.Some? ==> r.value !in old(Held(key)) && Held(key) == Fresh(old(Held(key)), now - TTL) + {r.value}
      ensures forall k | k != key :: Held(k) == old(Held(k))
    {
      var n := CountLocked(key, since, now);
      total := stored + n;
      if total >= max {
        return None, total;
      }
      r := Some(Reservation(key, now, nextId));
      m := m[key := Held(key) + {r.value}];
      nextId := nextId + 1;
    }

    method Release(r: Reservation)
      requires Valid()
      modifies this`m
      ensures Valid()
      ensures Held(r.key) == old(Held(r.key)) - {r}
      ensures forall k | k != r.key :: Held(k) == old(Held(k))
    {
      var left := Held(r.key) - {r};
      m := if left == {} then m - {r.key} else m[r.key := left];
    }
  }
}
