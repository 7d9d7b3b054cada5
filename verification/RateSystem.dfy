/**
 The sessions of one limit key on the shared registry itself: each of their calls is the step of that name in
 RateProtocol, so what is proved of its runs holds of the registry's.
 */
module RateSystem {
  import opened Wrappers
  import opened Inflight
  import opened RateProtocol

  // The reservations the sessions hold.
  function Taken(slots: seq<Option<Reservation>>): set<Reservation> {
    if slots == [] then {} else
      var n := |slots| - 1;
      Taken(slots[..n]) + if slots[n].Some? then {slots[n].value} else {}
  }

  predicate Apart(slots: seq<Option<Reservation>>) {
    forall i, j | 0 <= i < j < |slots| && slots[i].Some? && slots[j].Some? :: slots[i] != slots[j]
  }

  // A session holds a reservation in the phases that count as reserved.
  predicate Match(slots: seq<Option<Reservation>>, sessions: seq<Phase>) {
    |slots| == |sessions| && forall i | 0 <= i < |slots| :: slots[i].Some? <==> RESERVED(sessions[i])
  }

  lemma {:induction false} TakenIs(slots: seq<Option<Reservation>>)
    ensures forall r :: r in Taken(slots) <==> exists i :: 0 <= i < |slots| && slots[i] == Some(r)
  {
    if slots != [] {
      var n := |slots| - 1;
      TakenIs(slots[..n]);
      forall r | r in Taken(slots) ensures exists i :: 0 <= i < |slots| && slots[i] == Some(r) {
        if r in Taken(slots[..n]) {
          var i :| 0 <= i < n && slots[..n][i] == Some(r);
          assert slots[i] == Some(r);
        } else {
          assert slots[n] == Some(r);
        }
      }
      forall i | 0 <= i < |slots| && slots[i].Some? ensures slots[i].value in Taken(slots) {
        if i < n {
          assert slots[..n][i] == slots[i];
        }
      }
    }
  }

  // There are as many reservations as sessions that hold one.
  lemma {:induction false} TakenCount(slots: seq<Option<Reservation>>, sessions: seq<Phase>)
    requires Match(slots, sessions) && Apart(slots)
    ensures |Taken(slots)| == Tally(sessions, RESERVED)
  {
    if slots != [] {
      var n := |slots| - 1;
      TakenCount(slots[..n], sessions[..n]);
      TakenIs(slots[..n]);
      assert slots[n].Some? ==> slots[n].value !in Taken(slots[..n]);
    }
  }

  lemma TakenUpdate(slots: seq<Option<Reservation>>, i: nat, r: Option<Reservation>)
    requires i < |slots| && Apart(slots)
    requires slots[i].Some? ==> r.None?
    ensures Taken(slots[i := r]) ==
            (if slots[i].Some? then Taken(slots) - {slots[i].value} else Taken(slots))
            + (if r.Some? then {r.value} else {})
  {
    TakenIs(slots);
    TakenIs(slots[i := r]);
    var after := slots[i := r];
    forall x | x in Taken(after) ensures r == Some(x) || (x in Taken(slots) && slots[i] != Some(x)) {
      var k :| 0 <= k < |after| && after[k] == Some(x);
      if k != i {
        assert slots[k] == Some(x);
      }
    }
    forall x | x in Taken(slots) && slots[i] != Some(x) ensures x in Taken(after) {
      var k :| 0 <= k < |slots| && slots[k] == Some(x);
      assert after[k] == Some(x);
    }
    if r.Some? {
      assert after[i] == r;
    }
  }

  // The sessions' own variables, and the reservations of their key, as the protocol has them.
  ghost predicate Coupled(slots: seq<Option<Reservation>>, counts: seq<nat>, held: set<Reservation>, w: World,
                          key: string, since: int)
  {
    && |counts| == |w.sessions| && Match(slots, w.sessions) && Apart(slots) && held == Taken(slots)
    && (forall i | 0 <= i < |slots| && slots[i].Some? :: slots[i].value.key == key && slots[i].value.at >= since)
    && (forall i | 0 <= i < |counts| && w.sessions[i].Counted? :: counts[i] == w.sessions[i].seen)
  }

  // An admission gives its session a reservation nobody has, or leaves it without one.
  lemma Admitted(slots: seq<Option<Reservation>>, counts: seq<nat>, held: set<Reservation>, w: World, key: string,
                 since: int, max: nat, i: nat, r: Option<Reservation>)
    requires Coupled(slots, counts, held, w, key, since) && Enabled(w, Admit(i))
    requires r.Some? <==> Do(w, max, Admit(i)).sessions[i].Holding?
    requires r.Some? ==> r.value !in held && r.value.key == key && r.value.at >= since
    ensures var held' := held + if r.Some? then {r.value} else {};
            Coupled(slots[i := r], counts, held', Do(w, max, Admit(i)), key, since)
  {
    TakenIs(slots);
    TakenUpdate(slots, i, r);
    forall k | 0 <= k < |slots| && slots[k].Some? && r.Some? ensures slots[k] != r {
      assert slots[k].value in Taken(slots);
    }
    hide Taken, Tally;
  }

  // A message that is recorded, could not be, or is dropped gives its reservation back.
  lemma GivenBack(slots: seq<Option<Reservation>>, counts: seq<nat>, held: set<Reservation>, w: World, key: string,
                  since: int, max: nat, i: nat)
    requires Coupled(slots, counts, held, w, key, since) && i < |w.sessions| && RESERVED(w.sessions[i])
    ensures var step := if w.sessions[i].Holding? then Drop(i) else Release(i);
            && Enabled(w, step) && slots[i].Some?
            && Coupled(slots[i := None], counts, held - {slots[i].value}, Do(w, max, step), key, since)
  {
    TakenUpdate(slots, i, None);
    hide Taken, Tally;
  }

  // With none past its time and all in the window, the reservations counted are those of the protocol.
  lemma AllInWindow(slots: seq<Option<Reservation>>, counts: seq<nat>, held: set<Reservation>, w: World, key: string,
                    since: int, cutoff: int)
    requires Coupled(slots, counts, held, w, key, since) && forall r | r in held :: r.at >= cutoff
    ensures Fresh(held, cutoff) == held && |Within(held, since)| == Reserved(w)
  {
    TakenIs(slots);
    TakenCount(slots, w.sessions);
    assert Within(held, since) == held;
  }

  class KeySessions {
    const flight: Registry
    const key: string
    const max: nat
    const since: int  // the window, which does not move
    var logged: nat   // the messages of the window in the store
    var counts: seq<nat>
    var slots: seq<Option<Reservation>>
    // The state of the protocol.
    ghost var w: World

    ghost predicate Valid()
      reads this, flight
    {
      flight.Valid() && logged == w.logged && Coupled(slots, counts, flight.Held(key), w, key, since)
    }

    constructor (flight: Registry, key: string, max: nat, since: int, logged: nat, n: nat)
      requires flight.Valid() && flight.Held(key) == {} && logged <= max
      ensures Valid() && w == World(logged, seq(n, i => Idle)) && Start(w, max)
      ensures this.flight == flight && this.key == key && this.max == max && this.since == since
    {
      this.flight, this.key, this.max, this.since, this.logged := flight, key, max, since, logged;
      counts, slots := seq(n, i => 0), seq(n, i => None);
      w := World(logged, seq(n, i => Idle));
      new;
      TakenIs(slots);
      assert Taken(slots) == {};
    }

    method Count(i: nat)
      requires Valid() && Enabled(w, Step.Count(i))
      modifies this`counts, this`w
      ensures Valid() && w == Do(old(w), max, Step.Count(i))
    {
      counts := counts[i := logged];
      w := Do(w, max, Step.Count(i));
    }

    // None of the reservations is past its time yet.
    method Admit(i: nat, now: int) returns (admitted: bool)
      requires Valid() && Enabled(w, Step.Admit(i)) && now >= since
      requires forall r | r in flight.Held(key) :: r.at >= now - TTL
      modifies this`slots, this`w, flight
      ensures Valid() && w == Do(old(w), max, Step.Admit(i))
      ensures admitted <==> w.sessions[i].Holding?
    {
      ghost var held := flight.Held(key);
      AllInWindow(slots, counts, held, w, key, since, now - TTL);
      assert counts[i] == w.sessions[i].seen && |slots| == |w.sessions|;
      hide Coupled, Tally, Within, Fresh;
      var r, total := flight.TryAdmit(key, since, counts[i], max, now);
      Admitted(slots, counts, held, w, key, since, max, i, r);
      slots := slots[i := r];
      admitted := r.Some?;
      w := Do(w, max, Step.Admit(i));
    }

    method Insert(i: nat)
      requires Valid() && Enabled(w, Step.Insert(i))
      modifies this`logged, this`w
      ensures Valid() && w == Do(old(w), max, Step.Insert(i))
    {
      logged := logged + 1;
      w := Do(w, max, Step.Insert(i));
    }

    method InsertFails(i: nat)
      requires Valid() && Enabled(w, Step.InsertFails(i))
      modifies this`w
      ensures Valid() && w == Do(old(w), max, Step.InsertFails(i))
    {
      w := Do(w, max, Step.InsertFails(i));
    }

    // After the message's row was written, or could not be; or, of one dropped, without.
    method Release(i: nat)
      requires Valid() && i < |w.sessions| && RESERVED(w.sessions[i])
      modifies this`slots, this`w, flight`m
      ensures Valid()
      ensures var step := if old(w).sessions[i].Holding? then Step.Drop(i) else Step.Release(i);
              Enabled(old(w), step) && w == Do(old(w), max, step)
    {
      ghost var step := if w.sessions[i].Holding? then Step.Drop(i) else Step.Release(i);
      GivenBack(slots, counts, flight.Held(key), w, key, since, max, i);
      assert slots[i].value.key == key;
      hide Coupled;
      flight.Release(slots[i].value);
      slots := slots[i := None];
      w := Do(w, max, step);
    }
  }
}
