/** The refusal lines waiting for their rows, and the place they hold the reading at (refusalLines in logtail). */
module Refusals {
  import opened Wrappers
  import opened LogPlace

  const WAIT := 30
  const LOGINS_BOUND := 4096

  // A line of the log as the patterns read it.
  datatype LogLine =
    | Client(inbound: bool, queueID: string, login: string)
    | FromRefused(queueID: string, sender: bool, headerFrom: string, from: string, to: string)
    | Refused(inbound: bool, ip: Option<string>, login: string, from: string)
    | Other

  datatype Refusal = Refusal(ip: string, login: string, from: string, at: int, until: int, start: Place)

  datatype Recovery = Recovery(queueID: string, login: string, from: string, to: string, sender: bool,
                               headerFrom: string, at: int, until: int, start: Place)

  datatype LoginLine = LoginLine(login: string, start: Place)

  // The earliest of the places that lies in the file of that fingerprint.
  function Oldest(places: seq<Place>, fp: Fingerprint): Option<nat> {
    if places == [] then None else
      var n := |places| - 1;
      var before := Oldest(places[..n], fp);
      if places[n].fp == fp && (before.None? || places[n].at < before.value) then Some(places[n].at) else before
  }

  lemma {:induction false} OldestIs(places: seq<Place>, fp: Fingerprint)
    ensures var r := Oldest(places, fp);
            && (r.Some? ==> Place(fp, r.value) in places)
            && forall i | 0 <= i < |places| && places[i].fp == fp :: r.Some? && r.value <= places[i].at
  {
    if places != [] {
      OldestIs(places[..|places| - 1], fp);
    }
  }

  function RefusalStarts(items: seq<Refusal>): (places: seq<Place>)
    ensures |places| == |items| && forall i | 0 <= i < |items| :: places[i] == items[i].start
  {
    seq(|items|, i requires 0 <= i < |items| => items[i].start)
  }

  function RecoveryStarts(items: seq<Recovery>): (places: seq<Place>)
    ensures |places| == |items| && forall i | 0 <= i < |items| :: places[i] == items[i].start
  {
    seq(|items|, i requires 0 <= i < |items| => items[i].start)
  }

  // What is left of the waiting refusals: those not put on a row now and not older than the wait.
  function Unattached(items: seq<Refusal>, attached: seq<bool>, now: int): seq<Refusal>
    requires |items| == |attached|
  {
    if items == [] then [] else
      var n := |items| - 1;
      Unattached(items[..n], attached[..n], now) + if attached[n] || now > items[n].until then [] else [items[n]]
  }

  function Early(items: seq<Recovery>, now: int): seq<Recovery> {
    if items == [] then [] else
      var n := |items| - 1;
      Early(items[..n], now) + if now > items[n].until then [] else [items[n]]
  }

  function Due(items: seq<Recovery>, now: int): seq<Recovery> {
    if items == [] then [] else
      var n := |items| - 1;
      Due(items[..n], now) + if now > items[n].until then [items[n]] else []
  }

  // A recovery waits on or is written, one or the other, and nothing else is written.
  lemma {:induction false} EarlyOrDue(items: seq<Recovery>, now: int)
    ensures multiset(Early(items, now)) + multiset(Due(items, now)) == multiset(items)
    ensures forall x | x in Due(items, now) :: now > x.until
    ensures forall x | x in Early(items, now) :: now <= x.until
  {
    if items != [] {
      var n := |items| - 1;
      assert items == items[..n] + [items[n]];
      EarlyOrDue(items[..n], now);
    }
  }

  // A refusal stops holding the reading at its line only once it is on its row or has waited long enough.
  lemma {:induction false} HeldUntilAttached(items: seq<Refusal>, attached: seq<bool>, now: int, i: nat)
    requires |items| == |attached| && i < |items| && !attached[i] && now <= items[i].until
    ensures items[i] in Unattached(items, attached, now)
    decreases |items|
  {
    if i < |items| - 1 {
      HeldUntilAttached(items[..|items| - 1], attached[..|items| - 1], now, i);
    }
  }

  lemma {:induction false} NoneHeldLonger(items: seq<Refusal>, attached: seq<bool>, now: int)
    requires |items| == |attached|
    ensures forall x | x in Unattached(items, attached, now) :: x in items && now <= x.until
  {
    if items != [] {
      NoneHeldLonger(items[..|items| - 1], attached[..|items| - 1], now);
    }
  }

  ghost function Staying(items: seq<Refusal>, attached: seq<bool>, now: int, x: Refusal): set<nat>
    requires |items| == |attached|
  {
    set i | 0 <= i < |items| && items[i] == x && !attached[i] && now <= x.until
  }

  lemma StayingNext(items: seq<Refusal>, attached: seq<bool>, now: int, x: Refusal)
    requires |items| == |attached| && items != []
    ensures var n := |items| - 1;
            |Staying(items, attached, now, x)| ==
            |Staying(items[..n], attached[..n], now, x)|
            + if items[n] == x && !attached[n] && now <= x.until then 1 else 0
  {
    var n := |items| - 1;
    assert Staying(items, attached, now, x) ==
           Staying(items[..n], attached[..n], now, x)
           + if items[n] == x && !attached[n] && now <= x.until then {n} else {};
  }

  // What stays is what is neither on its row nor over its time, as often as it was there.
  lemma {:induction false} StaysExactly(items: seq<Refusal>, attached: seq<bool>, now: int, x: Refusal)
    requires |items| == |attached|
    ensures multiset(Unattached(items, attached, now))[x] == |Staying(items, attached, now, x)|
  {
    if items == [] {
      assert Staying(items, attached, now, x) == {};
    } else {
      hide Staying;
      StaysExactly(items[..|items| - 1], attached[..|items| - 1], now, x);
      StayingNext(items, attached, now, x);
    }
  }

  class RefusalLines {
    var pending: seq<Refusal>
    var recovering: seq<Recovery>
    var logins: map<string, LoginLine>
    var keys: seq<string>

    // The logins remembered are those of the keys, oldest first, and no more than the bound.
    ghost predicate Valid()
      reads this
    {
      && |keys| <= LOGINS_BOUND
      && (forall q :: q in logins <==> q in keys)
      && (forall i, j | 0 <= i < j < |keys| :: keys[i] != keys[j])
    }

    // The places the reading is held at.
    function Starts(): seq<Place>
      reads this
    {
      RefusalStarts(pending) + RecoveryStarts(recovering)
    }

    constructor ()
      ensures Valid() && pending == [] && recovering == [] && keys == []
    {
      pending, recovering, logins, keys := [], [], map[], [];
    }

    method HoldOf(fp: Fingerprint) returns (r: Option<nat>)
      ensures r == Oldest(Starts(), fp)
    {
      r := None;
      var starts := Starts();
      for i := 0 to |starts|
        invariant r == Oldest(starts[..i], fp)
      {
        assert starts[..i + 1][..i] == starts[..i];
        if starts[i].fp == fp && (r.None? || starts[i].at < r.value) {
          r := Some(starts[i].at);
        }
      }
      assert starts[..|starts|] == starts;
    }

    method Remember(queueID: string, login: LoginLine)
      requires Valid()
      modifies this`logins, this`keys
      ensures Valid()
      ensures queueID in logins && logins[queueID] == login
      ensures keys == if queueID in old(keys) then old(keys)
                      else (old(keys) + [queueID])[if |old(keys)| < LOGINS_BOUND then 0 else 1..]
      ensures forall q | q in keys && q != queueID :: q in old(logins) && logins[q] == old(logins)[q]
    {
      if queueID !in logins {
        keys := keys + [queueID];
        if |keys| > LOGINS_BOUND {
          logins := logins - {keys[0]};
          keys := keys[1..];
        }
      }
      logins := logins[queueID := login];
      assert queueID !in old(keys) && |old(keys)| == LOGINS_BOUND ==>
             old(keys) == [old(keys)[0]] + old(keys)[1..] && keys == old(keys)[1..] + [queueID];
    }

    // One line that starts at start, the store's answer for it being attached. A refusal not put on its row
    // waits at its own line; a message's refusal for its From: line waits at the line naming the message's
    // login, where that is known of an earlier line of the same file.
    method Handle(line: LogLine, at: int, now: int, start: Place, attached: bool)
      requires Valid()
      modifies this
      ensures Valid()
      ensures line.Client? ==> pending == old(pending) && recovering == old(recovering)
      ensures line.Client? && !line.inbound ==>
                line.queueID in logins && logins[line.queueID] == LoginLine(line.login, start)
      ensures !line.Client? || line.inbound ==> logins == old(logins) && keys == old(keys)
      ensures line.FromRefused? ==>
                && pending == old(pending)
                && var known := line.queueID in logins;
                   recovering == old(recovering) +
                     [Recovery(line.queueID, if known then logins[line.queueID].login else "", line.from, line.to,
                          line.sender, line.headerFrom, at, now + 30,
                          if known && logins[line.queueID].start.fp == start.fp
                             && logins[line.queueID].start.at < start.at
                          then logins[line.queueID].start else start)]
      ensures !line.FromRefused? ==> recovering == old(recovering)
      ensures line.Refused? && !line.inbound && line.ip.Some? && line.login != "" && !attached ==>
                pending == old(pending) + [Refusal(line.ip.value, line.login, line.from, at, now + 30, start)]
      ensures (line.Refused? && (line.inbound || line.ip.None? || line.login == "" || attached)) || line.Other? ==>
                pending == old(pending)
    {
      match line {
        case Client(inbound, queueID, login) =>
          if !inbound {
            Remember(queueID, LoginLine(login, start));
          }
        case FromRefused(queueID, sender, headerFrom, from, to) =>
          var place, login := start, "";
          if queueID in logins {
            login := logins[queueID].login;
            if logins[queueID].start.fp == start.fp && logins[queueID].start.at < start.at {
              place := logins[queueID].start;
            }
          }
          recovering := recovering + [Recovery(queueID, login, from, to, sender, headerFrom, at, now + WAIT, place)];
        case Refused(inbound, ip, login, from) =>
          if inbound || login == "" || ip.None? {
            return;
          }
          if !attached {
            pending := pending + [Refusal(ip.value, login, from, at, now + WAIT, start)];
          }
        case Other =>
      }
    }

    // The waiting lines once more; attached is the store's answer for each.
    method Retry(now: int, attached: seq<bool>) returns (write: seq<Recovery>)
      requires Valid() && |attached| == |pending|
      modifies this`pending, this`recovering
      ensures Valid()
      ensures pending == Unattached(old(pending), attached, now)
      ensures recovering == Early(old(recovering), now) && write == Due(old(recovering), now)
    {
      var kept: seq<Refusal> := [];
      for i := 0 to |pending|
        invariant kept == Unattached(pending[..i], attached[..i], now)
      {
        assert pending[..i + 1][..i] == pending[..i] && attached[..i + 1][..i] == attached[..i];
        if !attached[i] && now <= pending[i].until {
          kept := kept + [pending[i]];
        }
      }
      assert pending[..|pending|] == pending && attached[..|pending|] == attached;
      var waiting: seq<Recovery> := [];
      write := [];
      for i := 0 to |recovering|
        invariant waiting == Early(recovering[..i], now) && write == Due(recovering[..i], now)
      {
        assert recovering[..i + 1][..i] == recovering[..i];
        if now <= recovering[i].until {
          waiting := waiting + [recovering[i]];
        } else {
          write := write + [recovering[i]];
        }
      }
      assert recovering[..|recovering|] == recovering;
      pending, recovering := kept, waiting;
    }
  }
}
