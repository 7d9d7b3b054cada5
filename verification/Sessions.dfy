/**
 A journal session from MAIL FROM to the end of a message (internal/milter, milter.go and ratelimit.go): its
 slots, its recipients, its rows.
 */
module Sessions {
  import opened Wrappers
  import opened Strings
  import opened AddressForm
  import opened SendLog
  import opened SendLogStore
  import opened Inflight
  import opened Recipients
  import SenderCheck

  // A limit as the store answers for it.
  datatype Lookup = StoreError | Absent | Found(max: nat, window: nat)

  datatype RateLimit = RateLimit(key: string, max: nat, window: nat)

  predicate Active(l: Lookup) {
    l.Found? && l.max > 0 && l.window > 0
  }

  // The ceiling a message is held to: the application's own, or else its domain's. No login, no domain or
  // a store that fails is no ceiling.
  function Ceiling(login: string, app: Lookup, domain: string, dom: Lookup): Option<RateLimit> {
    if login == "" then None
    else if Active(app) then Some(RateLimit("application|" + login, app.max, app.window))
    else if domain != "" && Active(dom) then Some(RateLimit("domain|" + domain, dom.max, dom.window))
    else None
  }

  // What the store knows of a login: whether its address list lets the client in - none for a login that is no
  // application's, or a store that fails - its limit, its domain and that one's limit, and the count of the
  // messages of an application or a domain since a time, none when the store fails.
  datatype Standing = Standing(allows: Option<bool>, app: Lookup, domain: string, dom: Lookup,
                               count: (string, int) -> Option<nat>)

  predicate Barred(login: string, known: Standing) {
    login != "" && known.allows == Some(false)
  }

  ghost function Members(s: seq<Reservation>): set<Reservation> {
    set r | r in s
  }

  function At(m: map<string, set<Reservation>>, key: string): set<Reservation> {
    if key in m then m[key] else {}
  }

  // The slots under a key but for those given back, let in since then.
  ghost function Since(m: map<string, set<Reservation>>, key: string, gone: seq<Reservation>, since: int)
    : set<Reservation>
  {
    set r | r in At(m, key) && r !in gone && r.at >= since
  }

  // The registry as it was under all other keys, but for what is given back.
  ghost predicate GivenBack(m: map<string, set<Reservation>>, gone: seq<Reservation>,
                            m': map<string, set<Reservation>>, key: Option<string>)
  {
    forall k | key != Some(k) :: At(m', k) == At(m, k) - Members(gone)
  }

  // What a limit of max messages in a window, on what is sent under the key, makes of one more: it is refused exactly
  // if the messages counted and those on their way - let in within the window and the last ten minutes, and not given
  // back - reach max, and holds a slot under the key otherwise; a store that fails lets it in.
  ghost predicate HeldTo(key: string, max: nat, window: nat, known: Standing, now: int,
                         m: map<string, set<Reservation>>, gone: seq<Reservation>,
                         m': map<string, set<Reservation>>, refused: bool, reserved: seq<Reservation>)
  {
    match known.count(key, now - window)
    case None => !refused && reserved == [] && GivenBack(m, gone, m', None)
    case Some(n) =>
      && (refused <==> n + |Since(m, key, gone, now - if window < 600 then window else 600)| >= max)
      && (refused ==> reserved == [])
      && (!refused ==> |reserved| == 1 && reserved[0].key == key && reserved[0].at == now)
      && GivenBack(m, gone, m', Some(key))
      && At(m', key) == Since(m, key, gone, now - 600) + Members(reserved)
  }

  // The application's limit, where it has one in force, whatever its domain's is; else its domain's; without a login,
  // a domain or a limit in force, none.
  ghost predicate Decided(login: string, known: Standing, now: int, m: map<string, set<Reservation>>,
                          gone: seq<Reservation>, m': map<string, set<Reservation>>, refused: bool,
                          reserved: seq<Reservation>)
  {
    if login != "" && known.app.Found? && known.app.max > 0 && known.app.window > 0 then
      HeldTo("application|" + login, known.app.max, known.app.window, known, now, m, gone, m', refused, reserved)
    else if login != "" && known.domain != "" && known.dom.Found? && known.dom.max > 0 && known.dom.window > 0 then
      HeldTo("domain|" + known.domain, known.dom.max, known.dom.window, known, now, m, gone, m', refused, reserved)
    else
      !refused && reserved == [] && GivenBack(m, gone, m', None)
  }

  lemma CeilingDecides(login: string, known: Standing, now: int, m: map<string, set<Reservation>>,
                       m': map<string, set<Reservation>>, refused: bool, reserved: seq<Reservation>)
    requires match Ceiling(login, known.app, known.domain, known.dom)
             case None => !refused && reserved == [] && m' == m
             case Some(l) => HeldTo(l.key, l.max, l.window, known, now, m, [], m', refused, reserved)
    ensures Decided(login, known, now, m, [], m', refused, reserved)
  {
    hide HeldTo;
  }

  // A slot taken, or not, as the registry answers.
  lemma AnswerHeldTo(l: RateLimit, known: Standing, now: int, m: map<string, set<Reservation>>,
                     m': map<string, set<Reservation>>, r: Option<Reservation>)
    requires known.count(l.key, now - l.window).Some?
    requires var n := known.count(l.key, now - l.window).value;
             r.Some? <==> n + |Within(Fresh(At(m, l.key), now - TTL), now - l.window)| < l.max
    requires r.Some? ==> r.value.key == l.key && r.value.at == now
    requires At(m', l.key) == Fresh(At(m, l.key), now - TTL) + if r.Some? then {r.value} else {}
    requires forall k | k != l.key :: At(m', k) == At(m, k)
    ensures HeldTo(l.key, l.max, l.window, known, now, m, [], m', r.None?, if r.Some? then [r.value] else [])
  {
    hide *;
    SinceIs(m, l.key, now, l.window);
    OnlyReserved(r);
    Untouched(m, m', l.key);
    Held(l, known, now, m, m', r);
  }

  lemma OnlyReserved(r: Option<Reservation>)
    ensures Members(if r.Some? then [r.value] else []) == if r.Some? then {r.value} else {}
  {
  }

  lemma Untouched(m: map<string, set<Reservation>>, m': map<string, set<Reservation>>, key: string)
    requires forall k | k != key :: At(m', k) == At(m, k)
    ensures GivenBack(m, [], m', Some(key))
  {
    assert Members([]) == {};
    hide At, Members;
  }

  lemma Held(l: RateLimit, known: Standing, now: int, m: map<string, set<Reservation>>,
             m': map<string, set<Reservation>>, r: Option<Reservation>)
    requires known.count(l.key, now - l.window).Some?
    requires var n := known.count(l.key, now - l.window).value;
             r.Some? <==> n + |Since(m, l.key, [], now - if l.window < 600 then l.window else 600)| < l.max
    requires r.Some? ==> r.value.key == l.key && r.value.at == now
    requires GivenBack(m, [], m', Some(l.key))
    requires At(m', l.key) == Since(m, l.key, [], now - 600) + Members(if r.Some? then [r.value] else [])
    ensures HeldTo(l.key, l.max, l.window, known, now, m, [], m', r.None?, if r.Some? then [r.value] else [])
  {
    hide Since, GivenBack, Members, At;
  }

  lemma UncountedHeldTo(l: RateLimit, known: Standing, now: int, m: map<string, set<Reservation>>)
    requires known.count(l.key, now - l.window).None?
    ensures HeldTo(l.key, l.max, l.window, known, now, m, [], m, false, [])
  {
    assert Members([]) == {};
  }

  lemma SinceIs(m: map<string, set<Reservation>>, key: string, now: int, window: nat)
    ensures Since(m, key, [], now - if window < 600 then window else 600) ==
            Within(Fresh(At(m, key), now - TTL), now - window)
    ensures Since(m, key, [], now - 600) == Fresh(At(m, key), now - TTL)
  {
  }

  lemma HeldReleased(key: string, max: nat, window: nat, known: Standing, now: int, m0: map<string, set<Reservation>>,
                     gone: seq<Reservation>, m: map<string, set<Reservation>>, m': map<string, set<Reservation>>,
                     refused: bool, reserved: seq<Reservation>)
    requires forall k :: At(m, k) == At(m0, k) - Members(gone)
    requires HeldTo(key, max, window, known, now, m, [], m', refused, reserved)
    ensures HeldTo(key, max, window, known, now, m0, gone, m', refused, reserved)
  {
    SinceReleased(key, now - 600, m0, gone, m);
    SinceReleased(key, now - if window < 600 then window else 600, m0, gone, m);
    GivenReleased(Some(key), m0, gone, m, m');
    GivenReleased(None, m0, gone, m, m');
    hide Since, GivenBack, Members, At;
  }

  lemma SinceReleased(key: string, since: int, m0: map<string, set<Reservation>>, gone: seq<Reservation>,
                      m: map<string, set<Reservation>>)
    requires At(m, key) == At(m0, key) - Members(gone)
    ensures Since(m, key, [], since) == Since(m0, key, gone, since)
  {
    hide At;
  }

  lemma GivenReleased(key: Option<string>, m0: map<string, set<Reservation>>, gone: seq<Reservation>,
                      m: map<string, set<Reservation>>, m': map<string, set<Reservation>>)
    requires forall k :: At(m, k) == At(m0, k) - Members(gone)
    ensures GivenBack(m, [], m', key) == GivenBack(m0, gone, m', key)
  {
    assert Members([]) == {};
    hide At, Members;
  }

  // The slots given back first.
  lemma ReleasedFirst(login: string, known: Standing, now: int, m0: map<string, set<Reservation>>,
                      gone: seq<Reservation>, m: map<string, set<Reservation>>, m': map<string, set<Reservation>>,
                      refused: bool, reserved: seq<Reservation>)
    requires forall k :: At(m, k) == At(m0, k) - Members(gone)
    requires Decided(login, known, now, m, [], m', refused, reserved)
    ensures Decided(login, known, now, m0, gone, m', refused, reserved)
  {
    hide HeldTo, GivenBack, At, Members;
    if login != "" && known.app.Found? && known.app.max > 0 && known.app.window > 0 {
      HeldReleased("application|" + login, known.app.max, known.app.window, known, now, m0, gone, m, m', refused,
        reserved);
    } else if login != "" && known.domain != "" && known.dom.Found? && known.dom.max > 0 && known.dom.window > 0 {
      HeldReleased("domain|" + known.domain, known.dom.max, known.dom.window, known, now, m0, gone, m, m', refused,
        reserved);
    } else {
      GivenReleased(None, m0, gone, m, m');
    }
  }

  lemma HeldIsAt(flight: Registry)
    ensures forall k :: flight.Held(k) == At(flight.m, k)
  {
  }

  class Session {
    const flight: Registry
    var login: string
    var from: string
    var clientIp: string
    var subject: string
    var rcpts: seq<string>
    var reserved: seq<Reservation>
    // The history: the addresses of this message's RCPT TO commands.
    ghost var given: seq<string>

    // The recipients are the addresses given, as Postfix logs them, each once.
    ghost predicate Valid()
      reads this, flight
    {
      flight.Valid() && rcpts == Deduplicated(AllLogged(given))
    }

    constructor (flight: Registry)
      requires flight.Valid()
      ensures Valid() && this.flight == flight && reserved == [] && given == []
    {
      this.flight, login, from, clientIp, subject := flight, "", "", "", "";
      rcpts, reserved, given := [], [], [];
    }

    // Every slot the message holds goes back, and no other.
    method ReleaseReservations()
      requires flight.Valid()
      modifies this`reserved, flight`m
      ensures flight.Valid() && reserved == []
      ensures forall k :: flight.Held(k) == old(flight.Held(k)) - Members(old(reserved))
    {
      for i := 0 to |reserved|
        invariant flight.Valid() && reserved == old(reserved)
        invariant forall k :: flight.Held(k) == old(flight.Held(k)) - Members(reserved[..i])
      {
        flight.Release(reserved[i]);
        assert reserved[..i + 1] == reserved[..i] + [reserved[i]];
        forall k ensures flight.Held(k) == old(flight.Held(k)) - Members(reserved[..i + 1]) {
          assert k != reserved[i].key ==> reserved[i] !in flight.Held(k);
        }
      }
      assert reserved[..|reserved|] == reserved;
      reserved := [];
    }

    // Whether the limit refuses the message; if not, and there is one, it holds a slot.
    method OverLimit(known: Standing, now: int) returns (refused: bool)
      requires flight.Valid() && reserved == []
      modifies this`reserved, flight
      ensures flight.Valid()
      ensures Decided(login, known, now, old(flight.m), [], flight.m, refused, reserved)
      ensures refused ==> reserved == []
    {
      hide HeldTo, Ceiling, Fresh, Within, Decided, At;
      ghost var before := flight.m;
      var limit := Ceiling(login, known.app, known.domain, known.dom);
      if limit.None? {
        CeilingDecides(login, known, now, before, before, false, []);
        return false;
      }
      HeldIsAt(flight);
      var l := limit.value;
      var count := known.count(l.key, now - l.window);
      if count.None? {
        UncountedHeldTo(l, known, now, before);
        CeilingDecides(login, known, now, before, before, false, []);
        return false;
      }
      var r, total := flight.TryAdmit(l.key, now - l.window, count.value, l.max, now);
      HeldIsAt(flight);
      AnswerHeldTo(l, known, now, before, flight.m, r);
      if r.None? {
        CeilingDecides(login, known, now, before, flight.m, true, []);
        return true;
      }
      reserved := reserved + [r.value];
      assert reserved == [r.value];
      CeilingDecides(login, known, now, before, flight.m, false, reserved);
      return false;
    }

    // MAIL FROM: what the message before held goes back; a client its application does not let in, and a message
    // over the limit, are refused and recorded.
    method MailFrom(from: string, clientIp: string, login: string, known: Standing, table: Table, now: int,
                    created: nat)
      returns (why: Option<Reason>)
      requires Valid() && table.Valid()
      modifies this, flight, table
      ensures Valid() && table.Valid() && given == [] && subject == ""
      ensures this.login == login && this.from == Clean(from)
      ensures this.clientIp == if clientIp == "" then old(this.clientIp) else clientIp
      ensures why.Some? ==>
                reserved == [] &&
                table.rows == old(table.rows) +
                  [Row(old(table.nextId), "", "", Mail(login, this.from, known.domain, "", "", this.clientIp),
                       Rejected, why.value, created)]
      ensures why.None? ==> table.rows == old(table.rows)
      ensures why == Some(Client) <==> login != "" && known.allows == Some(false)
      ensures why in {None, Some(Client), Some(Limit)}
      ensures why == Some(Client) ==> GivenBack(old(flight.m), old(reserved), flight.m, None)
      ensures why != Some(Client) ==>
                Decided(login, known, now, old(flight.m), old(reserved), flight.m, why == Some(Limit), reserved)
    {
      NothingGiven();
      hide AllLogged, Deduplicated, Clean, Conserved, Apply, Decided;
      ghost var before, gone := flight.m, reserved;
      ReleaseReservations();
      ghost var left := flight.m;
      assert forall k :: At(left, k) == flight.Held(k) == At(before, k) - Members(gone);
      if clientIp != "" {
        this.clientIp := clientIp;
      }
      this.from, this.login, rcpts, given, subject := Clean(from), login, [], [], "";
      why := None;
      if Barred(login, known) {
        why := Some(Client);
      } else {
        var over := OverLimit(known, now);
        ReleasedFirst(login, known, now, before, gone, left, flight.m, over, reserved);
        if over {
          why := Some(Limit);
        }
      }
      if why.Some? {
        table.InsertRejected(Mail(login, this.from, known.domain, "", "", this.clientIp), why.value, created);
      }
    }

    // Only the first Subject is kept.
    method Header(name: string, value: string)
      requires Valid()
      modifies this`subject
      ensures Valid()
      ensures subject == if old(subject) == "" && Lower(name) == "subject" then value else old(subject)
    {
      if subject == "" && Lower(name) == "subject" {
        subject := value;
      }
    }

    method RcptTo(rcpt: string)
      requires Valid()
      modifies this`rcpts, this`given
      ensures Valid() && given == old(given) + [rcpt]
    {
      hide AsLogged, Lower;
      var to := RecipientAsLogged(rcpt);
      AllLoggedSnoc(given, rcpt);
      ghost var tos := AllLogged(given);
      assert (tos + [to])[..|tos|] == tos;
      given := given + [rcpt];
      for i := 0 to |rcpts|
        invariant rcpts == old(rcpts) && flight.Valid()
        invariant forall k | 0 <= k < i :: Lower(rcpts[k]) != Lower(to)
      {
        if Lower(rcpts[i]) == Lower(to) {
          assert Known(rcpts, to);
          return;
        }
      }
      assert !Known(rcpts, to);
      rcpts := rcpts + [to];
    }

    // The end of the message: its rows are in the send log, and then its slots go back.
    method Body(table: Table, queueId: string, created: nat)
      requires Valid() && table.Valid()
      modifies this`reserved, flight`m, table
      ensures Valid() && table.Valid() && reserved == [] && given == old(given)
      ensures table.rows == old(table.rows) +
                RowsOf(queueId, Mail(login, from, SenderCheck.DomainOf(from), subject, "", ""),
                       OrNobody(Deduplicated(AllLogged(given))), created, old(table.nextId))
      ensures forall k :: flight.Held(k) == old(flight.Held(k)) - Members(old(reserved))
    {
      hide RowsOf, AllLogged, Deduplicated, OrNobody;
      Record(table, queueId, Mail(login, from, SenderCheck.DomainOf(from), subject, "", ""), rcpts, created);
      ReleaseReservations();
    }

    method Abort()
      requires Valid()
      modifies this, flight`m
      ensures Valid() && reserved == [] && given == [] && subject == ""
      ensures forall k :: flight.Held(k) == old(flight.Held(k)) - Members(old(reserved))
    {
      NothingGiven();
      hide AllLogged, Deduplicated;
      ReleaseReservations();
      rcpts, given, subject := [], [], "";
    }
  }

  lemma NothingGiven()
    ensures Deduplicated(AllLogged([])) == []
  {
  }

  lemma AllLoggedSnoc(given: seq<string>, rcpt: string)
    ensures AllLogged(given + [rcpt]) == AllLogged(given) + [AsLogged(rcpt)]
  {
    hide AsLogged;
  }
}
