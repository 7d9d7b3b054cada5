/**
 The send log of internal/store: rows the milter inserts, the log tailer advances and the reconcile sweep
 closes. A line of mail.log speaks of the newest row of its queue id and recipient that is not a refusal.
 */
module SendLog {
  import opened Strings
  import opened Wrappers

  datatype Status = Queued | Sent | Deferred | Bounced | Rejected

  // Why a row was refused, or who decided a bounced row the log did not.
  datatype Reason = NoReason | Limit | Client | From | Sender | Reconcile | Contradicted

  // What a row holds of its message beside the recipient: nothing a line of the log changes.
  datatype Mail = Mail(app: string, from: string, domain: string, subject: string, headerFrom: string, clientIp: string)

  datatype Row = Row(id: nat, queueId: string, to: string, mail: Mail, status: Status, reason: Reason, created: nat)

  predicate Open(s: Status) {
    s == Queued || s == Deferred
  }

  // COLLATE NOCASE folds the 26 upper-case letters of ASCII.
  predicate SamePair(r: Row, queueId: string, to: string) {
    r.queueId == queueId && Lower(r.to) == Lower(to) && r.status != Rejected
  }

  // The row MAX(id) picks among those of its queue id and recipient: rows are in the order of their ids.
  predicate Newest(rows: seq<Row>, i: nat)
    requires i < |rows|
  {
    && rows[i].status != Rejected
    && forall j | i < j < |rows| :: !SamePair(rows[j], rows[i].queueId, rows[i].to)
  }

  // What a line of mail.log says of the send log: a delivery result, the expiry of a message, or nothing.
  datatype Line = Delivery(queueId: string, to: string, status: Status) | Expiry(queueId: string) | Other

  // parseDelivery knows three results.
  predicate WellFormed(line: Line) {
    line.Delivery? ==> line.status in {Sent, Deferred, Bounced}
  }

  predicate About(line: Line, r: Row) {
    match line
    case Delivery(q, to, _) => SamePair(r, q, to)
    case Expiry(q) => r.queueId == q && r.status != Rejected
    case Other => false
  }

  function Heard(reason: Reason): Reason {
    if reason == Reconcile then Contradicted else reason
  }

  // UpdateStatus or ExpireMessage on the one row.
  function Act(r: Row, line: Line): Row {
    if !About(line, r) then r
    else if line.Delivery? then r.(status := line.status, reason := Heard(r.reason))
    else if Open(r.status) then r.(status := Bounced)
    else r
  }

  // The statement on the whole table.
  function Handle(rows: seq<Row>, line: Line): (res: seq<Row>)
    ensures |res| == |rows|
  {
    seq(|rows|, i requires 0 <= i < |rows| => if Newest(rows, i) then Act(rows[i], line) else rows[i])
  }

  function HandleAll(rows: seq<Row>, log: seq<Line>): (res: seq<Row>)
    ensures |res| == |rows|
    decreases |log|
  {
    if log == [] then rows else HandleAll(Handle(rows, log[0]), log[1..])
  }

  // ---- what the statements do, row by row

  // The last row of that queue id and recipient, in any case of it, that is no refusal.
  ghost predicate LastOf(rows: seq<Row>, i: nat, queueId: string, to: string)
    requires i < |rows|
  {
    && rows[i].queueId == queueId && Lower(rows[i].to) == Lower(to) && rows[i].status != Rejected
    && forall j | i < j < |rows| && rows[j].queueId == queueId && Lower(rows[j].to) == Lower(to) ::
         rows[j].status == Rejected
  }

  lemma NewestIs(rows: seq<Row>, i: nat, queueId: string, to: string)
    requires i < |rows| && SamePair(rows[i], queueId, to)
    ensures Newest(rows, i) <==> LastOf(rows, i, queueId, to)
  {
    forall j | i < j < |rows|
      ensures SamePair(rows[j], rows[i].queueId, rows[i].to) <==>
              rows[j].queueId == queueId && Lower(rows[j].to) == Lower(to) && rows[j].status != Rejected
    {
    }
  }

  // A delivery line sets the status of the last row of its pair, and takes the mark of a close off it.
  lemma DeliveryIs(rows: seq<Row>, queueId: string, to: string, status: Status)
    ensures forall i | 0 <= i < |rows| ::
              Handle(rows, Delivery(queueId, to, status))[i] ==
              if !LastOf(rows, i, queueId, to) then rows[i]
              else rows[i].(status := status,
                            reason := if rows[i].reason == Reconcile then Contradicted else rows[i].reason)
  {
    forall i: nat | i < |rows| && SamePair(rows[i], queueId, to)
      ensures Newest(rows, i) <==> LastOf(rows, i, queueId, to)
    {
      NewestIs(rows, i, queueId, to);
    }
    hide Newest;
  }

  // An expiry bounces those rows of its message that are queued or deferred, each the last of its pair.
  lemma ExpiryIs(rows: seq<Row>, queueId: string)
    ensures forall i | 0 <= i < |rows| ::
              Handle(rows, Expiry(queueId))[i] ==
              if rows[i].status in {Queued, Deferred} && LastOf(rows, i, queueId, rows[i].to)
              then rows[i].(status := Bounced) else rows[i]
  {
    forall i: nat | i < |rows| && SamePair(rows[i], queueId, rows[i].to)
      ensures Newest(rows, i) <==> LastOf(rows, i, queueId, rows[i].to)
    {
      NewestIs(rows, i, queueId, rows[i].to);
    }
    hide Newest;
  }

  // ---- one row under a log: what counts is the last delivery line, and whether the message expired after it

  function ActAll(r: Row, log: seq<Line>): Row
    decreases |log|
  {
    if log == [] then r else ActAll(Act(r, log[0]), log[1..])
  }

  ghost predicate SameKey(r: Row, r': Row) {
    && r.id == r'.id && r.queueId == r'.queueId && r.to == r'.to && r.mail == r'.mail && r.created == r'.created
    && (r.status == Rejected <==> r'.status == Rejected)
  }

  // The status the log itself settles for the row, read from its end.
  function Verdict(log: seq<Line>, r: Row): Option<Status> {
    if log == [] then None else
      var front, line := log[..|log| - 1], log[|log| - 1];
      if !About(line, r) then Verdict(front, r)
      else if line.Delivery? then Some(line.status)
      else match Verdict(front, r)
        case Some(s) => Some(if Open(s) then Bounced else s)
        case None => None
  }

  predicate Expired(log: seq<Line>, r: Row) {
    exists i | 0 <= i < |log| :: log[i].Expiry? && About(log[i], r)
  }

  // What the row ends with: the log's verdict where it has one.
  function Outcome(r: Row, log: seq<Line>): Row {
    match Verdict(log, r)
    case Some(s) => r.(status := s, reason := Heard(r.reason))
    case None => if Expired(log, r) && Open(r.status) then r.(status := Bounced) else r
  }

  ghost predicate WellFormedLog(log: seq<Line>) {
    forall i | 0 <= i < |log| :: WellFormed(log[i])
  }

  lemma {:induction false} ActAllSnoc(r: Row, log: seq<Line>, line: Line)
    ensures ActAll(r, log + [line]) == Act(ActAll(r, log), line)
    decreases |log|
  {
    if log == [] {
      assert [line][1..] == [];
    } else {
      assert (log + [line])[1..] == log[1..] + [line];
      ActAllSnoc(Act(r, log[0]), log[1..], line);
    }
  }

  lemma {:induction false} ActAllIsOutcome(r: Row, log: seq<Line>)
    requires WellFormedLog(log)
    ensures ActAll(r, log) == Outcome(r, log)
    ensures SameKey(ActAll(r, log), r)
  {
    if log != [] {
      var front, line := log[..|log| - 1], log[|log| - 1];
      assert log == front + [line];
      ActAllSnoc(r, front, line);
      ActAllIsOutcome(r, front);
      assert About(line, ActAll(r, front)) == About(line, r);
      assert Expired(log, r) <==> Expired(front, r) || (line.Expiry? && About(line, r));
    }
  }

  // Only the key of a row decides what a log says of it.
  lemma {:induction false} VerdictOfKey(log: seq<Line>, r: Row, r': Row)
    requires SameKey(r, r')
    ensures Verdict(log, r) == Verdict(log, r') && (Expired(log, r) <==> Expired(log, r'))
  {
    assert forall line :: About(line, r) == About(line, r');
    if log != [] {
      VerdictOfKey(log[..|log| - 1], r, r');
    }
  }

  // A line the log will say again makes no difference now.
  lemma Absorb(r: Row, log: seq<Line>, line: Line)
    requires WellFormedLog(log) && line in log
    ensures ActAll(Act(r, line), log) == ActAll(r, log)
  {
    assert WellFormed(line);
    ActAllIsOutcome(r, log);
    ActAllIsOutcome(Act(r, line), log);
    VerdictOfKey(log, r, Act(r, line));
    if line.Delivery? && About(line, r) {
      HasVerdict(log, r, line);
    }
  }

  lemma {:induction false} HasVerdict(log: seq<Line>, r: Row, line: Line)
    requires line in log && line.Delivery? && About(line, r)
    ensures Verdict(log, r).Some?
  {
    var front := log[..|log| - 1];
    if log[|log| - 1] != line {
      assert line in front;
      HasVerdict(front, r, line);
    }
  }

  // ---- the table is its rows

  lemma HandleKeys(rows: seq<Row>, line: Line)
    requires WellFormed(line)
    ensures forall i | 0 <= i < |rows| :: SameKey(Handle(rows, line)[i], rows[i])
    ensures forall i | 0 <= i < |rows| :: Newest(Handle(rows, line), i) == Newest(rows, i)
  {
    SameNewest(rows, Handle(rows, line));
  }

  lemma SameNewest(rows: seq<Row>, rows': seq<Row>)
    requires |rows| == |rows'| && forall i | 0 <= i < |rows| :: SameKey(rows'[i], rows[i])
    ensures forall i | 0 <= i < |rows| :: Newest(rows', i) == Newest(rows, i)
  {
    forall i | 0 <= i < |rows| ensures Newest(rows', i) == Newest(rows, i) {
      forall j | i < j < |rows|
        ensures SamePair(rows'[j], rows'[i].queueId, rows'[i].to) == SamePair(rows[j], rows[i].queueId, rows[i].to)
      {
        assert SameKey(rows'[j], rows[j]) && SameKey(rows'[i], rows[i]);
      }
    }
  }

  lemma {:induction false} HandleAllRows(rows: seq<Row>, log: seq<Line>, i: nat)
    requires WellFormedLog(log) && i < |rows|
    ensures HandleAll(rows, log)[i] == if Newest(rows, i) then ActAll(rows[i], log) else rows[i]
    decreases |log|
  {
    if log != [] {
      HandleKeys(rows, log[0]);
      HandleAllRows(Handle(rows, log[0]), log[1..], i);
    }
  }

  // ---- a tailer that stops, is killed and reads again, beside a sweep

  // CloseUnreported.
  function CloseRow(r: Row, id: nat): Row {
    if r.id == id && Open(r.status) then r.(status := Bounced, reason := Reconcile) else r
  }

  function Close(rows: seq<Row>, id: nat): (res: seq<Row>)
    ensures |res| == |rows|
  {
    seq(|rows|, i requires 0 <= i < |rows| => CloseRow(rows[i], id))
  }

  // A close bounces and marks the row of that id, where that is queued or deferred, and no other.
  lemma CloseIs(rows: seq<Row>, id: nat)
    ensures forall i | 0 <= i < |rows| ::
              Close(rows, id)[i] ==
              if rows[i].id == id && rows[i].status in {Queued, Deferred}
              then rows[i].(status := Bounced, reason := Reconcile) else rows[i]
  {
  }

  // The tailer handles the line at its place; is started again from an earlier place; or the sweep closes a row.
  datatype Step = Read | Back(to: nat) | Sweep(id: nat)

  datatype State = State(rows: seq<Row>, pos: nat)

  function Do(s: State, log: seq<Line>, step: Step): (s': State)
    requires s.pos <= |log|
    ensures s'.pos <= |log| && |s'.rows| == |s.rows|
  {
    match step
    case Read => if s.pos < |log| then State(Handle(s.rows, log[s.pos]), s.pos + 1) else s
    case Back(to) => if to <= s.pos then s.(pos := to) else s
    case Sweep(id) => s.(rows := Close(s.rows, id))
  }

  function DoAll(s: State, log: seq<Line>, steps: seq<Step>): (s': State)
    requires s.pos <= |log|
    ensures s'.pos <= |log| && |s'.rows| == |s.rows|
  {
    if steps == [] then s else
      var n := |steps| - 1;
      Do(DoAll(s, log, steps[..n]), log, steps[n])
  }

  // What a row is with the sweep beside the log, against what it is by the log alone: the same status, or one
  // the log leaves open and the sweep closed.
  ghost predicate SweptFrom(r: Row, plain: Row) {
    && SameKey(r, plain)
    && (r.status == plain.status || (Open(plain.status) && r.status == Bounced && r.reason == Reconcile))
  }

  // From every place the tailer may be set back to, reading on to the end of the log settles the row.
  ghost predicate Settles(r: Row, start: Row, log: seq<Line>, pos: nat, swept: bool)
    requires pos <= |log|
  {
    forall a: nat {:trigger log[a..]} | a <= pos ::
      if swept then SweptFrom(ActAll(r, log[a..]), ActAll(start, log)) else ActAll(r, log[a..]) == ActAll(start, log)
  }

  ghost predicate Settled(rows: seq<Row>, start: seq<Row>, log: seq<Line>, pos: nat, swept: bool)
    requires pos <= |log|
  {
    && |rows| == |start|
    && (forall i | 0 <= i < |rows| :: SameKey(rows[i], start[i]))
    && (forall i | 0 <= i < |rows| && Newest(start, i) :: Settles(rows[i], start[i], log, pos, swept))
    && (forall i | 0 <= i < |rows| && !Newest(start, i) ::
          if swept then SweptFrom(rows[i], start[i]) else rows[i] == start[i])
  }

  lemma ReadSettles(r: Row, start: Row, log: seq<Line>, pos: nat, swept: bool)
    requires WellFormedLog(log) && pos < |log| && Settles(r, start, log, pos, swept)
    ensures Settles(Act(r, log[pos]), start, log, pos + 1, swept)
  {
    forall a: nat {:trigger log[a..]} | a <= pos + 1
      ensures ActAll(Act(r, log[pos]), log[a..]) == ActAll(r, log[if a <= pos then a else pos..])
    {
      if a <= pos {
        assert log[pos] == log[a..][pos - a];
        Absorb(r, log[a..], log[pos]);
      } else {
        assert log[pos..][0] == log[pos] && log[pos..][1..] == log[pos + 1..];
      }
    }
  }

  lemma CloseSettles(r: Row, start: Row, log: seq<Line>, pos: nat, id: nat)
    requires WellFormedLog(log) && pos <= |log| && Settles(r, start, log, pos, true)
    ensures Settles(CloseRow(r, id), start, log, pos, true)
  {
    forall a: nat {:trigger log[a..]} | a <= pos
        ensures SweptFrom(ActAll(CloseRow(r, id), log[a..]), ActAll(start, log)) {
      ActAllIsOutcome(r, log[a..]);
      ActAllIsOutcome(CloseRow(r, id), log[a..]);
      VerdictOfKey(log[a..], r, CloseRow(r, id));
      assert SweptFrom(ActAll(r, log[a..]), ActAll(start, log));
    }
  }

  ghost predicate NoSweep(steps: seq<Step>) {
    forall i | 0 <= i < |steps| :: !steps[i].Sweep?
  }

  lemma {:induction false} RunSettles(start: seq<Row>, log: seq<Line>, steps: seq<Step>)
    requires WellFormedLog(log)
    ensures var s := DoAll(State(start, 0), log, steps); Settled(s.rows, start, log, s.pos, !NoSweep(steps))
  {
    var n := |steps| - 1;
    if steps == [] {
      forall i | 0 <= i < |start| ensures Settles(start[i], start[i], log, 0, false) {
        assert log[0..] == log;
      }
    } else {
      RunSettles(start, log, steps[..n]);
      var s := DoAll(State(start, 0), log, steps[..n]);
      var was, swept := !NoSweep(steps[..n]), !NoSweep(steps);
      assert was ==> swept;
      SameNewest(start, s.rows);
      forall i | 0 <= i < |start| && Newest(start, i) ensures Settles(s.rows[i], start[i], log, s.pos, swept) {
        assert Settles(s.rows[i], start[i], log, s.pos, was);
      }
      StepSettles(s, start, log, steps[n], swept);
    }
  }

  lemma StepSettles(s: State, start: seq<Row>, log: seq<Line>, step: Step, swept: bool)
    requires WellFormedLog(log) && s.pos <= |log| && Settled(s.rows, start, log, s.pos, swept)
    requires step.Sweep? ==> swept
    ensures var s' := Do(s, log, step); Settled(s'.rows, start, log, s'.pos, swept)
  {
    SameNewest(start, s.rows);
    var s' := Do(s, log, step);
    if step.Read? && s.pos < |log| {
      HandleKeys(s.rows, log[s.pos]);
    }
    forall i | 0 <= i < |start| && Newest(start, i) ensures Settles(s'.rows[i], start[i], log, s'.pos, swept) {
      match step {
        case Read =>
          if s.pos < |log| {
            ReadSettles(s.rows[i], start[i], log, s.pos, swept);
          }
        case Back(_) =>
        case Sweep(id) =>
          CloseSettles(s.rows[i], start[i], log, s.pos, id);
      }
    }
  }

  // Reading a log with any number of stops, crashes and returns to earlier places leaves the send log
  // exactly as one pass over it does.
  lemma ReplayIsOnePass(start: seq<Row>, log: seq<Line>, steps: seq<Step>)
    requires WellFormedLog(log) && NoSweep(steps)
    requires DoAll(State(start, 0), log, steps).pos == |log|
    ensures DoAll(State(start, 0), log, steps).rows == HandleAll(start, log)
  {
    RunSettles(start, log, steps);
    var rows := DoAll(State(start, 0), log, steps).rows;
    assert log[|log|..] == [];
    forall i | 0 <= i < |start| ensures rows[i] == HandleAll(start, log)[i] {
      HandleAllRows(start, log, i);
    }
  }

  // With the sweep closing rows anywhere in between, a row still ends with the status the log gives it;
  // only one the log leaves open may have been closed, and then says who closed it.
  lemma SweepYieldsToTheLog(start: seq<Row>, log: seq<Line>, steps: seq<Step>, i: nat)
    requires WellFormedLog(log) && i < |start|
    requires DoAll(State(start, 0), log, steps).pos == |log|
    ensures var r, plain := DoAll(State(start, 0), log, steps).rows[i], HandleAll(start, log)[i];
            SweptFrom(r, plain) && (plain.status !in {Queued, Deferred} ==> r.status == plain.status)
  {
    RunSettles(start, log, steps);
    HandleAllRows(start, log, i);
    assert log[|log|..] == [];
    if Newest(start, i) {
      var r := DoAll(State(start, 0), log, steps).rows[i];
      assert ActAll(r, log[|log|..]) == r;
    }
  }

  // A final result of the log and a close of the same row, in either order: the log's result stands, and a
  // close it came after is marked as contradicted.
  lemma FinalResultStands(rows: seq<Row>, i: nat, status: Status)
    requires i < |rows| && Newest(rows, i) && rows[i].status in {Queued, Deferred} && status in {Sent, Bounced}
    ensures var line := Delivery(rows[i].queueId, rows[i].to, status);
            && Close(Handle(rows, line), rows[i].id)[i] == rows[i].(status := status, reason := Heard(rows[i].reason))
            && Handle(Close(rows, rows[i].id), line)[i] == rows[i].(status := status, reason := Contradicted)
  {
    var closed := Close(rows, rows[i].id);
    SameNewest(rows, closed);
    assert About(Delivery(rows[i].queueId, rows[i].to, status), closed[i]);
  }
}
