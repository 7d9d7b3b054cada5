/**
 The send log as the statements of internal/store change it, each an atomic step, with the counters of
 delivery_log_days; and the reconcile sweep of internal/logtail that goes over it.
 */
module SendLogStore {
  import opened Wrappers
  import opened SendLog

  // closed counts the rows a sweep closed, as they are closed; pruned, those still marked so when they were
  // deleted. pending is the running sweep's count and recorded what earlier sweeps wrote into the day's row;
  // dropped counts what sweeps stopped before their end did not write, unmatched the test messages closed.
  datatype Db = Db(rows: seq<Row>, nextId: nat, contradicted: nat, closed: nat, pruned: nat, pending: nat,
                   recorded: nat, dropped: nat, unmatched: nat)

  datatype Op =
    | InsertQueued(queueId: string, to: string, mail: Mail, created: nat)
    | InsertRejected(queueId: string, to: string, mail: Mail, why: Reason, created: nat)
    | SetQueueId(id: nat, queueId: string)
    | LogLine(line: Line)
    | CloseUnreported(id: nat)
    | CloseUnmatched(before: nat)
    | DeleteBefore(cutoff: nat)
    | EndSweep
    | Stop

  ghost predicate Possible(op: Op) {
    && (op.InsertRejected? ==> op.why in {Limit, Client, From, Sender})
    && (op.LogLine? ==> WellFormed(op.line))
  }

  function Marked(r: Row): nat {
    if r.reason == Reconcile then 1 else 0
  }

  function Reconciled(rows: seq<Row>): nat {
    if rows == [] then 0 else Reconciled(rows[..|rows| - 1]) + Marked(rows[|rows| - 1])
  }

  // Rows marked in rows and not in rows'.
  function Unmarked(rows: seq<Row>, rows': seq<Row>): nat
    requires |rows| == |rows'|
  {
    if rows == [] then 0 else
      var n := |rows| - 1;
      Unmarked(rows[..n], rows'[..n]) + if Marked(rows[n]) > Marked(rows'[n]) then 1 else 0
  }

  lemma {:induction false} Balance(rows: seq<Row>, rows': seq<Row>)
    requires |rows| == |rows'|
    ensures Reconciled(rows) + Unmarked(rows', rows) == Reconciled(rows') + Unmarked(rows, rows')
  {
    if rows != [] {
      var n := |rows| - 1;
      Balance(rows[..n], rows'[..n]);
    }
  }

  lemma {:induction false} NoneMarked(rows: seq<Row>, rows': seq<Row>)
    requires |rows| == |rows'| && forall i | 0 <= i < |rows| :: Marked(rows'[i]) <= Marked(rows[i])
    ensures Unmarked(rows', rows) == 0
  {
    if rows != [] {
      var n := |rows| - 1;
      NoneMarked(rows[..n], rows'[..n]);
    }
  }

  // The rows that stay, in order.
  function Keep(rows: seq<Row>, cutoff: nat): seq<Row> {
    if rows == [] then [] else
      var n := |rows| - 1;
      Keep(rows[..n], cutoff) + if rows[n].created < cutoff then [] else [rows[n]]
  }

  lemma {:induction false} KeepMarks(rows: seq<Row>, cutoff: nat)
    ensures Reconciled(Keep(rows, cutoff)) <= Reconciled(rows)
  {
    if rows != [] {
      var n := |rows| - 1;
      KeepMarks(rows[..n], cutoff);
      var front := Keep(rows[..n], cutoff);
      assert front + [] == front;
      assert (front + [rows[n]])[..|front|] == front;
    }
  }

  lemma {:induction false} KeepSound(rows: seq<Row>, cutoff: nat, nextId: nat)
    requires Sound(rows, nextId)
    ensures Sound(Keep(rows, cutoff), nextId)
    ensures forall k: nat :: Below(rows, k) ==> Below(Keep(rows, cutoff), k)
  {
    if rows != [] {
      var n := |rows| - 1;
      KeepSound(rows[..n], cutoff, nextId);
      assert Below(rows[..n], rows[n].id);
    }
  }

  ghost predicate Below(rows: seq<Row>, n: nat) {
    forall i | 0 <= i < |rows| :: rows[i].id < n
  }

  // Rows in the order of their ids, and none both closed by a sweep and open.
  ghost predicate Sound(rows: seq<Row>, nextId: nat) {
    && (forall i, j | 0 <= i < j < |rows| :: rows[i].id < rows[j].id)
    && Below(rows, nextId)
    && (forall i | 0 <= i < |rows| && rows[i].reason == Reconcile :: rows[i].status == Bounced)
  }

  function Unmatched(r: Row, before: nat): Row {
    if r.queueId == "" && r.mail.app == "" && r.status == Queued && r.created < before
    then r.(status := Bounced, reason := Reconcile) else r
  }

  function CloseTests(rows: seq<Row>, before: nat): (res: seq<Row>)
    ensures |res| == |rows|
  {
    seq(|rows|, i requires 0 <= i < |rows| => Unmatched(rows[i], before))
  }

  function Named(rows: seq<Row>, id: nat, queueId: string): (res: seq<Row>)
    ensures |res| == |rows|
  {
    seq(|rows|, i requires 0 <= i < |rows| =>
      if rows[i].id == id && rows[i].queueId == "" then rows[i].(queueId := queueId) else rows[i])
  }

  function Apply(db: Db, op: Op): Db {
    match op
    case InsertQueued(q, to, mail, created) =>
      db.(rows := db.rows + [Row(db.nextId, q, to, mail, Queued, NoReason, created)], nextId := db.nextId + 1)
    case InsertRejected(q, to, mail, why, created) =>
      db.(rows := db.rows + [Row(db.nextId, q, to, mail, Rejected, why, created)], nextId := db.nextId + 1)
    case SetQueueId(id, q) =>
      db.(rows := Named(db.rows, id, q))
    case LogLine(line) =>
      var rows := Handle(db.rows, line);
      db.(rows := rows, contradicted := db.contradicted + Unmarked(db.rows, rows))
    case CloseUnreported(id) =>
      var rows := Close(db.rows, id);
      var n := Unmarked(rows, db.rows);
      db.(rows := rows, closed := db.closed + n, pending := db.pending + n)
    case CloseUnmatched(before) =>
      var rows := CloseTests(db.rows, before);
      var n := Unmarked(rows, db.rows);
      db.(rows := rows, closed := db.closed + n, unmatched := db.unmatched + n)
    case DeleteBefore(cutoff) =>
      KeepMarks(db.rows, cutoff);
      var rows := Keep(db.rows, cutoff);
      db.(rows := rows, pruned := db.pruned + (Reconciled(db.rows) - Reconciled(rows)))
    case EndSweep =>
      db.(recorded := db.recorded + db.pending, pending := 0)
    case Stop =>
      db.(dropped := db.dropped + db.pending, pending := 0)
  }

  // The statements on messages written by the panel itself: a row without a queue id takes the one it is given, and is
  // closed, queued and of no application, once it is old enough.
  lemma TestMessagesAre(db: Db, id: nat, queueId: string, before: nat, i: nat)
    requires i < |db.rows|
    ensures var (r, named) := (db.rows[i], Apply(db, SetQueueId(id, queueId)).rows);
            |named| == |db.rows| && named[i] == if r.id == id && r.queueId == "" then r.(queueId := queueId) else r
    ensures var (r, closed) := (db.rows[i], Apply(db, CloseUnmatched(before)).rows);
            && |closed| == |db.rows|
            && (closed[i] != r ==> r.queueId == "" && r.mail.app == "" && r.status == Queued && r.created < before)
            && (r.queueId == "" && r.mail.app == "" && r.status == Queued && r.created < before ==>
                  closed[i] == r.(status := Bounced, reason := Reconcile))
  {
  }

  function ApplyAll(db: Db, ops: seq<Op>): Db {
    if ops == [] then db else Apply(ApplyAll(db, ops[..|ops| - 1]), ops[|ops| - 1])
  }

  function Empty(): Db {
    Db([], 1, 0, 0, 0, 0, 0, 0, 0)
  }

  // Every close is somewhere: contradicted by the log, still on its row, or deleted with it. And it is in the
  // day's counter, in the running sweep's, in that of a sweep stopped before its end, or a test message's.
  ghost predicate Conserved(db: Db) {
    && Sound(db.rows, db.nextId)
    && db.contradicted + Reconciled(db.rows) + db.pruned == db.closed
    && db.recorded + db.pending + db.dropped + db.unmatched == db.closed
  }

  lemma StepSound(db: Db, op: Op)
    requires Sound(db.rows, db.nextId) && Possible(op)
    ensures Sound(Apply(db, op).rows, Apply(db, op).nextId)
  {
    match op {
      case DeleteBefore(cutoff) =>
        KeepSound(db.rows, cutoff, db.nextId);
        hide Sound;
      case InsertQueued(_, _, _, _) =>
      case InsertRejected(_, _, _, _, _) =>
      case LogLine(_) => ChangeSound(db.rows, Apply(db, op).rows, db.nextId);
      case SetQueueId(_, _) => ChangeSound(db.rows, Apply(db, op).rows, db.nextId);
      case CloseUnreported(_) => ChangeSound(db.rows, Apply(db, op).rows, db.nextId);
      case CloseUnmatched(_) => ChangeSound(db.rows, Apply(db, op).rows, db.nextId);
      case EndSweep =>
      case Stop =>
    }
  }

  // Rows that change where they stand, and are bounced when they are marked.
  lemma ChangeSound(rows: seq<Row>, rows': seq<Row>, nextId: nat)
    requires Sound(rows, nextId) && |rows'| == |rows|
    requires forall i | 0 <= i < |rows| ::
               rows'[i].id == rows[i].id
               && (rows'[i] == rows[i] || rows'[i].reason != Reconcile || rows'[i].status == Bounced
                   || (rows'[i].reason == rows[i].reason && rows'[i].status == rows[i].status))
    ensures Sound(rows', nextId)
  {
  }

  lemma StepConserves(db: Db, op: Op)
    requires Conserved(db) && Possible(op)
    ensures Conserved(Apply(db, op))
  {
    StepSound(db, op);
    match op {
      case InsertQueued(_, _, _, _) => InsertBalances(db, op);
      case InsertRejected(_, _, _, _, _) => InsertBalances(db, op);
      case DeleteBefore(cutoff) =>
        KeepMarks(db.rows, cutoff);
        hide Sound, Keep, Reconciled;
      case EndSweep =>
      case Stop =>
      case _ => MarksBalance(db, op);
    }
  }

  lemma InsertBalances(db: Db, op: Op)
    requires Conserved(db) && Possible(op) && (op.InsertQueued? || op.InsertRejected?)
    requires Sound(Apply(db, op).rows, Apply(db, op).nextId)
    ensures Conserved(Apply(db, op))
  {
    hide Sound, Handle, Close, CloseTests, Named, Keep, Unmarked;
    assert Apply(db, op).rows[..|db.rows|] == db.rows;
  }

  lemma MarksBalance(db: Db, op: Op)
    requires Conserved(db) && Sound(Apply(db, op).rows, Apply(db, op).nextId)
    requires op.SetQueueId? || op.LogLine? || op.CloseUnreported? || op.CloseUnmatched?
    ensures Conserved(Apply(db, op))
  {
    Balance(db.rows, Apply(db, op).rows);
    MarksMoveOneWay(db, op);
    hide Sound, Handle, Close, CloseTests, Named, Reconciled, Unmarked;
  }

  // A line of the log takes the mark off and never puts it on; a close only puts it on; the rest do neither.
  lemma MarksMoveOneWay(db: Db, op: Op)
    requires op.SetQueueId? || op.LogLine? || op.CloseUnreported? || op.CloseUnmatched?
    ensures var rows := Apply(db, op).rows;
            && |rows| == |db.rows|
            && (op.SetQueueId? || op.LogLine? ==> Unmarked(rows, db.rows) == 0)
            && (!op.LogLine? ==> Unmarked(db.rows, rows) == 0)
  {
    var rows := Apply(db, op).rows;
    if op.SetQueueId? || op.LogLine? {
      NoneMarked(db.rows, rows);
    }
    if !op.LogLine? {
      NoneMarked(rows, db.rows);
    }
  }

  lemma EmptyConserved()
    ensures Conserved(Empty())
  {
  }

  ghost predicate AllPossible(ops: seq<Op>) {
    forall i | 0 <= i < |ops| :: Possible(ops[i])
  }

  lemma {:induction false} RunConserves(ops: seq<Op>)
    requires AllPossible(ops)
    ensures Conserved(ApplyAll(Empty(), ops))
  {
    hide Apply, Conserved, Possible, Empty;
    if ops == [] {
      EmptyConserved();
    } else {
      var front := ops[..|ops| - 1];
      RunConserves(front);
      StepConserves(ApplyAll(Empty(), front), ops[|ops| - 1]);
    }
  }

  // Over any run the contradicted closes never exceed the closes, and the difference is on the rows: still
  // marked, or deleted while marked. The day's reconcile_closed may be behind both.
  lemma ClosesAreConserved(ops: seq<Op>)
    requires AllPossible(ops)
    ensures var db := ApplyAll(Empty(), ops);
            && db.contradicted <= db.closed && db.recorded <= db.closed
            && db.closed - db.contradicted == Reconciled(db.rows) + db.pruned
  {
    RunConserves(ops);
  }

  // Over any run the stored contradicted closes are no more than the stored closes if and only if the closes not
  // stored - of the running sweep, of sweeps stopped before their end, of test messages - are no more than those
  // the log has not contradicted: still on their rows, or deleted with them.
  lemma RecordedExactly(ops: seq<Op>)
    requires AllPossible(ops)
    ensures var db := ApplyAll(Empty(), ops);
            db.contradicted <= db.recorded <==>
            db.pending + db.dropped + db.unmatched <= Reconciled(db.rows) + db.pruned
  {
    RunConserves(ops);
  }

  // The stored reconcile_closed can be less than the stored reconcile_contradicted: the sweep adds to it at
  // its end only, and a line read before then - or a sweep stopped before then - leaves it behind.
  lemma RecordedMayLag(queueId: string, to: string, mail: Mail)
    ensures var db := ApplyAll(Empty(), LaggingRun(queueId, to, mail)); db.contradicted == 1 && db.recorded == 0
  {
    hide Apply, ApplyAll;
    var row := Row(1, queueId, to, mail, Queued, NoReason, 0);
    var closed, heard := row.(status := Bounced, reason := Reconcile), row.(status := Sent, reason := Contradicted);
    LagSteps(row, closed, heard);
    LagEnds(heard);
    ApplyNone(Empty());
    var ops: seq<Op> := [];
    ApplyOn(Empty(), ops, InsertQueued(queueId, to, mail, 0));
    ops := ops + [InsertQueued(queueId, to, mail, 0)];
    ApplyOn(Empty(), ops, CloseUnreported(1));
    ops := ops + [CloseUnreported(1)];
    ApplyOn(Empty(), ops, LogLine(Delivery(queueId, to, Sent)));
    ops := ops + [LogLine(Delivery(queueId, to, Sent))];
    ApplyOn(Empty(), ops, Stop);
    ApplyOn(Empty(), ops + [Stop], EndSweep);
  }

  // A message, a sweep that closes its row, the line that contradicts it, and the sweep stopped before its end.
  function LaggingRun(queueId: string, to: string, mail: Mail): seq<Op> {
    [] + [InsertQueued(queueId, to, mail, 0)] + [CloseUnreported(1)] + [LogLine(Delivery(queueId, to, Sent))]
    + [Stop] + [EndSweep]
  }

  lemma ApplyNone(db: Db)
    ensures ApplyAll(db, []) == db
  {
  }

  lemma LagEnds(heard: Row)
    ensures Apply(Db([heard], 2, 1, 1, 0, 1, 0, 0, 0), Stop) == Db([heard], 2, 1, 1, 0, 0, 0, 1, 0)
    ensures Apply(Db([heard], 2, 1, 1, 0, 0, 0, 1, 0), EndSweep) == Db([heard], 2, 1, 1, 0, 0, 0, 1, 0)
  {
  }

  lemma ApplyOn(db: Db, ops: seq<Op>, op: Op)
    ensures ApplyAll(db, ops + [op]) == Apply(ApplyAll(db, ops), op)
  {
    assert (ops + [op])[..|ops|] == ops;
  }

  lemma LagSteps(row: Row, closed: Row, heard: Row)
    requires row.id == 1 && row.status == Queued && row.reason == NoReason && row.created == 0
    requires closed == row.(status := Bounced, reason := Reconcile)
               && heard == row.(status := Sent, reason := Contradicted)
    ensures Apply(Empty(), InsertQueued(row.queueId, row.to, row.mail, 0)) == Db([row], 2, 0, 0, 0, 0, 0, 0, 0)
    ensures Apply(Db([row], 2, 0, 0, 0, 0, 0, 0, 0), CloseUnreported(1)) == Db([closed], 2, 0, 1, 0, 1, 0, 0, 0)
    ensures Apply(Db([closed], 2, 0, 1, 0, 1, 0, 0, 0), LogLine(Delivery(row.queueId, row.to, Sent))) ==
              Db([heard], 2, 1, 1, 0, 1, 0, 0, 0)
  {
    assert Close([row], 1) == [closed];
    assert Newest([closed], 0);
    assert Handle([closed], Delivery(row.queueId, row.to, Sent)) == [heard];
    assert Unmarked([closed], [row]) == 1 && Unmarked([closed], [heard]) == 1 by {
      assert [closed][..0] == [] && [row][..0] == [] && [heard][..0] == [];
    }
    hide Close, Handle, Unmarked;
  }

  // ---- the table

  // The row the subselect MAX(id) of UpdateStatus picks is the newest of its pair, and the only row the
  // statement changes.
  lemma HandleIsOneUpdate(rows: seq<Row>, k: nat, line: Line)
    requires line.Delivery? && k < |rows| && About(line, rows[k])
    requires forall j | k < j < |rows| :: !About(line, rows[j])
    ensures Newest(rows, k) && Handle(rows, line) == rows[k := Act(rows[k], line)]
  {
    forall i | 0 <= i < k && About(line, rows[i]) ensures !Newest(rows, i) {
      assert SamePair(rows[k], rows[i].queueId, rows[i].to);
    }
  }

  lemma {:induction false} UnmarkedAt(rows: seq<Row>, k: nat, r: Row)
    requires k < |rows|
    ensures Unmarked(rows, rows[k := r]) == if Marked(rows[k]) > Marked(r) then 1 else 0
    ensures Unmarked(rows[k := r], rows) == if Marked(r) > Marked(rows[k]) then 1 else 0
  {
    var n := |rows| - 1;
    var rows' := rows[k := r];
    if k < n {
      assert rows'[..n] == rows[..n][k := r];
      UnmarkedAt(rows[..n], k, r);
    } else {
      assert rows'[..n] == rows[..n];
      NoneMarked(rows[..n], rows[..n]);
    }
  }

  // The row found is the last of its pair, and no other is.
  lemma OnlyLast(rows: seq<Row>, k: int, queueId: string, to: string)
    requires -1 <= k < |rows| && (k >= 0 ==> SamePair(rows[k], queueId, to))
    requires forall i | k < i < |rows| :: !SamePair(rows[i], queueId, to)
    ensures forall i | 0 <= i < |rows| :: LastOf(rows, i, queueId, to) <==> i == k
  {
  }

  lemma ClosesOne(rows: seq<Row>, id: nat)
    requires forall i, j | 0 <= i < j < |rows| :: rows[i].id < rows[j].id
    requires forall i | 0 <= i < |rows| && rows[i].reason == Reconcile :: rows[i].status == Bounced
    ensures Unmarked(Close(rows, id), rows) ==
            if exists i | 0 <= i < |rows| :: rows[i].id == id && rows[i].status in {Queued, Deferred} then 1 else 0
  {
    CloseIs(rows, id);
    var after := Close(rows, id);
    if k :| 0 <= k < |rows| && rows[k].id == id && rows[k].status in {Queued, Deferred} {
      hide Close, CloseRow, Unmarked;
      var r := rows[k].(status := Bounced, reason := Reconcile);
      assert forall i | 0 <= i < |rows| && i != k :: rows[i].id != id;
      assert after == rows[k := r];
      UnmarkedAt(rows, k, r);
    } else {
      hide Close, CloseRow;
      assert after == rows;
      NoneMarked(rows, rows);
    }
  }

  lemma NoneUpdated(db: Db, line: Line)
    requires line.Delivery? && forall i | 0 <= i < |db.rows| :: !About(line, db.rows[i])
    ensures Apply(db, LogLine(line)) == db
  {
    assert Handle(db.rows, line) == db.rows;
    NoneMarked(db.rows, db.rows);
  }

  lemma OneUpdated(db: Db, k: nat, line: Line)
    requires line.Delivery? && k < |db.rows| && About(line, db.rows[k])
    requires forall j | k < j < |db.rows| :: !About(line, db.rows[j])
    ensures var (r, taken) := (db.rows[k], db.rows[k].reason == Reconcile);
            Apply(db, LogLine(line)) ==
            db.(rows := db.rows[k := r.(status := line.status, reason := if taken then Contradicted else r.reason)],
                contradicted := db.contradicted + if taken then 1 else 0)
  {
    HandleIsOneUpdate(db.rows, k, line);
    UnmarkedAt(db.rows, k, Act(db.rows[k], line));
    hide Handle, Unmarked;
  }

  // A row the sweep closes: open, old enough, with a queue id Postfix no longer holds.
  predicate Stuck(r: Row, cutoff: nat, held: set<string>) {
    Open(r.status) && r.queueId != "" && r.created < cutoff && r.queueId !in held
  }

  function SweepUpTo(rows: seq<Row>, cutoff: nat, held: set<string>, n: nat): (res: seq<Row>)
    ensures |res| == |rows|
  {
    seq(|rows|, i requires 0 <= i < |rows| =>
      if i < n && Stuck(rows[i], cutoff, held) then CloseRow(rows[i], rows[i].id) else rows[i])
  }

  // What ExpireMessage bounces: the open rows of the queue id that are the newest of their pair.
  predicate Expires(rows: seq<Row>, queueId: string, i: nat)
    requires i < |rows|
  {
    Open(rows[i].status) && rows[i].queueId == queueId && Newest(rows, i)
  }

  function Expiring(rows: seq<Row>, queueId: string, n: nat): nat
    requires n <= |rows|
  {
    if n == 0 then 0 else Expiring(rows, queueId, n - 1) + if Expires(rows, queueId, n - 1) then 1 else 0
  }

  lemma Bounces(db: Db, queueId: string)
    ensures Apply(db, LogLine(Expiry(queueId))) ==
            db.(rows := seq(|db.rows|, i requires 0 <= i < |db.rows| =>
              if Expires(db.rows, queueId, i) then db.rows[i].(status := Bounced) else db.rows[i]))
  {
    var line := Expiry(queueId);
    var after := Handle(db.rows, line);
    SameMarks(db.rows, after);
    hide Unmarked, Newest;
    assert after == seq(|db.rows|, i requires 0 <= i < |db.rows| =>
      if Expires(db.rows, queueId, i) then db.rows[i].(status := Bounced) else db.rows[i]);
  }

  ghost function ExpiringAmong(rows: seq<Row>, queueId: string, n: nat): set<nat>
    requires n <= |rows|
  {
    set i: nat | i < n && Expires(rows, queueId, i)
  }

  lemma {:induction false} ExpiringCounts(rows: seq<Row>, queueId: string, n: nat)
    requires n <= |rows|
    ensures Expiring(rows, queueId, n) == |ExpiringAmong(rows, queueId, n)|
  {
    if n == 0 {
      assert ExpiringAmong(rows, queueId, 0) == {};
    } else {
      ExpiringCounts(rows, queueId, n - 1);
      OneMoreExpiring(rows, queueId, n - 1);
      hide Expires, ExpiringAmong;
    }
  }

  lemma OneMoreExpiring(rows: seq<Row>, queueId: string, n: nat)
    requires n < |rows|
    ensures |ExpiringAmong(rows, queueId, n + 1)| ==
            |ExpiringAmong(rows, queueId, n)| + if Expires(rows, queueId, n) then 1 else 0
  {
    hide Expires;
    assert ExpiringAmong(rows, queueId, n + 1) ==
           ExpiringAmong(rows, queueId, n) + if Expires(rows, queueId, n) then {n} else {};
  }

  // The rows bounced, and how many.
  lemma BouncedAre(rows: seq<Row>, rows': seq<Row>, queueId: string)
    requires |rows'| == |rows| && forall i | 0 <= i < |rows| ::
               rows'[i] == if Expires(rows, queueId, i) then rows[i].(status := Bounced) else rows[i]
    ensures forall i | 0 <= i < |rows| ::
              rows'[i] == if rows[i].status in {Queued, Deferred} && LastOf(rows, i, queueId, rows[i].to)
                          then rows[i].(status := Bounced) else rows[i]
    ensures Expiring(rows, queueId, |rows|) == |set i | 0 <= i < |rows| && rows'[i] != rows[i]|
    ensures Expiring(rows, queueId, |rows|) == 0 ==> rows' == rows
  {
    forall i: nat | i < |rows| && rows[i].queueId == queueId && rows[i].status != Rejected
      ensures Newest(rows, i) <==> LastOf(rows, i, queueId, rows[i].to)
    {
      NewestIs(rows, i, queueId, rows[i].to);
    }
    hide Newest, LastOf, Expiring;
    ExpiringCounts(rows, queueId, |rows|);
    var changed := set i | 0 <= i < |rows| && rows'[i] != rows[i];
    assert changed == ExpiringAmong(rows, queueId, |rows|);
    if changed == {} {
      forall i: nat | i < |rows| ensures rows'[i] == rows[i] {
        assert i !in changed;
      }
      assert rows' == rows;
    }
  }

  class Table {
    var rows: seq<Row>
    var nextId: nat
    var contradicted: nat
    var recorded: nat
    ghost var closed: nat
    ghost var pruned: nat
    ghost var pending: nat
    ghost var dropped: nat
    ghost var unmatched: nat

    ghost function State(): Db
      reads this
    {
      Db(rows, nextId, contradicted, closed, pruned, pending, recorded, dropped, unmatched)
    }

    ghost predicate Valid()
      reads this
    {
      Conserved(State())
    }

    constructor ()
      ensures Valid() && State() == Empty()
    {
      rows, nextId, contradicted, recorded, closed, pruned, pending := [], 1, 0, 0, 0, 0, 0;
      dropped, unmatched := 0, 0;
      new;
      assert rows == [];
    }

    method InsertQueued(queueId: string, to: string, mail: Mail, created: nat)
      requires Valid()
      modifies this
      ensures State() == Apply(old(State()), Op.InsertQueued(queueId, to, mail, created)) && Valid()
      ensures rows == old(rows) + [Row(old(nextId), queueId, to, mail, Queued, NoReason, created)]
    {
      hide Conserved;
      StepConserves(State(), Op.InsertQueued(queueId, to, mail, created));
      rows := rows + [Row(nextId, queueId, to, mail, Queued, NoReason, created)];
      nextId := nextId + 1;
    }

    method InsertRejected(mail: Mail, why: Reason, created: nat)
      requires Valid() && why in {Limit, Client, From, Sender}
      modifies this
      ensures State() == Apply(old(State()), Op.InsertRejected("", "", mail, why, created)) && Valid()
      ensures rows == old(rows) + [Row(old(nextId), "", "", mail, Rejected, why, created)]
    {
      hide Conserved;
      StepConserves(State(), Op.InsertRejected("", "", mail, why, created));
      rows := rows + [Row(nextId, "", "", mail, Rejected, why, created)];
      nextId := nextId + 1;
    }

    // The subselect of UpdateStatus: MAX(id) over the pair's rows that are no refusals.
    method FindNewest(queueId: string, to: string) returns (k: int)
      requires Valid()
      ensures -1 <= k < |rows|
      ensures k == -1 ==> forall i | 0 <= i < |rows| :: !SamePair(rows[i], queueId, to)
      ensures k >= 0 ==> SamePair(rows[k], queueId, to) && forall i | k < i < |rows| :: !SamePair(rows[i], queueId, to)
      ensures k >= 0 ==> forall i | 0 <= i < |rows| && SamePair(rows[i], queueId, to) :: rows[i].id <= rows[k].id
    {
      k := |rows| - 1;
      while k >= 0 && !SamePair(rows[k], queueId, to)
        invariant -1 <= k < |rows|
        invariant forall i | k < i < |rows| :: !SamePair(rows[i], queueId, to)
      {
        k := k - 1;
      }
    }

    method UpdateStatus(queueId: string, to: string, status: Status) returns (n: nat)
      requires Valid() && status in {Sent, Deferred, Bounced}
      modifies this
      ensures State() == Apply(old(State()), LogLine(Delivery(queueId, to, status))) && Valid()
      ensures |rows| == |old(rows)| && forall i | 0 <= i < |rows| :: var r := old(rows)[i];
                rows[i] == if !LastOf(old(rows), i, queueId, to) then r
                           else r.(status := status, reason := if r.reason == Reconcile then Contradicted else r.reason)
      ensures contradicted == old(contradicted) +
                if exists i | 0 <= i < |rows| :: LastOf(old(rows), i, queueId, to) && old(rows)[i].reason == Reconcile
                then 1 else 0
      ensures n == 1 <==> exists i | 0 <= i < |old(rows)| :: LastOf(old(rows), i, queueId, to)
      ensures n <= 1
    {
      var k := FindNewest(queueId, to);
      OnlyLast(rows, k, queueId, to);
      ghost var line := Delivery(queueId, to, status);
      StepConserves(State(), LogLine(line));
      if k < 0 {
        NoneUpdated(State(), line);
        return 0;
      }
      OneUpdated(State(), k, line);
      hide Apply, Conserved, Act, SamePair, LastOf;
      if rows[k].reason == Reconcile {
        rows := rows[k := rows[k].(reason := Contradicted)];
        contradicted := contradicted + 1;
      }
      rows := rows[k := rows[k].(status := status)];
      return 1;
    }

    // The number of rows it bounces: none leaves the expiry to the inbound journal.
    method ExpireMessage(queueId: string) returns (n: nat)
      requires Valid()
      modifies this
      ensures State() == Apply(old(State()), LogLine(Expiry(queueId))) && Valid()
      ensures |rows| == |old(rows)| && forall i | 0 <= i < |rows| :: var r := old(rows)[i];
                rows[i] == if r.status in {Queued, Deferred} && LastOf(old(rows), i, queueId, r.to)
                           then r.(status := Bounced) else r
      ensures n == |set i | 0 <= i < |rows| && rows[i] != old(rows)[i]|
      ensures n == 0 ==> rows == old(rows)
    {
      StepConserves(State(), LogLine(Expiry(queueId)));
      Bounces(State(), queueId);
      hide Apply, Conserved, Handle, Newest, Expires, LastOf;
      n := Expiring(rows, queueId, |rows|);
      ghost var before := rows;
      rows := seq(|rows|, i requires 0 <= i < |rows| reads this =>
        if Expires(rows, queueId, i) then rows[i].(status := Bounced) else rows[i]);
      BouncedAre(before, rows, queueId);
    }

    method CloseUnreported(id: nat) returns (n: nat)
      requires Valid()
      modifies this
      ensures State() == Apply(old(State()), Op.CloseUnreported(id)) && Valid()
      ensures closed == old(closed) + n && recorded == old(recorded)
      ensures |rows| == |old(rows)| && forall i | 0 <= i < |rows| :: var r := old(rows)[i];
                rows[i] == if r.id == id && r.status in {Queued, Deferred}
                           then r.(status := Bounced, reason := Reconcile) else r
      ensures n == if exists i | 0 <= i < |rows| :: old(rows)[i].id == id && old(rows)[i].status in {Queued, Deferred}
                   then 1 else 0
    {
      StepConserves(State(), Op.CloseUnreported(id));
      CloseIs(rows, id);
      ClosesOne(rows, id);
      hide Apply, Conserved, Close, CloseRow, Unmarked;
      var after := Close(rows, id);
      n := Unmarked(after, rows);
      rows := after;
      closed, pending := closed + n, pending + n;
    }

    method DeleteBefore(cutoff: nat)
      requires Valid()
      modifies this
      ensures State() == Apply(old(State()), Op.DeleteBefore(cutoff)) && Valid()
      ensures forall r :: r in rows <==> r in old(rows) && r.created >= cutoff
    {
      StepConserves(State(), Op.DeleteBefore(cutoff));
      KeepMarks(rows, cutoff);
      KeepMembers(rows, cutoff);
      pruned := pruned + (Reconciled(rows) - Reconciled(Keep(rows, cutoff)));
      rows := Keep(rows, cutoff);
    }

    // One sweep. Rows whose message Postfix holds, and every row when the queue cannot be listed, stay as
    // they are; the close asks again whether the row is open.
    method Sweep(cutoff: nat, queue: Option<set<string>>)
      requires Valid()
      modifies this
      ensures Valid() && nextId == old(nextId) && contradicted == old(contradicted)
      ensures queue.None? ==> State() == old(State())
      ensures |rows| == |old(rows)| && forall i | 0 <= i < |rows| :: var r := old(rows)[i];
                rows[i] ==
                if queue.Some? && r.queueId !in queue.value && r.queueId != "" && r.created < cutoff
                   && r.status in {Queued, Deferred}
                then r.(status := Bounced, reason := Reconcile) else r
      ensures queue.Some? && old(pending) == 0 ==> recorded - old(recorded) == closed - old(closed)
    {
      if queue.None? {
        return;
      }
      hide Apply, Conserved, Stuck, Close, SweepUpTo;
      var held := queue.value;
      var open := rows;
      SweepStarts(open, cutoff, held);
      var count := 0;
      for i := 0 to |open|
        invariant Valid() && rows == SweepUpTo(open, cutoff, held, i)
        invariant nextId == old(nextId) && contradicted == old(contradicted) && recorded == old(recorded)
        invariant closed == old(closed) + count && pending == old(pending) + count
      {
        if Stuck(open[i], cutoff, held) {
          var n := CloseUnreported(open[i].id);
          count := count + n;
          SweepNext(open, cutoff, held, i);
        } else {
          SweepPasses(open, cutoff, held, i);
        }
      }
      recorded := recorded + count;
      pending := pending - count;
      SweptIs(open, cutoff, held);
    }
  }

  lemma SameMarks(rows: seq<Row>, rows': seq<Row>)
    requires |rows| == |rows'| && forall i | 0 <= i < |rows| :: Marked(rows'[i]) == Marked(rows[i])
    ensures Unmarked(rows, rows') == 0
  {
    NoneMarked(rows', rows);
  }

  lemma {:induction false} KeepMembers(rows: seq<Row>, cutoff: nat)
    ensures forall r :: r in Keep(rows, cutoff) <==> r in rows && r.created >= cutoff
  {
    if rows != [] {
      var n := |rows| - 1;
      KeepMembers(rows[..n], cutoff);
      assert rows == rows[..n] + [rows[n]];
    }
  }

  lemma SweepStarts(rows: seq<Row>, cutoff: nat, held: set<string>)
    ensures SweepUpTo(rows, cutoff, held, 0) == rows
  {
  }

  // The sweep closes the rows still open, old enough, with a queue id that Postfix no longer holds.
  lemma SweptIs(rows: seq<Row>, cutoff: nat, held: set<string>)
    ensures forall i | 0 <= i < |rows| ::
              SweepUpTo(rows, cutoff, held, |rows|)[i] ==
              if rows[i].queueId !in held && rows[i].queueId != "" && rows[i].created < cutoff
                 && rows[i].status in {Queued, Deferred}
              then rows[i].(status := Bounced, reason := Reconcile) else rows[i]
  {
  }

  lemma SweepPasses(rows: seq<Row>, cutoff: nat, held: set<string>, i: nat)
    requires i < |rows| && !Stuck(rows[i], cutoff, held)
    ensures SweepUpTo(rows, cutoff, held, i) == SweepUpTo(rows, cutoff, held, i + 1)
  {
  }

  lemma SweepNext(rows: seq<Row>, cutoff: nat, held: set<string>, i: nat)
    requires i < |rows| && Stuck(rows[i], cutoff, held)
    requires forall j, k | 0 <= j < k < |rows| :: rows[j].id < rows[k].id
    ensures Close(SweepUpTo(rows, cutoff, held, i), rows[i].id) == SweepUpTo(rows, cutoff, held, i + 1)
  {
    var a, b := Close(SweepUpTo(rows, cutoff, held, i), rows[i].id), SweepUpTo(rows, cutoff, held, i + 1);
    forall j | 0 <= j < |rows| ensures a[j] == b[j] {
      assert j != i ==> rows[j].id != rows[i].id;
    }
  }
}
