/** The recipients of a message, and their rows in the send log (record in milter). */
module Recipients {
  import opened Strings
  import opened AddressForm
  import opened PostfixForm
  import opened SendLog
  import opened SendLogStore

  // strings.EqualFold, of ASCII.
  predicate Known(rcpts: seq<string>, to: string) {
    exists i | 0 <= i < |rcpts| :: Lower(rcpts[i]) == Lower(to)
  }

  // Each once, as it first comes.
  function Deduplicated(tos: seq<string>): seq<string> {
    if tos == [] then [] else
      var rcpts, to := Deduplicated(tos[..|tos| - 1]), tos[|tos| - 1];
      if Known(rcpts, to) then rcpts else rcpts + [to]
  }

  // The addresses of the RCPT TO commands in the form Postfix logs them in.
  function AllLogged(given: seq<string>): (tos: seq<string>)
    ensures |tos| == |given| && forall i | 0 <= i < |given| :: tos[i] == AsLogged(given[i])
  {
    seq(|given|, i requires 0 <= i < |given| => AsLogged(given[i]))
  }

  ghost predicate Apart(rcpts: seq<string>) {
    forall i, j | 0 <= i < j < |rcpts| :: Lower(rcpts[i]) != Lower(rcpts[j])
  }

  lemma KnownSnoc(rcpts: seq<string>, to: string, x: string)
    ensures Known(rcpts + [to], x) <==> Known(rcpts, x) || Lower(to) == Lower(x)
  {
    hide Lower;
    assert (rcpts + [to])[|rcpts|] == to;
    if Known(rcpts, x) {
      var i :| 0 <= i < |rcpts| && Lower(rcpts[i]) == Lower(x);
      assert (rcpts + [to])[i] == rcpts[i];
    }
  }

  lemma ApartSnoc(rcpts: seq<string>, to: string)
    requires Apart(rcpts) && !Known(rcpts, to)
    ensures Apart(rcpts + [to])
  {
    hide Lower;
  }

  // No two of them are one address, and every address given is there.
  lemma {:induction false} DeduplicatedIs(tos: seq<string>)
    ensures Apart(Deduplicated(tos))
    ensures forall x | x in tos :: Known(Deduplicated(tos), x)
    ensures forall x | x in Deduplicated(tos) :: x in tos
  {
    if tos != [] {
      var n := |tos| - 1;
      var before, to := Deduplicated(tos[..n]), tos[n];
      DeduplicatedIs(tos[..n]);
      assert tos == tos[..n] + [to];
      forall x ensures Known(before + [to], x) <==> Known(before, x) || Lower(to) == Lower(x) {
        KnownSnoc(before, to, x);
      }
      hide Lower, Known;
      if !Known(before, to) {
        ApartSnoc(before, to);
      }
    }
  }

  // A message without recipients has a row all the same.
  function OrNobody(rcpts: seq<string>): (r: seq<string>)
    ensures r != [] && (rcpts != [] ==> r == rcpts)
  {
    if rcpts == [] then [""] else rcpts
  }

  function RowsOf(queueId: string, mail: Mail, rcpts: seq<string>, created: nat, nextId: nat): (rows: seq<Row>)
    ensures |rows| == |rcpts|
  {
    seq(|rcpts|, i requires 0 <= i < |rcpts| => Row(nextId + i, queueId, rcpts[i], mail, Queued, NoReason, created))
  }

  // Of a message just recorded - whatever earlier messages had its queue id - a delivery line for one of its
  // recipients finds that recipient's row, and changes nothing else.
  lemma DeliveryFindsItsRow(before: seq<Row>, queueId: string, mail: Mail, rcpts: seq<string>, created: nat,
                            nextId: nat, i: nat, to: string, status: Status)
    requires Apart(rcpts) && i < |rcpts| && Lower(to) == Lower(rcpts[i])
    ensures var rows := before + RowsOf(queueId, mail, rcpts, created, nextId);
            var k := |before| + i;
            && rows[k].to == rcpts[i]
            && Handle(rows, Delivery(queueId, to, status)) == rows[k := rows[k].(status := status)]
  {
    var rows := before + RowsOf(queueId, mail, rcpts, created, nextId);
    var k, line := |before| + i, Delivery(queueId, to, status);
    assert rows[k] == Row(nextId + i, queueId, rcpts[i], mail, Queued, NoReason, created);
    forall j | k < j < |rows| ensures !About(line, rows[j]) {
      assert rows[j].to == rcpts[j - |before|];
    }
    HandleIsOneUpdate(rows, k, line);
  }

  // So it is for every address the client gave: the line Postfix writes of the recipient it denotes finds its row.
  lemma EveryRecipientHasItsRow(before: seq<Row>, queueId: string, mail: Mail, given: seq<string>, created: nat,
                                nextId: nat, g: nat, content: string, domain: string, line: string, status: Status)
      returns (i: nat)
    requires g < |given| && Denotes(Clean(given[g]), content, domain) && LogsAs(content, domain, line)
    ensures var rows := before + RowsOf(queueId, mail, OrNobody(Deduplicated(AllLogged(given))), created, nextId);
            var k := |before| + i;
            && k < |rows| && Lower(rows[k].to) == Lower(line)
            && Handle(rows, Delivery(queueId, line, status)) == rows[k := rows[k].(status := status)]
  {
    var rcpts := Deduplicated(AllLogged(given));
    AsLoggedIsPostfixs(given[g], content, domain, line);
    i := Among(given, g);
    hide *;
    DeliveryFindsItsRow(before, queueId, mail, rcpts, created, nextId, i, line, status);
  }

  lemma Among(given: seq<string>, g: nat) returns (i: nat)
    requires g < |given|
    ensures var rcpts := Deduplicated(AllLogged(given));
            Apart(rcpts) && OrNobody(rcpts) == rcpts && i < |rcpts| && Lower(AsLogged(given[g])) == Lower(rcpts[i])
  {
    hide AsLogged, Lower, Deduplicated;
    var rcpts := Deduplicated(AllLogged(given));
    DeduplicatedIs(AllLogged(given));
    assert AllLogged(given)[g] == AsLogged(given[g]);
    assert AllLogged(given)[g] in AllLogged(given) && Known(rcpts, AsLogged(given[g]));
    i :| 0 <= i < |rcpts| && Lower(rcpts[i]) == Lower(AsLogged(given[g]));
  }

  // The rows with those of the first recipients after them.
  ghost predicate UpTo(after: seq<Row>, rows: seq<Row>, queueId: string, mail: Mail, to: seq<string>, created: nat,
                       first: nat, i: nat)
    requires i <= |to|
  {
    after == rows + RowsOf(queueId, mail, to[..i], created, first)
  }

  method Record(table: Table, queueId: string, mail: Mail, rcpts: seq<string>, created: nat)
    requires table.Valid()
    modifies table
    ensures table.Valid()
    ensures table.rows == old(table.rows) + RowsOf(queueId, mail, OrNobody(rcpts), created, old(table.nextId))
    ensures table.contradicted == old(table.contradicted) && table.recorded == old(table.recorded)
  {
    var to := OrNobody(rcpts);
    ghost var rows, first := table.rows, table.nextId;
    FirstAndLast(rows, queueId, mail, to, created, first);
    hide RowsOf, OrNobody, Conserved, Apply, UpTo;
    for i := 0 to |to|
      invariant table.Valid() && table.nextId == first + i
      invariant UpTo(table.rows, rows, queueId, mail, to, created, first, i)
      invariant table.contradicted == old(table.contradicted) && table.recorded == old(table.recorded)
    {
      OneMoreRow(table.rows, rows, queueId, mail, to, created, first, i);
      RecordOne(table, queueId, to[i], mail, created);
    }
  }

  lemma FirstAndLast(rows: seq<Row>, queueId: string, mail: Mail, to: seq<string>, created: nat, first: nat)
    ensures UpTo(rows, rows, queueId, mail, to, created, first, 0)
    ensures forall after :: UpTo(after, rows, queueId, mail, to, created, first, |to|) ==>
              after == rows + RowsOf(queueId, mail, to, created, first)
  {
    assert to[..0] == [] && to[..|to|] == to && rows + [] == rows;
  }

  lemma OneMoreRow(after: seq<Row>, rows: seq<Row>, queueId: string, mail: Mail, to: seq<string>, created: nat,
                   first: nat, i: nat)
    requires i < |to| && UpTo(after, rows, queueId, mail, to, created, first, i)
    ensures var row := Row(first + i, queueId, to[i], mail, Queued, NoReason, created);
            UpTo(after + [row], rows, queueId, mail, to, created, first, i + 1)
  {
    var row := Row(first + i, queueId, to[i], mail, Queued, NoReason, created);
    var before := RowsOf(queueId, mail, to[..i], created, first);
    assert RowsOf(queueId, mail, to[..i + 1], created, first) == before + [row];
    hide RowsOf;
    assert rows + (before + [row]) == rows + before + [row];
  }

  method RecordOne(table: Table, queueId: string, to: string, mail: Mail, created: nat)
    requires table.Valid()
    modifies table
    ensures table.Valid() && table.nextId == old(table.nextId) + 1
    ensures table.rows == old(table.rows) + [Row(old(table.nextId), queueId, to, mail, Queued, NoReason, created)]
    ensures table.contradicted == old(table.contradicted) && table.recorded == old(table.recorded)
  {
    InsertedIs(table.State(), queueId, to, mail, created);
    hide Apply, Conserved;
    table.InsertQueued(queueId, to, mail, created);
  }

  lemma InsertedIs(db: Db, queueId: string, to: string, mail: Mail, created: nat)
    ensures Apply(db, Op.InsertQueued(queueId, to, mail, created)) ==
            db.(rows := db.rows + [Row(db.nextId, queueId, to, mail, Queued, NoReason, created)],
                nextId := db.nextId + 1)
  {
  }
}
