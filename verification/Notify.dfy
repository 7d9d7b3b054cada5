/** What the panel writes about a domain's DNS records: one episode of trouble at a time (dnsStep in notify). */
module Notify {
  import opened Wrappers
  import opened SendCeiling

  const DNS_CHECKS := 2
  const DNS_APART := 2700

  datatype Phase = Pending | Open

  // What is kept of a domain in trouble: since the first bad check, or once the problem was said, with the good
  // checks in a row, the time of the first of them, and who was to hear of it and has.
  datatype Subject = Subject(phase: Phase, count: nat, since: int, mark: int, owed: map<string, bool>)

  datatype Reading = Good | Bad | Nothing

  datatype Message = Problem | Cleared

  // ---- one check

  function Filter(list: seq<string>, keep: set<string>): (r: seq<string>)
    ensures forall a :: a in r <==> a in list && a in keep
    ensures Distinct(list) ==> Distinct(r)
    ensures |r| <= |list|
  {
    if list == [] then [] else
      var n := |list| - 1;
      assert forall a | a in list :: a in list[..n] || a == list[n];
      Filter(list[..n], keep) + if list[n] in keep then [list[n]] else []
  }

  function Told(owed: map<string, bool>): set<string> {
    set a | a in owed && owed[a]
  }

  function Untold(owed: map<string, bool>): set<string> {
    set a | a in owed && !owed[a]
  }

  // The good checks in a row with this one, and the first of them.
  function FirstGood(s: Subject, now: int): int {
    if s.count == 0 then now else s.mark
  }

  // The message a check calls for.
  function Due(have: Option<Subject>, reading: Reading, now: int): Option<Message> {
    if have.None? || reading.Nothing? then None else
      var s := have.value;
      if s.phase.Pending? then
        if reading.Bad? && s.count + 1 >= DNS_CHECKS && now - s.since >= DNS_APART then Some(Problem) else None
      else if reading.Bad? then Some(Problem)
      else if s.count + 1 >= DNS_CHECKS && now - FirstGood(s, now) >= DNS_APART then Some(Cleared)
      else None
  }

  // Whom it goes to: at first everyone who is to hear of the domain; while it is open those owed it who are
  // still to hear of it; that it is over, those who were told.
  function To(have: Option<Subject>, reading: Reading, now: int, recipients: seq<string>): seq<string> {
    match Due(have, reading, now)
    case None => []
    case Some(Problem) =>
      if have.value.phase.Pending? then recipients else Filter(recipients, Untold(have.value.owed))
    case Some(Cleared) =>
      if have.value.owed == map[] then recipients else Filter(recipients, Told(have.value.owed))
  }

  function Owing(recipients: seq<string>, handed: seq<string>): map<string, bool> {
    map a | a in recipients :: a in handed
  }

  function AndHanded(owed: map<string, bool>, handed: seq<string>): map<string, bool> {
    map a | a in owed.Keys + (set h | h in handed) :: a in handed || (a in owed && owed[a])
  }

  // What is kept after it, handed being those that were handed a copy.
  function Next(have: Option<Subject>, reading: Reading, now: int, recipients: seq<string>, handed: seq<string>)
    : Option<Subject>
  {
    if reading.Nothing? then have
    else if have.None? then if reading.Bad? then Some(Subject(Pending, 1, now, 0, map[])) else None
    else
      var s := have.value;
      if s.phase.Pending? then
        if reading.Good? then None
        else if Due(have, reading, now).Some? && handed != [] then
          Some(Subject(Open, 0, s.since, 0, Owing(recipients, handed)))
        else Some(s.(count := s.count + 1))
      else if reading.Bad? then
        Some(s.(count := 0, mark := if s.count != 0 then 0 else s.mark,
                owed := if handed == [] then s.owed else AndHanded(s.owed, handed)))
      else if Due(have, reading, now).Some? && (handed != [] || To(have, reading, now, recipients) == []) then None
      else Some(s.(count := s.count + 1, mark := FirstGood(s, now)))
  }

  // The notifier and its store.
  class Notifier {
    var subjects: map<string, Subject>
    const sender: Sender

    ghost predicate Valid()
      reads this, sender
    {
      sender.Valid()
    }

    constructor (sender: Sender)
      requires sender.Valid()
      ensures Valid() && this.sender == sender && subjects == map[]
    {
      this.sender, subjects := sender, map[];
    }

    function Have(name: string): Option<Subject>
      reads this
    {
      if name in subjects then Some(subjects[name]) else None
    }

    // The result of opening: nobody is to hear of it, nobody could be told, or somebody was.
    method Open(name: string, recipients: seq<string>, tries: seq<Try>)
        returns (handed: seq<string>, owed: map<string, bool>)
      requires Valid() && Distinct(recipients) && |tries| == |recipients| && AllInOrder(tries, sender.clock)
      modifies sender
      ensures Valid()
      ensures Distinct(handed) && forall a | a in handed :: a in recipients
      ensures (sender.log, handed) == HandedOf(old(sender.log), recipients, tries)
      ensures owed == Owing(recipients, handed)
      ensures |sender.log| == |old(sender.log)| + |handed|
    {
      hide HandedOf, InTheHour, Holds, Distinct, AllInOrder;
      handed := sender.Deliver(recipients, tries);
      owed := map[];
      for i := 0 to |recipients|
        invariant owed == Owing(recipients[..i], handed)
      {
        assert recipients[..i + 1] == recipients[..i] + [recipients[i]];
        owed := owed[recipients[i] := recipients[i] in handed];
      }
      assert recipients[..|recipients|] == recipients;
    }

    // A bad check of a domain that had a bad one already: said once it was bad often enough, long enough.
    method BadAgain(name: string, s: Subject, now: int, recipients: seq<string>, tries: seq<Try>)
      returns (next: Subject, handed: seq<string>)
      requires Valid() && Distinct(recipients) && s.phase.Pending?
      requires |tries| == |To(Some(s), Bad, now, recipients)| && AllInOrder(tries, sender.clock)
      modifies sender
      ensures Valid() && Distinct(handed) && forall a | a in handed :: a in To(Some(s), Bad, now, recipients)
      ensures (sender.log, handed) == HandedOf(old(sender.log), To(Some(s), Bad, now, recipients), tries)
      ensures Some(next) == Next(Some(s), Bad, now, recipients, handed)
      ensures |sender.log| == |old(sender.log)| + |handed|
    {
      handed := [];
      next := s.(count := s.count + 1);
      if next.count >= DNS_CHECKS && now - next.since >= DNS_APART {
        var owed;
        handed, owed := Open(name, recipients, tries);
        if handed != [] {
          next := Subject(Phase.Open, 0, next.since, 0, owed);
        }
      }
    }

    // A bad check of a domain whose trouble was said: the copies still owed.
    method FollowUp(s: Subject, now: int, recipients: seq<string>, tries: seq<Try>)
      returns (next: Subject, handed: seq<string>)
      requires Valid() && Distinct(recipients) && s.phase.Open?
      requires |tries| == |To(Some(s), Bad, now, recipients)| && AllInOrder(tries, sender.clock)
      modifies sender
      ensures Valid() && Distinct(handed) && forall a | a in handed :: a in To(Some(s), Bad, now, recipients)
      ensures (sender.log, handed) == HandedOf(old(sender.log), To(Some(s), Bad, now, recipients), tries)
      ensures Some(next) == Next(Some(s), Bad, now, recipients, handed)
      ensures |sender.log| == |old(sender.log)| + |handed|
    {
      next := if s.count != 0 then s.(count := 0, mark := 0) else s;
      handed := sender.Deliver(Filter(recipients, Untold(s.owed)), tries);
      if handed != [] {
        next := next.(owed := AndHanded(s.owed, handed));
      }
    }

    // A good check of such a domain: its end is said after good checks often enough, long enough.
    method GoodAgain(s: Subject, now: int, recipients: seq<string>, tries: seq<Try>)
      returns (next: Option<Subject>, handed: seq<string>)
      requires Valid() && Distinct(recipients) && s.phase.Open?
      requires |tries| == |To(Some(s), Good, now, recipients)| && AllInOrder(tries, sender.clock)
      modifies sender
      ensures Valid() && Distinct(handed) && forall a | a in handed :: a in To(Some(s), Good, now, recipients)
      ensures (sender.log, handed) == HandedOf(old(sender.log), To(Some(s), Good, now, recipients), tries)
      ensures next == Next(Some(s), Good, now, recipients, handed)
      ensures |sender.log| == |old(sender.log)| + |handed|
    {
      handed := [];
      var more := s.(count := s.count + 1);
      if more.count == 1 {
        more := more.(mark := now);
      }
      if more.count >= DNS_CHECKS && now - more.mark >= DNS_APART {
        var to := if s.owed == map[] then recipients else Filter(recipients, Told(s.owed));
        handed := sender.Deliver(to, tries);
        if to == [] || handed != [] {
          return None, handed;
        }
      }
      next := Some(more);
    }

    method DnsStep(name: string, reading: Reading, now: int, recipients: seq<string>, tries: seq<Try>)
      returns (handed: seq<string>)
      requires Valid() && Distinct(recipients)
      requires |tries| == |To(Have(name), reading, now, recipients)| && AllInOrder(tries, sender.clock)
      modifies this`subjects, sender
      ensures Valid()
      ensures Distinct(handed) && forall a | a in handed :: a in To(old(Have(name)), reading, now, recipients)
      ensures (sender.log, handed) == HandedOf(old(sender.log), To(old(Have(name)), reading, now, recipients), tries)
      ensures Have(name) == Next(old(Have(name)), reading, now, recipients, handed)
      ensures subjects - {name} == old(subjects) - {name}
      ensures |sender.log| == |old(sender.log)| + |handed|
    {
      handed := [];
      if reading.Nothing? {
        return;
      }
      var bad := reading.Bad?;
      if name !in subjects {
        if bad {
          subjects := subjects[name := Subject(Pending, 1, now, 0, map[])];
        }
        return;
      }
      var s := subjects[name];
      var next := None;
      if s.phase.Pending? && bad {
        var more;
        more, handed := BadAgain(name, s, now, recipients, tries);
        next := Some(more);
      } else if bad {
        var more;
        more, handed := FollowUp(s, now, recipients, tries);
        next := Some(more);
      } else if s.phase.Open? {
        next, handed := GoodAgain(s, now, recipients, tries);
      }
      hide Next, To;
      subjects := if next.Some? then subjects[name := next.value] else subjects - {name};
    }
  }

  // ---- every sequence of checks

  datatype Check = Check(reading: Reading, at: int)

  // A copy handed over: the message, the check it came of, and the episode of trouble.
  datatype Copy = Copy(message: Message, first: bool, check: nat, to: string, episode: nat)

  // What is kept of a domain, and the history: the checks that told something, the copies, the episodes over, the
  // checks before this one began, and who was to hear of the domain when the problem was said first.
  datatype World = World(subject: Option<Subject>, checks: seq<Check>, copies: seq<Copy>, episode: nat, since: nat,
                         toHear: set<string>)

  datatype Step = Read(reading: Reading, at: int, recipients: seq<string>, handed: seq<string>) | Deleted

  predicate Can(w: World, step: Step) {
    step.Read? ==>
      && Distinct(step.recipients) && Distinct(step.handed)
      && forall a | a in step.handed :: a in To(w.subject, step.reading, step.at, step.recipients)
  }

  function CopiesOf(handed: seq<string>, message: Message, first: bool, check: nat, episode: nat): (r: seq<Copy>)
    ensures |r| == |handed| && forall i | 0 <= i < |r| :: r[i] == Copy(message, first, check, handed[i], episode)
  {
    seq(|handed|, i requires 0 <= i < |handed| => Copy(message, first, check, handed[i], episode))
  }

  function Do(w: World, step: Step): World {
    match step
    case Deleted => w.(subject := None, episode := w.episode + 1, since := |w.checks|)
    case Read(reading, at, recipients, handed) =>
      var next := Next(w.subject, reading, at, recipients, handed);
      var checks := if reading.Nothing? then w.checks else w.checks + [Check(reading, at)];
      World(next,
            checks,
            match Due(w.subject, reading, at)
              case None => w.copies
              case Some(m) => w.copies + CopiesOf(handed, m, w.subject.value.phase.Pending?, |w.checks|, w.episode),
            if next.None? then w.episode + 1 else w.episode,
            if next.None? then |checks| else w.since,
            if handed != [] && !SaidFirst(w.copies, |w.copies|, w.episode) then set a | a in recipients else w.toHear)
  }

  // From one check to another, all of them told the same, the last long after the first.
  predicate Stretch(checks: seq<Check>, from: nat, to: nat, reading: Reading) {
    from < to < |checks| && checks[to].at - checks[from].at >= DNS_APART
    && forall k | from <= k <= to :: checks[k].reading == reading
  }

  // That the domain is in trouble is said for the first time only after two bad checks at the least, so far
  // apart, with no good one between.
  ghost predicate FirstJustified(checks: seq<Check>, c: Copy) {
    c.message.Problem? && c.first ==> exists from :: Stretch(checks, from, c.check, Bad)
  }

  ghost predicate ClearedJustified(checks: seq<Check>, c: Copy) {
    c.message.Cleared? ==> exists from :: Stretch(checks, from, c.check, Good)
  }

  predicate ToldEarlier(copies: seq<Copy>, n: int, c: Copy) {
    exists k | 0 <= k < n && k < |copies| :: copies[k].message.Problem? && copies[k].episode == c.episode
        && copies[k].to == c.to
  }

  // That it is over is said only to those told of the trouble in the same episode.
  ghost predicate ClearedToTheTold(copies: seq<Copy>) {
    forall i | 0 <= i < |copies| && copies[i].message.Cleared? :: ToldEarlier(copies, i, copies[i])
  }

  // In an episode each address has one copy of the problem at the most.
  ghost predicate OncePerEpisode(copies: seq<Copy>) {
    forall i, j | 0 <= i < j < |copies| && copies[i].message.Problem? && copies[j].message.Problem?
                  && copies[i].episode == copies[j].episode :: copies[i].to != copies[j].to
  }

  // The end of the checks, as the subject counts it.
  predicate Counted(w: World) {
    match w.subject
    case None => true
    case Some(s) =>
      && s.count <= |w.checks|
      && (s.phase.Pending? ==>
            && s.count > 0 && w.checks[|w.checks| - s.count].at == s.since
            && forall k | |w.checks| - s.count <= k < |w.checks| :: w.checks[k].reading.Bad?)
      && (s.phase.Open? ==>
            && s.owed != map[]
            && (s.count > 0 ==> w.checks[|w.checks| - s.count].at == s.mark)
            && forall k | |w.checks| - s.count <= k < |w.checks| :: w.checks[k].reading.Good?)
  }

  ghost predicate CopyOf(w: World, a: string) {
    exists k | 0 <= k < |w.copies| :: w.copies[k].message.Problem? && w.copies[k].episode == w.episode
        && w.copies[k].to == a
  }

  // Those told in this episode are those handed a copy in it.
  ghost predicate ToldIs(w: World) {
    && (forall k | 0 <= k < |w.copies| :: w.copies[k].episode <= w.episode)
    && (forall a :: CopyOf(w, a) <==> w.subject.Some? && w.subject.value.phase.Open? && a in Told(w.subject.value.owed))
  }

  ghost predicate Justified(w: World) {
    forall i | 0 <= i < |w.copies| :: FirstJustified(w.checks, w.copies[i]) && ClearedJustified(w.checks, w.copies[i])
  }

  predicate SaidFirst(copies: seq<Copy>, n: int, episode: nat) {
    exists k | 0 <= k < n && k < |copies| :: copies[k].message.Problem? && copies[k].first
        && copies[k].episode == episode
  }

  // A copy handed over later than the first is of trouble that was said, and is still there.
  ghost predicate FollowUpsJustified(w: World) {
    && (w.subject.Some? && w.subject.value.phase.Open? ==> SaidFirst(w.copies, |w.copies|, w.episode))
    && forall i | 0 <= i < |w.copies| && w.copies[i].message.Problem? && !w.copies[i].first ::
         && SaidFirst(w.copies, i, w.copies[i].episode)
         && w.copies[i].check < |w.checks| && w.checks[w.copies[i].check].reading.Bad?
  }

  ghost predicate Inv(w: World) {
    FollowUpsJustified(w) && Counted(w) && ToldIs(w) && Justified(w) && ClearedToTheTold(w.copies)
        && OncePerEpisode(w.copies)
  }

  lemma StepCounted(w: World, step: Step)
    requires Counted(w) && Can(w, step)
    ensures Counted(Do(w, step))
  {
    if step.Read? && w.subject.Some? {
      if step.handed != [] {
        assert step.handed[0] in step.handed;
      }
      var s := w.subject.value;
      if s.phase.Pending? && step.handed != [] {
        assert step.handed[0] in To(w.subject, step.reading, step.at, step.recipients);
        assert step.handed[0] in Owing(step.recipients, step.handed);
      }
      if s.phase.Open? {
        var a :| a in s.owed;
        assert a in AndHanded(s.owed, step.handed);
      }
    }
  }

  lemma StepJustified(w: World, step: Step)
    requires Counted(w) && Justified(w) && Can(w, step)
    ensures Justified(Do(w, step))
  {
    var w' := Do(w, step);
    forall c, from, r | Stretch(w.checks, from, c, r) ensures Stretch(w'.checks, from, c, r) {
    }
    if step.Read? && Due(w.subject, step.reading, step.at).Some? {
      var s := w.subject.value;
      var n := |w.checks|;
      if s.phase.Pending? {
        assert Stretch(w'.checks, n - s.count, n, Bad);
      } else if step.reading.Good? {
        assert Stretch(w'.checks, n - s.count, n, Good);
      }
    }
    forall i | 0 <= i < |w'.copies| ensures FirstJustified(w'.checks, w'.copies[i])
        && ClearedJustified(w'.checks, w'.copies[i]) {
      if i < |w.copies| {
        assert w'.copies[i] == w.copies[i];
        assert FirstJustified(w.checks, w.copies[i]) && ClearedJustified(w.checks, w.copies[i]);
      }
    }
  }

  lemma StepFollowUps(w: World, step: Step)
    requires Counted(w) && FollowUpsJustified(w) && Can(w, step)
    ensures FollowUpsJustified(Do(w, step))
  {
    var w' := Do(w, step);
    var n := |w.copies|;
    forall m, e | m <= n && SaidFirst(w.copies, m, e) ensures SaidFirst(w'.copies, m, e) {
      var k :| 0 <= k < m && k < n && w.copies[k].message.Problem? && w.copies[k].first && w.copies[k].episode == e;
      assert w'.copies[k] == w.copies[k];
    }
    forall i | 0 <= i < |w'.copies| && w'.copies[i].message.Problem? && !w'.copies[i].first
      ensures SaidFirst(w'.copies, i, w'.copies[i].episode)
      ensures w'.copies[i].check < |w'.checks| && w'.checks[w'.copies[i].check].reading.Bad?
    {
      assert i < n ==> w'.copies[i] == w.copies[i];
      if i >= n {
        assert SaidFirst(w'.copies, n, w.episode);
        var k :| 0 <= k < n && k < |w'.copies| && w'.copies[k].message.Problem? && w'.copies[k].first
            && w'.copies[k].episode == w.episode;
      }
    }
    if w'.subject.Some? && w'.subject.value.phase.Open? {
      if w.subject.value.phase.Open? {
        var k :| 0 <= k < n && w.copies[k].message.Problem? && w.copies[k].first && w.copies[k].episode == w.episode;
        assert w'.copies[k] == w.copies[k];
      } else {
        assert w'.copies[n].first;
      }
    }
  }

  // A copy goes to an address not told in the episode, or, that it is over, to one that was.
  lemma HandedIs(w: World, step: Step, a: string)
    requires Counted(w) && ToldIs(w) && Can(w, step) && step.Read? && a in step.handed
    ensures var m := Due(w.subject, step.reading, step.at); m.Some? && (m.value.Problem? <==> !CopyOf(w, a))
  {
    assert a in To(w.subject, step.reading, step.at, step.recipients);
  }

  lemma StepOnce(w: World, step: Step)
    requires Counted(w) && ToldIs(w) && OncePerEpisode(w.copies) && Can(w, step)
    ensures OncePerEpisode(Do(w, step).copies)
  {
    var w' := Do(w, step);
    var n := |w.copies|;
    forall i, j | 0 <= i < j < |w'.copies| && w'.copies[i].message.Problem? && w'.copies[j].message.Problem?
                  && w'.copies[i].episode == w'.copies[j].episode
      ensures w'.copies[i].to != w'.copies[j].to
    {
      assert i < n ==> w'.copies[i] == w.copies[i];
      assert j < n ==> w'.copies[j] == w.copies[j];
      if j >= n {
        HandedIs(w, step, step.handed[j - n]);
      }
    }
  }

  lemma StepCleared(w: World, step: Step)
    requires Counted(w) && ToldIs(w) && ClearedToTheTold(w.copies) && Can(w, step)
    ensures ClearedToTheTold(Do(w, step).copies)
  {
    var w' := Do(w, step);
    var n := |w.copies|;
    forall i | 0 <= i < |w'.copies| && w'.copies[i].message.Cleared? ensures ToldEarlier(w'.copies, i, w'.copies[i]) {
      if i < n {
        assert w'.copies[i] == w.copies[i];
        assert ToldEarlier(w.copies, i, w.copies[i]);
        var k :| 0 <= k < i && k < n && w.copies[k].message.Problem? && w.copies[k].episode == w.copies[i].episode
                 && w.copies[k].to == w.copies[i].to;
        assert w'.copies[k] == w.copies[k];
      } else {
        HandedIs(w, step, step.handed[i - n]);
        var k :| 0 <= k < n && w.copies[k].message.Problem? && w.copies[k].episode == w.episode
            && w.copies[k].to == w'.copies[i].to;
        assert w'.copies[k] == w.copies[k];
      }
    }
  }

  lemma StepTold(w: World, step: Step)
    requires Counted(w) && ToldIs(w) && Can(w, step)
    ensures ToldIs(Do(w, step))
  {
    var w' := Do(w, step);
    var n := |w.copies|;
    forall k | 0 <= k < |w'.copies| ensures w'.copies[k].episode <= w'.episode {
      if k < n {
        assert w'.copies[k] == w.copies[k];
      }
    }
    forall a
      ensures CopyOf(w', a) <==>
              w'.subject.Some? && w'.subject.value.phase.Open? && a in Told(w'.subject.value.owed)
    {
      if w'.episode == w.episode {
        ToldOn(w, step, a);
      } else {
        assert forall k | 0 <= k < |w'.copies| :: w'.copies[k].episode <= w.episode;
      }
    }
  }

  lemma ToldOn(w: World, step: Step, a: string)
    requires Counted(w) && ToldIs(w) && Can(w, step) && Do(w, step).episode == w.episode
    ensures var w' := Do(w, step);
            CopyOf(w', a) <==> w'.subject.Some? && w'.subject.value.phase.Open? && a in Told(w'.subject.value.owed)
  {
    var w' := Do(w, step);
    var n := |w.copies|;
    var says := step.Read? && Due(w.subject, step.reading, step.at) == Some(Problem);
    assert CopyOf(w', a) <==> CopyOf(w, a) || (says && a in step.handed) by {
      CopiesOn(w, step, a);
    }
    hide CopyOf, CopiesOf, Distinct;
    if step.handed != [] {
      assert step.handed[0] in step.handed;
    }
    if a in step.handed {
      assert a in To(w.subject, step.reading, step.at, step.recipients);
    }
  }

  lemma CopiesOn(w: World, step: Step, a: string)
    requires Can(w, step) && Do(w, step).episode == w.episode
    ensures CopyOf(Do(w, step), a) <==>
            CopyOf(w, a) || (step.Read? && Due(w.subject, step.reading, step.at) == Some(Problem) && a in step.handed)
  {
    var w' := Do(w, step);
    var n := |w.copies|;
    if k :| 0 <= k < n && w.copies[k].message.Problem? && w.copies[k].episode == w.episode && w.copies[k].to == a {
      assert w'.copies[k] == w.copies[k];
    }
    if k :| 0 <= k < |w'.copies| &&
            w'.copies[k].message.Problem? && w'.copies[k].episode == w.episode && w'.copies[k].to == a {
      assert k < n ==> w'.copies[k] == w.copies[k];
      assert k >= n ==> w'.copies[k].to == step.handed[k - n];
    }
    if step.Read? && Due(w.subject, step.reading, step.at) == Some(Problem) && a in step.handed {
      var i :| 0 <= i < |step.handed| && step.handed[i] == a;
      assert w'.copies[n + i].to == a;
    }
  }

  predicate Run(w: World, steps: seq<Step>)
    decreases |steps|
  {
    steps == [] || (Can(w, steps[0]) && Run(Do(w, steps[0]), steps[1..]))
  }

  function After(w: World, steps: seq<Step>): World
    decreases |steps|
  {
    if steps == [] then w else After(Do(w, steps[0]), steps[1..])
  }

  const FRESH := World(None, [], [], 0, 0, {})

  lemma {:induction false} EveryRun(w: World, steps: seq<Step>)
    requires Inv(w) && Run(w, steps)
    ensures Inv(After(w, steps))
    decreases |steps|
  {
    if steps != [] {
      StepCounted(w, steps[0]);
      StepJustified(w, steps[0]);
      StepFollowUps(w, steps[0]);
      StepTold(w, steps[0]);
      StepOnce(w, steps[0]);
      StepCleared(w, steps[0]);
      hide Do, Can, Counted, ToldIs, Justified, FollowUpsJustified, ClearedToTheTold, OncePerEpisode;
      EveryRun(Do(w, steps[0]), steps[1..]);
    }
  }

  // Over every sequence of checks, of who is to hear of a domain, of copies that go out or do not, and of
  // deletions: each copy is justified by the checks, and no address has two of the problem in an episode.
  lemma EachMessageIsJustified(steps: seq<Step>)
    requires Run(FRESH, steps)
    ensures var w := After(FRESH, steps);
            && (forall i | 0 <= i < |w.copies| :: FirstJustified(w.checks, w.copies[i])
                 && ClearedJustified(w.checks, w.copies[i]))
            && FollowUpsJustified(w) && ClearedToTheTold(w.copies) && OncePerEpisode(w.copies)
  {
    EveryRun(FRESH, steps);
  }

  // ---- what each check owes

  // The checks of the episode from there on all told the same, the one before them, if any, not.
  predicate RowFrom(w: World, from: nat, reading: Reading) {
    && w.since <= from < |w.checks|
    && (forall k | from <= k < |w.checks| :: w.checks[k].reading == reading)
    && (from > w.since ==> w.checks[from - 1].reading != reading)
  }

  // And the first of them is so long ago.
  ghost predicate LongRow(w: World, reading: Reading, at: int) {
    exists from: nat :: RowFrom(w, from, reading) && at - w.checks[from].at >= 45 * 60
  }

  // Where the row the subject counts begins; and whom it keeps.
  ghost predicate Kept(w: World) {
    && w.since <= |w.checks|
    && match w.subject
       case None => w.since == |w.checks|
       case Some(s) =>
         && s.count <= |w.checks| - w.since
         && (s.phase.Pending? ==> w.since == |w.checks| - s.count)
         && (s.phase.Open? ==>
               && s.count < |w.checks| - w.since && w.checks[|w.checks| - s.count - 1].reading.Bad?
               && s.owed.Keys == w.toHear)
  }

  ghost predicate Opened(w: World) {
    SaidFirst(w.copies, |w.copies|, w.episode) <==> w.subject.Some? && w.subject.value.phase.Open?
  }

  lemma KeysOwing(recipients: seq<string>, handed: seq<string>)
    ensures Owing(recipients, handed).Keys == set a | a in recipients
  {
  }

  lemma KeysAndHanded(owed: map<string, bool>, handed: seq<string>)
    requires forall a | a in handed :: a in owed
    ensures AndHanded(owed, handed).Keys == owed.Keys
  {
  }

  lemma HandedOwed(w: World, step: Step, s: Subject)
    requires step.Read? && Can(w, step) && w.subject == Some(s) && s.phase.Open? && step.reading.Bad?
    ensures forall a | a in step.handed :: a in s.owed
  {
    hide Distinct;
  }

  // The row goes on with the check, or begins with it.
  lemma StepKept(w: World, step: Step)
    requires Inv(w) && Kept(w) && Opened(w) && Can(w, step)
    ensures Kept(Do(w, step))
  {
    hide Justified, FollowUpsJustified, ClearedToTheTold, OncePerEpisode, CopiesOf, SaidFirst, Distinct, ToldIs, To,
      Owing, AndHanded;
    if step.Read? && w.subject.Some? {
      var s := w.subject.value;
      KeysOwing(step.recipients, step.handed);
      NobodyHanded(w, step);
      if s.phase.Open? && step.reading.Bad? {
        HandedOwed(w, step, s);
        KeysAndHanded(s.owed, step.handed);
      }
    } else if step.Read? {
      NobodyHanded(w, step);
    }
  }

  lemma NobodyHanded(w: World, step: Step)
    requires step.Read? && Can(w, step)
    ensures Due(w.subject, step.reading, step.at).None? ==> step.handed == []
  {
    if step.handed != [] {
      assert step.handed[0] in step.handed;
    }
    hide Due, Distinct;
  }

  lemma OpenedIs(w: World)
    requires FollowUpsJustified(w) && ToldIs(w)
    ensures Opened(w)
  {
    if k :| 0 <= k < |w.copies| && w.copies[k].message.Problem? && w.copies[k].first
            && w.copies[k].episode == w.episode {
      assert CopyOf(w, w.copies[k].to);
    }
  }

  lemma {:induction false} EveryRunKeeps(w: World, steps: seq<Step>)
    requires Inv(w) && Kept(w) && Run(w, steps)
    ensures Inv(After(w, steps)) && Kept(After(w, steps))
    decreases |steps|
  {
    EveryRun(w, steps);
    if steps != [] {
      OpenedIs(w);
      StepKept(w, steps[0]);
      EveryRun(w, [steps[0]]);
      assert [steps[0]][1..] == [];
      EveryRunKeeps(Do(w, steps[0]), steps[1..]);
    }
  }

  // The next check of a domain, told by the history alone. While no problem was said in the episode, a bad check
  // makes it said to everyone who is to hear of the domain exactly if the checks before it were bad for long enough;
  // once it was, a bad check goes to those who were to hear of it then, have had no copy, and still are; a good one
  // to those who had a copy and still are, exactly if the checks before it were good for long enough.
  lemma EachCheckOwes(steps: seq<Step>, reading: Reading, at: int, recipients: seq<string>)
    requires Run(FRESH, steps)
    ensures var w := After(FRESH, steps);
            var (due, to) := (Due(w.subject, reading, at), To(w.subject, reading, at, recipients));
            var said := SaidFirst(w.copies, |w.copies|, w.episode);
            && (due.None? ==> to == [])
            && (!said ==> (due == Some(Problem) <==> reading.Bad? && LongRow(w, Bad, at))
                          && due != Some(Cleared) && (due == Some(Problem) ==> to == recipients))
            && (said && reading.Bad? ==>
                  due == Some(Problem)
                  && forall a :: a in to <==> a in recipients && a in w.toHear && !CopyOf(w, a))
            && (said && !reading.Bad? ==>
                  && (due == Some(Cleared) <==> reading.Good? && LongRow(w, Good, at)) && due != Some(Problem)
                  && (due == Some(Cleared) ==> forall a :: a in to <==> a in recipients && CopyOf(w, a)))
  {
    EveryRunKeeps(FRESH, steps);
    var w := After(FRESH, steps);
    OpenedIs(w);
    hide Run, After;
    RowIs(w, at);
    OwesIs(w, reading, at, recipients);
  }

  // The row the subject counts is the one there is.
  lemma RowIs(w: World, at: int)
    requires Counted(w) && Kept(w)
    ensures w.subject.None? ==> !LongRow(w, Bad, at)
    ensures w.subject.Some? ==>
              var s := w.subject.value;
              && (s.phase.Pending? ==> (LongRow(w, Bad, at) <==> at - s.since >= 2700))
              && (s.phase.Open? ==> (LongRow(w, Good, at) <==> s.count > 0 && at - s.mark >= 2700))
  {
    if w.subject.Some? {
      var s := w.subject.value;
      var from := |w.checks| - s.count;
      var reading := if s.phase.Pending? then Bad else Good;
      forall f: nat | RowFrom(w, f, reading) ensures f == from {
        OneRow(w, from, f, reading);
      }
      if s.count > 0 {
        assert RowFrom(w, from, reading);
      }
    } else {
      assert forall f: nat :: !RowFrom(w, f, Bad);
    }
  }

  lemma OneRow(w: World, from: nat, f: nat, reading: Reading)
    requires RowFrom(w, f, reading) && w.since <= from <= |w.checks|
    requires forall k | from <= k < |w.checks| :: w.checks[k].reading == reading
    requires from > w.since ==> w.checks[from - 1].reading != reading
    ensures f == from
  {
  }

  lemma OwesIs(w: World, reading: Reading, at: int, recipients: seq<string>)
    requires Inv(w) && Kept(w) && Opened(w)
    requires w.subject.None? ==> !LongRow(w, Bad, at)
    requires w.subject.Some? ==>
               var s := w.subject.value;
               && (s.phase.Pending? ==> (LongRow(w, Bad, at) <==> at - s.since >= 2700))
               && (s.phase.Open? ==> (LongRow(w, Good, at) <==> s.count > 0 && at - s.mark >= 2700))
    ensures var (due, to) := (Due(w.subject, reading, at), To(w.subject, reading, at, recipients));
            var said := SaidFirst(w.copies, |w.copies|, w.episode);
            && (due.None? ==> to == [])
            && (!said ==> (due == Some(Problem) <==> reading.Bad? && LongRow(w, Bad, at))
                          && due != Some(Cleared) && (due == Some(Problem) ==> to == recipients))
            && (said && reading.Bad? ==>
                  due == Some(Problem)
                  && forall a :: a in to <==> a in recipients && a in w.toHear && !CopyOf(w, a))
            && (said && !reading.Bad? ==>
                  && (due == Some(Cleared) <==> reading.Good? && LongRow(w, Good, at)) && due != Some(Problem)
                  && (due == Some(Cleared) ==> forall a :: a in to <==> a in recipients && CopyOf(w, a)))
  {
    hide LongRow, SaidFirst, CopyOf, Justified, FollowUpsJustified, ClearedToTheTold, OncePerEpisode;
  }
}
