/** The count of mail deferred because the sender check did not answer (sendercheck in logtail and in store). */
module DeferredCounter {
  import opened Wrappers
  import opened Strings

  const PIDS_BOUND := 1024

  // ---- a place, as it is saved

  // Where a line ends: the fingerprint of its file, "" for a file too short for one, and the offset past it.
  datatype Place = Place(fp: string, end: nat)

  function Decimal(n: nat): (s: string)
    ensures s != "" && forall c | c in s :: '0' <= c <= '9'
  {
    var last := ['0' + (n % 10) as char];
    if n < 10 then last else Decimal(n / 10) + last
  }

  function Number(s: string): Option<nat> {
    if s == "" then None
    else if !('0' <= s[|s| - 1] <= '9') then None
    else
      var last := (s[|s| - 1] - '0') as nat;
      if |s| == 1 then Some(last) else
        var front := Number(s[..|s| - 1]);
        if front.None? then None else Some(10 * front.value + last)
  }

  function Show(p: Place): string {
    p.fp + "@" + Decimal(p.end)
  }

  function ParsePlace(s: string): Place {
    var at := LastIndexOf(s, '@');
    if at < 0 then Place("", 0) else
      match Number(s[at + 1..])
      case None => Place("", 0)
      case Some(end) => Place(s[..at], end)
  }

  lemma {:induction false} NumberOfDecimal(n: nat)
    ensures Number(Decimal(n)) == Some(n)
  {
    var s := Decimal(n);
    if n >= 10 {
      NumberOfDecimal(n / 10);
      assert s[..|s| - 1] == Decimal(n / 10);
    }
  }

  // A place comes back as it was saved, whatever the fingerprint holds.
  lemma PlaceRoundTrip(p: Place)
    ensures ParsePlace(Show(p)) == p
  {
    var s, digits := Show(p), Decimal(p.end);
    assert s[|p.fp| + 1..] == digits && s[..|p.fp|] == p.fp;
    LastIndexUnique(s, '@', |p.fp|);
    NumberOfDecimal(p.end);
  }

  // ---- a line

  datatype Kind = Connect(pid: string) | Refused(pid: string) | Broken | Other

  // A line of the log as it is read: its file is known to the history alone.
  datatype Event = Event(kind: Kind, at: int, place: Place, file: nat, catchingUp: bool)

  datatype Memory = Memory(failed: set<string>, counted: Place, last: Option<int>)

  function After(at: int, last: Option<int>): bool {
    last.None? || at > last.value
  }

  function CountedAlready(m: Memory, at: int, place: Place): bool {
    if place.fp != "" && place.fp == m.counted.fp then place.end <= m.counted.end else !After(at, m.last)
  }

  function Latest(at: int, last: Option<int>): Option<int> {
    if After(at, last) then Some(at) else last
  }

  predicate Counts(m: Memory, e: Event) {
    (e.kind.Broken? || (e.kind.Refused? && e.kind.pid !in m.failed))
    && !(e.catchingUp && CountedAlready(m, e.at, e.place))
  }

  function Remembered(failed: set<string>, kind: Kind): set<string> {
    match kind
    case Connect(pid) => failed - {pid}
    case Refused(pid) =>
      if pid in failed then failed else (if |failed| >= PIDS_BOUND then {} else failed) + {pid}
    case _ => failed
  }

  function Handled(m: Memory, e: Event): Memory {
    var failed := Remembered(m.failed, e.kind);
    if Counts(m, e) then Memory(failed, e.place, Latest(e.at, m.last)) else m.(failed := failed)
  }

  // ---- the store

  datatype Row = Row(deferred: nat, messages: nat)

  // The settings and the day rows; tally is the history of the lines counted.
  datatype Store = Store(days: map<int, Row>, deferredAt: Option<int>, place: string, tally: seq<Event>)

  const DAY := 86400

  function Added(s: Store, e: Event): Store {
    var day := e.at / DAY;
    var row := if day in s.days then s.days[day] else Row(0, 0);
    var more := if e.kind.Broken? then row.(messages := row.messages + 1) else row.(deferred := row.deferred + 1);
    Store(s.days[day := more], Latest(e.at, s.deferredAt), Show(e.place), s.tally + [e])
  }

  class Counter {
    var failed: set<string>
    var counted: Place
    var last: Option<int>
    var store: Store

    function Mem(): Memory
      reads this
    {
      Memory(failed, counted, last)
    }

    // A start of the panel on what the store holds.
    constructor (store: Store)
      ensures this.store == store && Mem() == Memory({}, ParsePlace(store.place), store.deferredAt)
    {
      this.store := store;
      failed, counted, last := {}, ParsePlace(store.place), store.deferredAt;
    }

    method Handle(e: Event)
      modifies this
      ensures Mem() == Handled(old(Mem()), e)
      ensures store == if Counts(old(Mem()), e) then Added(old(store), e) else old(store)
      ensures |failed| <= PIDS_BOUND || |failed| <= old(|failed|)
    {
      match e.kind {
        case Broken =>
          Count(e);
        case Connect(pid) =>
          Smaller(failed, pid);
          failed := failed - {pid};
        case Refused(pid) =>
          if pid in failed {
            return;
          }
          if |failed| >= PIDS_BOUND {
            failed := {};
          }
          Count(e);
          failed := failed + {pid};
        case Other =>
      }
    }

    // One transaction holds the count, its time and its place.
    method Count(e: Event)
      modifies this`counted, this`last, this`store
      ensures var counts := !(e.catchingUp && CountedAlready(old(Mem()), e.at, e.place));
              && (counts ==> Mem() == Memory(failed, e.place, Latest(e.at, old(last))) && store == Added(old(store), e))
              && (!counts ==> Mem() == old(Mem()) && store == old(store))
    {
      if e.catchingUp && CountedAlready(Mem(), e.at, e.place) {
        return;
      }
      if After(e.at, last) {
        last := Some(e.at);
      }
      counted := e.place;
      store := Added(store, e);
    }
  }

  lemma Smaller(s: set<string>, x: string)
    ensures |s - {x}| <= |s|
  {
    if x in s {
      assert s == (s - {x}) + {x};
    } else {
      assert s == s - {x};
    }
  }

  // ---- runs

  // The panel and its store, and the history: all lines read.
  datatype World = World(mem: Memory, store: Store, read: seq<Event>)

  datatype Step = Line(e: Event) | Crash

  function Do(w: World, step: Step): World {
    match step
    case Line(e) =>
      World(Handled(w.mem, e), if Counts(w.mem, e) then Added(w.store, e) else w.store, w.read + [e])
    case Crash => w.(mem := Memory({}, ParsePlace(w.store.place), w.store.deferredAt))
  }

  predicate SameLine(e: Event, p: Event) {
    e.file == p.file && e.place.end == p.place.end
  }

  // What is known of two readings of lines: a fingerprint names one file; a line has one stamp.
  predicate Agree(e: Event, p: Event) {
    && (e.place.fp == p.place.fp != "" ==> e.file == p.file)
    && (SameLine(e, p) ==> e.at == p.at)
  }

  // The stamps of a file do not go back.
  predicate InStampOrder(e: Event, p: Event) {
    && (e.file == p.file && e.place.end < p.place.end ==> e.at <= p.at)
    && (e.file == p.file && e.place.end > p.place.end ==> e.at >= p.at)
  }

  predicate Consistent(e: Event, p: Event) {
    Agree(e, p) && InStampOrder(e, p)
  }

  // A line read once the panel has caught up is past all those read of its file before.
  ghost predicate CanRead(w: World, step: Step) {
    step.Line? ==> forall p | p in w.read ::
      Agree(step.e, p) && (!step.e.catchingUp && step.e.file == p.file ==> p.place.end < step.e.place.end)
  }

  ghost predicate Can(w: World, step: Step) {
    CanRead(w, step) && (step.Line? ==> forall p | p in w.read :: InStampOrder(step.e, p))
  }

  // The stamps in any order, or in the file's.
  ghost predicate ReadRun(w: World, steps: seq<Step>)
    decreases |steps|
  {
    steps == [] || (CanRead(w, steps[0]) && ReadRun(Do(w, steps[0]), steps[1..]))
  }

  ghost predicate Run(w: World, steps: seq<Step>)
    decreases |steps|
  {
    steps == [] || (Can(w, steps[0]) && Run(Do(w, steps[0]), steps[1..]))
  }

  function End(w: World, steps: seq<Step>): World
    decreases |steps|
  {
    if steps == [] then w else End(Do(w, steps[0]), steps[1..])
  }

  const EMPTY := Store(map[], None, "", [])
  const FRESH := World(Memory({}, ParsePlace(""), None), EMPTY, [])

  // The memory is what a start would take from the store.
  predicate Mirrors(w: World) {
    w.mem.last == w.store.deferredAt && w.mem.counted == ParsePlace(w.store.place)
  }

  // No line counted is after the last time, nor one of the file of the last one counted past its place.
  ghost predicate Behind(tally: seq<Event>, read: seq<Event>, counted: Place, last: Option<int>) {
    && (forall x | x in tally :: x in read && !After(x.at, last))
    && (counted.fp != "" ==>
          exists y :: y in tally && y.place == counted
                      && forall x | x in tally && x.file == y.file :: x.place.end <= y.place.end)
  }

  ghost predicate Tallied(w: World) {
    Mirrors(w) && Behind(w.store.tally, w.read, w.mem.counted, w.mem.last)
  }

  ghost predicate Once(tally: seq<Event>) {
    forall i, j | 0 <= i < j < |tally| :: !SameLine(tally[i], tally[j])
  }

  // A line that counts was not counted before, and is the last of its file so far to count.
  lemma CountsIsNew(w: World, e: Event)
    requires Tallied(w) && Can(w, Line(e)) && Counts(w.mem, e)
    ensures forall x | x in w.store.tally && x.file == e.file :: x.place.end < e.place.end
  {
    forall x | x in w.store.tally && x.file == e.file ensures x.place.end < e.place.end {
      assert Consistent(e, x);
      if e.catchingUp && e.place.fp != "" && e.place.fp == w.mem.counted.fp {
        var y :| y in w.store.tally && y.place == w.mem.counted
                 && forall z | z in w.store.tally && z.file == y.file :: z.place.end <= y.place.end;
        assert Consistent(e, y);
      }
    }
  }

  lemma StepMirrors(w: World, step: Step)
    requires Mirrors(w)
    ensures Mirrors(Do(w, step))
  {
    if step.Line? {
      PlaceRoundTrip(step.e.place);
    }
    hide ParsePlace, Show;
  }

  lemma CountedBehind(tally: seq<Event>, read: seq<Event>, counted: Place, last: Option<int>, e: Event)
    requires Behind(tally, read, counted, last)
    requires forall x | x in tally && x.file == e.file :: x.place.end < e.place.end
    ensures Behind(tally + [e], read + [e], e.place, Latest(e.at, last))
  {
    assert e in tally + [e];
  }

  lemma OnceMore(tally: seq<Event>, e: Event)
    requires Once(tally) && forall x | x in tally && x.file == e.file :: x.place.end < e.place.end
    ensures Once(tally + [e])
  {
  }

  lemma StepTallied(w: World, step: Step)
    requires Tallied(w) && Once(w.store.tally) && Can(w, step)
    ensures Tallied(Do(w, step)) && Once(Do(w, step).store.tally)
  {
    StepMirrors(w, step);
    if step.Line? {
      var w' := Do(w, step);
      if Counts(w.mem, step.e) {
        CountsIsNew(w, step.e);
        CountedBehind(w.store.tally, w.read, w.mem.counted, w.mem.last, step.e);
        OnceMore(w.store.tally, step.e);
        assert w'.store.tally == w.store.tally + [step.e] && w'.read == w.read + [step.e];
        assert w'.mem.counted == step.e.place && w'.mem.last == Latest(step.e.at, w.mem.last);
        hide *;
      } else {
        assert w'.store == w.store && w'.read == w.read + [step.e];
        assert w'.mem.counted == w.mem.counted && w'.mem.last == w.mem.last;
        ReadOn(w.store.tally, w.read, w.mem.counted, w.mem.last, step.e);
        hide *;
      }
    }
  }

  lemma ReadOn(tally: seq<Event>, read: seq<Event>, counted: Place, last: Option<int>, e: Event)
    requires Behind(tally, read, counted, last)
    ensures Behind(tally, read + [e], counted, last)
  {
  }

  lemma {:induction false} RunsCountOnce(w: World, steps: seq<Step>)
    requires Tallied(w) && Once(w.store.tally) && Run(w, steps)
    ensures Tallied(End(w, steps)) && Once(End(w, steps).store.tally)
    decreases |steps|
  {
    if steps != [] {
      StepTallied(w, steps[0]);
      RunsCountOnce(Do(w, steps[0]), steps[1..]);
    }
  }

  lemma FreshIsTallied()
    ensures Tallied(FRESH) && Once(FRESH.store.tally) && RowsHold(FRESH.store) && Topmost(FRESH)
  {
  }

  // Across crashes, replays and rotations no line is counted twice.
  lemma NoneCountedTwice(steps: seq<Step>)
    requires Run(FRESH, steps)
    ensures Once(End(FRESH, steps).store.tally)
  {
    FreshIsTallied();
    RunsCountOnce(FRESH, steps);
  }

  // ---- whatever the stamps

  // What was counted was read, and is not after the last time.
  ghost predicate UpToLast(w: World) {
    Mirrors(w) && forall x | x in w.store.tally :: x in w.read && !After(x.at, w.mem.last)
  }

  // The line, read again, is past the place of the last one counted, and under its fingerprint.
  ghost predicate PastThePlace(w: World, e: Event) {
    e.catchingUp && e.place.fp == w.mem.counted.fp != "" && w.mem.counted.end < e.place.end
  }

  // The times alone never let a line count twice.
  lemma AgainIsPastThePlace(w: World, e: Event)
    requires UpToLast(w) && CanRead(w, Line(e)) && Counts(w.mem, e) && InTally(w, e)
    ensures PastThePlace(w, e)
  {
    var x :| x in w.store.tally && SameLine(x, e);
    assert Agree(e, x);
  }

  lemma StepLatest(w: World, step: Step)
    requires UpToLast(w)
    ensures UpToLast(Do(w, step))
  {
    StepMirrors(w, step);
    hide ParsePlace, Show;
  }

  lemma {:induction false} RunUpToLast(w: World, steps: seq<Step>)
    requires UpToLast(w)
    ensures UpToLast(End(w, steps))
    decreases |steps|
  {
    if steps != [] {
      StepLatest(w, steps[0]);
      RunUpToLast(Do(w, steps[0]), steps[1..]);
    }
  }

  // No line that counts, read past the place under its fingerprint, was counted before.
  ghost predicate NoneGoneBackTo(w: World, steps: seq<Step>)
    decreases |steps|
  {
    steps == [] ||
    (&& (steps[0].Line? && Counts(w.mem, steps[0].e) && PastThePlace(w, steps[0].e) ==> !InTally(w, steps[0].e))
     && NoneGoneBackTo(Do(w, steps[0]), steps[1..]))
  }

  lemma {:induction false} TallyGrows(w: World, steps: seq<Step>)
    ensures w.store.tally <= End(w, steps).store.tally
    decreases |steps|
  {
    if steps != [] {
      TallyGrows(Do(w, steps[0]), steps[1..]);
    }
  }

  lemma StepOnce(w: World, step: Step)
    requires UpToLast(w) && Once(w.store.tally) && CanRead(w, step)
    ensures Once(Do(w, step).store.tally) <==>
            !(step.Line? && Counts(w.mem, step.e) && PastThePlace(w, step.e) && InTally(w, step.e))
  {
    var tally := w.store.tally;
    if step.Line? && Counts(w.mem, step.e) {
      assert Do(w, step).store.tally == tally + [step.e];
      if InTally(w, step.e) {
        AgainIsPastThePlace(w, step.e);
        var i :| 0 <= i < |tally| && SameLine(tally[i], step.e);
        assert SameLine((tally + [step.e])[i], (tally + [step.e])[|tally|]);
      }
    }
  }

  lemma {:induction false} OnceExactlyFrom(w: World, steps: seq<Step>)
    requires UpToLast(w) && Once(w.store.tally) && ReadRun(w, steps)
    ensures Once(End(w, steps).store.tally) <==> NoneGoneBackTo(w, steps)
    decreases |steps|
  {
    if steps != [] {
      var w' := Do(w, steps[0]);
      StepLatest(w, steps[0]);
      StepOnce(w, steps[0]);
      if Once(w'.store.tally) {
        OnceExactlyFrom(w', steps[1..]);
      } else {
        TallyGrows(w', steps[1..]);
      }
    }
  }

  // Whatever the stamps: no line is counted twice if and only if no line that was counted is read again past the
  // place of the last one counted, under its fingerprint.
  lemma OnceExactly(steps: seq<Step>)
    requires ReadRun(FRESH, steps)
    ensures Once(End(FRESH, steps).store.tally) <==> NoneGoneBackTo(FRESH, steps)
  {
    FreshIsTallied();
    OnceExactlyFrom(FRESH, steps);
  }

  // ---- the day rows

  function OfDay(tally: seq<Event>, day: int, message: bool): nat {
    if tally == [] then 0 else
      var e := tally[|tally| - 1];
      OfDay(tally[..|tally| - 1], day, message) + if e.at / DAY == day && e.kind.Broken? == message then 1 else 0
  }

  // Each day's row is the number of lines of that day counted, of each of the two sorts.
  ghost predicate RowsHold(s: Store) {
    forall day :: (if day in s.days then s.days[day] else Row(0, 0)) ==
        Row(OfDay(s.tally, day, false), OfDay(s.tally, day, true))
  }

  lemma AddedHolds(s: Store, e: Event)
    requires RowsHold(s)
    ensures RowsHold(Added(s, e))
  {
    var s' := Added(s, e);
    assert s'.tally[..|s.tally|] == s.tally;
  }

  lemma {:induction false} RowsStayTheTally(w: World, steps: seq<Step>)
    requires RowsHold(w.store)
    ensures RowsHold(End(w, steps).store)
    decreases |steps|
  {
    if steps != [] {
      if steps[0].Line? && Counts(w.mem, steps[0].e) {
        AddedHolds(w.store, steps[0].e);
      }
      RowsStayTheTally(Do(w, steps[0]), steps[1..]);
    }
  }

  lemma RowsAreTheTally(steps: seq<Step>)
    ensures RowsHold(End(FRESH, steps).store)
  {
    FreshIsTallied();
    RowsStayTheTally(FRESH, steps);
  }

  // ---- one file

  // From the first count in a file with a fingerprint, at base, while that file is the one read: a line past it is
  // read first after all those before it, and read again any number of times.
  ghost predicate OneFile(w: World, steps: seq<Step>, base: nat, file: nat, fp: string)
    decreases |steps|
  {
    steps == [] ||
    (&& (steps[0].Line? ==>
           && steps[0].e.file == file && steps[0].e.place.fp == fp
           && (steps[0].e.place.end <= base
               || (exists p :: p in w.read && SameLine(steps[0].e, p) && p.kind == steps[0].e.kind)
               || forall p | p in w.read && p.file == file :: p.place.end < steps[0].e.place.end))
     && OneFile(Do(w, steps[0]), steps[1..], base, file, fp))
  }

  // The last line counted is one of the file.
  ghost predicate CountedIn(w: World, file: nat, fp: string) {
    && fp != "" && w.mem.counted.fp == fp
    && exists y :: y in w.store.tally && y.file == file && y.place == w.mem.counted
  }

  // No warning read is after the last time, nor one of the file of the last line counted past that.
  ghost predicate NoneAbove(tally: seq<Event>, read: seq<Event>, counted: Place, last: Option<int>) {
    && (forall p | p in read && p.kind.Broken? :: !After(p.at, last))
    && (counted.fp != "" ==> forall y | y in tally && y.place == counted :: NonePast(read, y))
  }

  ghost predicate NonePast(read: seq<Event>, y: Event) {
    forall p | p in read && p.kind.Broken? && p.file == y.file :: p.place.end <= y.place.end
  }

  ghost predicate Topmost(w: World) {
    NoneAbove(w.store.tally, w.read, w.mem.counted, w.mem.last)
  }

  // A file known by its fingerprint is known by it from then on.
  ghost predicate NameStays(read: seq<Event>, e: Event) {
    forall p | p in read && p.file == e.file && p.place.fp != "" :: e.place.fp == p.place.fp
  }

  ghost predicate NamesStay(w: World, steps: seq<Step>)
    decreases |steps|
  {
    steps == [] || ((steps[0].Line? ==> NameStays(w.read, steps[0].e)) && NamesStay(Do(w, steps[0]), steps[1..]))
  }

  lemma CountsTopmost(w: World, e: Event)
    requires Tallied(w) && Topmost(w) && Can(w, Line(e)) && Counts(w.mem, e)
    ensures NonePast(w.read, e)
  {
    forall p | p in w.read && p.kind.Broken? && p.file == e.file ensures p.place.end <= e.place.end {
      assert Consistent(e, p);
      if e.catchingUp && e.place.fp != "" && e.place.fp == w.mem.counted.fp {
        var y :| y in w.store.tally && y.place == w.mem.counted;
        assert Consistent(e, y);
      }
    }
  }

  lemma CountedAbove(tally: seq<Event>, read: seq<Event>, counted: Place, last: Option<int>, e: Event)
    requires NoneAbove(tally, read, counted, last) && NonePast(read, e)
    requires forall y | y in tally && y.place == e.place && e.place.fp != "" :: y.file == e.file
    ensures NoneAbove(tally + [e], read + [e], e.place, Latest(e.at, last))
  {
    forall y | y in tally + [e] && y.place == e.place && e.place.fp != "" ensures NonePast(read + [e], y) {
    }
  }

  lemma PassedBy(w: World, e: Event)
    requires Tallied(w) && Can(w, Line(e)) && NameStays(w.read, e) && e.kind.Broken? && !Counts(w.mem, e)
    ensures !After(e.at, w.mem.last)
    ensures w.mem.counted.fp != "" ==>
              forall y | y in w.store.tally && y.place == w.mem.counted && e.file == y.file ::
                e.place.end <= y.place.end
  {
    if e.place.fp != "" && e.place.fp == w.mem.counted.fp {
      var y :| y in w.store.tally && y.place == w.mem.counted;
      assert Consistent(e, y);
    }
  }

  lemma ReadBelow(tally: seq<Event>, read: seq<Event>, counted: Place, last: Option<int>, e: Event)
    requires NoneAbove(tally, read, counted, last)
    requires e.kind.Broken? ==> !After(e.at, last)
    requires e.kind.Broken? && counted.fp != "" ==>
               forall y | y in tally && y.place == counted && e.file == y.file :: e.place.end <= y.place.end
    ensures NoneAbove(tally, read + [e], counted, last)
  {
    forall y | y in tally && y.place == counted && counted.fp != "" ensures NonePast(read + [e], y) {
      assert NonePast(read, y);
    }
  }

  lemma StepTopmost(w: World, step: Step)
    requires Tallied(w) && Topmost(w) && Can(w, step) && (step.Line? ==> NameStays(w.read, step.e))
    ensures Topmost(Do(w, step))
  {
    if step.Line? {
      var e, w' := step.e, Do(w, step);
      assert w'.read == w.read + [e];
      if Counts(w.mem, e) {
        CountsTopmost(w, e);
        assert w'.store.tally == w.store.tally + [e];
        assert w'.mem.counted == e.place && w'.mem.last == Latest(e.at, w.mem.last);
        forall y | y in w.store.tally && y.place == e.place && e.place.fp != "" ensures y.file == e.file {
          assert Consistent(e, y);
        }
        CountedAbove(w.store.tally, w.read, w.mem.counted, w.mem.last, e);
        hide *;
      } else {
        if e.kind.Broken? {
          PassedBy(w, e);
        }
        assert w'.store == w.store && w'.mem.counted == w.mem.counted && w'.mem.last == w.mem.last;
        ReadBelow(w.store.tally, w.read, w.mem.counted, w.mem.last, e);
        hide *;
      }
    }
  }

  lemma {:induction false} RunsTopmost(w: World, steps: seq<Step>)
    requires Tallied(w) && Once(w.store.tally) && Topmost(w) && Run(w, steps) && NamesStay(w, steps)
    ensures Topmost(End(w, steps))
    decreases |steps|
  {
    if steps != [] {
      StepTallied(w, steps[0]);
      StepTopmost(w, steps[0]);
      RunsTopmost(Do(w, steps[0]), steps[1..]);
    }
  }

  ghost predicate CountedSince(w: World, from: nat, base: nat, file: nat, fp: string) {
    && fp != "" && w.mem.counted.fp == fp && from <= |w.read| && base <= w.mem.counted.end
    && (exists p :: p in w.read && p.file == file && p.place == w.mem.counted)
    && (forall i | 0 <= i < from && w.read[i].file == file && w.read[i].kind.Broken? :: w.read[i].place.end <= base)
    && (forall i | from <= i < |w.read| && w.read[i].kind.Broken? ::
          w.read[i].place.end <= w.mem.counted.end && (w.read[i].place.end > base ==> InTally(w, w.read[i])))
  }

  ghost predicate InTally(w: World, e: Event) {
    exists x :: x in w.store.tally && SameLine(x, e)
  }

  lemma StepCounted(w: World, step: Step, from: nat, base: nat, file: nat, fp: string)
    requires CountedSince(w, from, base, file, fp) && Can(w, step) && Tallied(w)
    requires OneFile(w, [step], base, file, fp)
    ensures CountedSince(Do(w, step), from, base, file, fp)
  {
    var w' := Do(w, step);
    if step.Line? {
      var e := step.e;
      assert w'.read == w.read + [e];
      hide ParsePlace, Show, Mirrors, Remembered;
      var c :| c in w.read && c.file == file && c.place == w.mem.counted;
      assert c in w'.read;
      forall p | InTally(w, p) ensures InTally(w', p) {
      }
      if Counts(w.mem, e) {
        assert e in w'.read && e in w'.store.tally && InTally(w', e);
        CountsIsNew(w, e);
      } else if e.kind.Broken? {
        assert e.place.end <= w.mem.counted.end;
        if e.place.end > base {
          var i :| 0 <= i < |w.read| && SameLine(e, w.read[i]) && w.read[i].kind == e.kind;
          assert InTally(w, w.read[i]);
        }
      }
    }
  }

  // Since the first count in the file, each warning of cleanup's read past it has been counted, once.
  lemma {:induction false} CountedExactlyOnce(w: World, steps: seq<Step>, from: nat, base: nat, file: nat, fp: string)
    requires CountedSince(w, from, base, file, fp) && Tallied(w) && Once(w.store.tally)
    requires Run(w, steps) && OneFile(w, steps, base, file, fp)
    ensures CountedSince(End(w, steps), from, base, file, fp) && Once(End(w, steps).store.tally)
    decreases |steps|
  {
    if steps != [] {
      StepCounted(w, steps[0], from, base, file, fp);
      StepTallied(w, steps[0]);
      CountedExactlyOnce(Do(w, steps[0]), steps[1..], from, base, file, fp);
    }
  }

  // From any moment at which the last line counted is of the file, each warning of cleanup's read past it is counted
  // once.
  lemma EachWarningOnce(w: World, steps: seq<Step>, file: nat, fp: string)
    requires Tallied(w) && Once(w.store.tally) && Topmost(w) && CountedIn(w, file, fp)
    requires Run(w, steps) && OneFile(w, steps, w.mem.counted.end, file, fp)
    ensures var w' := End(w, steps);
            && Once(w'.store.tally) && |w.read| <= |w'.read|
            && forall i | |w.read| <= i < |w'.read| && w'.read[i].kind.Broken?
                 && w'.read[i].place.end > w.mem.counted.end ::
                 InTally(w', w'.read[i])
  {
    CountedExactlyOnce(w, steps, |w.read|, w.mem.counted.end, file, fp);
  }
}
