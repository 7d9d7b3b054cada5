/** Runs in which the saved place is not what it should be: each a concrete one, from a log just created. */
module PlaceRuns {
  import opened Wrappers
  import opened LogLines
  import opened LogPlace
  import opened Refusals
  import opened Follow
  import opened NoLineLost
  import opened PlacesHold

  // One step more of a run known to lead somewhere.
  lemma To(w: World, steps: seq<Step>, at: World, step: Step, next: World)
    requires Run(w, steps) && After(w, steps) == at
    requires Can(at, step) && Proviso(at, step) && Do(at, step) == next
    ensures Run(w, steps + [step]) && After(w, steps + [step]) == next
  {
    RunOn(w, steps, step);
  }

  // Reading the log from its creation, one file only.
  function OnlyLog(text: string, stored: Option<Saved>, at: nat, track: Track, unflushed: set<Line>, waits: seq<Wait>,
                    logins: set<Mark>, done: set<Line>, origin: Option<Spot>): World
  {
    World([text], stored, Up(0, at, track, true, None, unflushed, waits, logins), 0, done, origin)
  }

  lemma Begins(text: string)
    ensures var steps := [Start([], {})] + [Append(0, text)];
            && Run(Zero(), steps)
            && After(Zero(), steps) == OnlyLog(text, None, 0, Track(None, 0), {}, [], {}, {}, None)
  {
    var w0 := Zero();
    var w1 := OnlyLog("", None, 0, Track(None, 0), {}, [], {}, {}, None);
    var w2 := OnlyLog(text, None, 0, Track(None, 0), {}, [], {}, {}, None);
    assert Run(w0, []) && After(w0, []) == w0;
    assert Can(w0, Start([], {})) && Proviso(w0, Start([], {})) && Do(w0, Start([], {})) == w1;
    assert Can(w1, Append(0, text)) && Proviso(w1, Append(0, text)) && Do(w1, Append(0, text)) == w2 by {
      assert "" + text == text;
    }
    assert [] + [Start([], {})] == [Start([], {})];
    hide *;
    To(w0, [], w0, Start([], {}), w1);
    To(w0, [Start([], {})], w1, Append(0, text), w2);
  }

  // ---- what is to be read

  // Two short lines and a long one between them: enough for a fingerprint.
  function Log0(): string {
    "a\n" + seq(511, i => 'x') + "\n" + "b\n"
  }

  lemma Log0Is()
    ensures |Log0()| == 516
    ensures LineEnd(Log0(), 0) == Some(2) && LineEnd(Log0(), 2) == Some(514) && LineEnd(Log0(), 514) == Some(516)
  {
    var t := Log0();
    assert t[0] == 'a' && t[1] == '\n' && t[513] == '\n' && t[514] == 'b' && t[515] == '\n';
    assert forall k | 2 <= k < 513 :: t[k] == 'x';
    LineEndUnique(t, 0, 2);
    LineEndUnique(t, 2, 514);
    LineEndUnique(t, 514, 516);
  }

  // ---- a hold that is lost

  const REFUSAL := Wait(false, Mark(Place(None, 2), 0), Mark(Place(None, 2), 0), None)
  const A := Line(0, 0, 2)
  const X := Line(0, 2, 514)
  const B := Line(0, 514, 516)

  lemma LostReads(w2: World, w3: World, w4: World, w5: World)
    requires w2 == OnlyLog(Log0(), None, 0, Track(None, 0), {}, [], {}, {}, None)
    requires w3 == OnlyLog(Log0(), None, 2, Track(None, 0), {A}, [], {}, {}, None)
    requires w4 == OnlyLog(Log0(), None, 514, Track(None, 0), {A, X}, [REFUSAL], {}, {}, None)
    requires w5 == OnlyLog(Log0(), None, 514, Track(None, 0), {}, [REFUSAL], {}, {A, X}, None)
    ensures Can(w2, Read(Nothing)) && Proviso(w2, Read(Nothing)) && Do(w2, Read(Nothing)) == w3
    ensures Can(w3, Read(AwaitsRow)) && Proviso(w3, Read(AwaitsRow)) && Do(w3, Read(AwaitsRow)) == w4
    ensures Can(w4, Flush([REFUSAL])) && Proviso(w4, Flush([REFUSAL])) && Do(w4, Flush([REFUSAL])) == w5
  {
    Log0Is();
    hide Log0, LineEnd;
    assert {} + {A} == {A} && {A} + {X} == {A, X} && {} + {A, X} == {A, X};
    assert [] + [REFUSAL] == [REFUSAL];
  }

  lemma LostSaves(w5: World, w6: World, w7: World)
    requires w5 == OnlyLog(Log0(), None, 514, Track(None, 0), {}, [REFUSAL], {}, {A, X}, None)
    requires w6 == OnlyLog(Log0(), Some(Saved(Some(0), 2)), 514, Track(Some(0), 2), {}, [REFUSAL], {}, {A, X},
               Some(Spot(0, 2)))
    requires w7 == OnlyLog(Log0(), Some(Saved(Some(0), 514)), 514, Track(Some(0), 514), {}, [REFUSAL], {}, {A, X},
               Some(Spot(0, 2)))
    ensures Can(w5, Record(true)) && Proviso(w5, Record(true)) && Do(w5, Record(true)) == w6
    ensures Can(w6, Record(true)) && Proviso(w6, Record(true)) && Do(w6, Record(true)) == w7
  {
    Log0Is();
    assert REFUSAL in [REFUSAL];
    HeldIs([REFUSAL], None);
    HeldIs([REFUSAL], Some(0));
    hide Log0, LineEnd, Held;
  }

  function LostWorld(): World {
    OnlyLog(Log0(), Some(Saved(Some(0), 514)), 514, Track(Some(0), 514), {}, [REFUSAL], {}, {A, X}, Some(Spot(0, 2)))
  }

  function ReadSteps(): seq<Step> {
    [Start([], {})] + [Append(0, Log0())] + [Read(Nothing)] + [Read(AwaitsRow)] + [Flush([REFUSAL])]
  }

  function LostSteps(): seq<Step> {
    ReadSteps() + [Record(true)] + [Record(true)]
  }

  lemma LongLineRead()
    ensures Run(Zero(), ReadSteps())
    ensures After(Zero(), ReadSteps()) == OnlyLog(Log0(), None, 514, Track(None, 0), {}, [REFUSAL], {}, {A, X}, None)
  {
    var w2 := OnlyLog(Log0(), None, 0, Track(None, 0), {}, [], {}, {}, None);
    var w3 := OnlyLog(Log0(), None, 2, Track(None, 0), {A}, [], {}, {}, None);
    var w4 := OnlyLog(Log0(), None, 514, Track(None, 0), {A, X}, [REFUSAL], {}, {}, None);
    var w5 := OnlyLog(Log0(), None, 514, Track(None, 0), {}, [REFUSAL], {}, {A, X}, None);
    Begins(Log0());
    LostReads(w2, w3, w4, w5);
    var s2 := [Start([], {})] + [Append(0, Log0())];
    assert ReadSteps() == s2 + [Read(Nothing)] + [Read(AwaitsRow)] + [Flush([REFUSAL])];
    hide *;
    To(Zero(), s2, w2, Read(Nothing), w3);
    To(Zero(), s2 + [Read(Nothing)], w3, Read(AwaitsRow), w4);
    To(Zero(), s2 + [Read(Nothing)] + [Read(AwaitsRow)], w4, Flush([REFUSAL]), w5);
  }

  // A refusal read before the file had its fingerprint: the save that fills the fingerprint in is held by it, the
  // next is not, and a crash then reads on past it.
  lemma HoldLostWithTheFingerprint()
    ensures Fresh(Zero()) && Run(Zero(), LostSteps()) && After(Zero(), LostSteps()) == LostWorld()
    ensures SavedHere(LostWorld()) && REFUSAL in LostWorld().tail.waits && REFUSAL.line.file == LostWorld().tail.cur
    ensures LostWorld().stored.value.offset > REFUSAL.line.start.at
  {
    var w5 := OnlyLog(Log0(), None, 514, Track(None, 0), {}, [REFUSAL], {}, {A, X}, None);
    var w6 := OnlyLog(Log0(), Some(Saved(Some(0), 2)), 514, Track(Some(0), 2), {}, [REFUSAL], {}, {A, X},
                      Some(Spot(0, 2)));
    LongLineRead();
    LostSaves(w5, w6, LostWorld());
    assert REFUSAL in LostWorld().tail.waits && SavedHere(LostWorld()) && Fresh(Zero());
    assert LostWorld().stored.value.offset == 514 && LostWorld().tail.cur == 0;
    assert LostSteps() == ReadSteps() + [Record(true)] + [Record(true)];
    hide *;
    To(Zero(), ReadSteps(), w5, Record(true), w6);
    To(Zero(), ReadSteps() + [Record(true)], w6, Record(true), LostWorld());
  }

  // ---- a recovery behind the place saved

  const LOGIN := Mark(Place(Some(0), 2), 0)
  const RECOVERY := Wait(true, LOGIN, Mark(Place(Some(0), 514), 0), Some(Saved(Some(0), 514)))

  function LoginSteps(): seq<Step> {
    [Start([], {})] + [Append(0, Log0())] + [Read(Nothing)] + [Flush([])] + [Record(true)]
    + [Read(NamesLogin)] + [Flush([])] + [Record(true)]
  }

  function RecoverySteps(): seq<Step> {
    LoginSteps() + [Read(AwaitsPanel(LOGIN))]
  }

  function AtLogin(at: nat, saved: nat, logins: set<Mark>, unflushed: set<Line>, waits: seq<Wait>, done: set<Line>)
    : World
  {
    OnlyLog(Log0(), Some(Saved(Some(0), saved)), at, Track(Some(0), saved), unflushed, waits, logins, done,
        Some(Spot(0, 2)))
  }

  lemma FirstReads(w2: World, w3: World, w4: World, w5: World)
    requires w2 == OnlyLog(Log0(), None, 0, Track(None, 0), {}, [], {}, {}, None)
    requires w3 == OnlyLog(Log0(), None, 2, Track(None, 0), {A}, [], {}, {}, None)
    requires w4 == OnlyLog(Log0(), None, 2, Track(None, 0), {}, [], {}, {A}, None)
    requires w5 == AtLogin(2, 2, {}, {}, [], {A})
    ensures Can(w2, Read(Nothing)) && Proviso(w2, Read(Nothing)) && Do(w2, Read(Nothing)) == w3
    ensures Can(w3, Flush([])) && Proviso(w3, Flush([])) && Do(w3, Flush([])) == w4
    ensures Can(w4, Record(true)) && Proviso(w4, Record(true)) && Do(w4, Record(true)) == w5
  {
    Log0Is();
    hide Log0, LineEnd;
    assert {} + {A} == {A};
  }

  lemma LoginReads(w5: World, w6: World, w7: World, w8: World)
    requires w5 == AtLogin(2, 2, {}, {}, [], {A}) && w6 == AtLogin(514, 2, {LOGIN}, {X}, [], {A})
    requires w7 == AtLogin(514, 2, {LOGIN}, {}, [], {A, X}) && w8 == AtLogin(514, 514, {LOGIN}, {}, [], {A, X})
    ensures Can(w5, Read(NamesLogin)) && Proviso(w5, Read(NamesLogin)) && Do(w5, Read(NamesLogin)) == w6
    ensures Can(w6, Flush([])) && Proviso(w6, Flush([])) && Do(w6, Flush([])) == w7
    ensures Can(w7, Record(true)) && Proviso(w7, Record(true)) && Do(w7, Record(true)) == w8
  {
    Log0Is();
    hide Log0, LineEnd;
    assert {} + {X} == {X} && {} + {LOGIN} == {LOGIN} && {A} + {X} == {A, X};
  }

  // With the line of the refusal read, and after the next save.
  function PastTheLogin(): World {
    AtLogin(516, 514, {LOGIN}, {B}, [RECOVERY], {A, X})
  }

  function HeldAtTheLogin(): World {
    AtLogin(516, 2, {LOGIN}, {}, [RECOVERY], {A, X, B})
  }

  lemma RecoveryReads(w8: World)
    requires w8 == AtLogin(514, 514, {LOGIN}, {}, [], {A, X})
    ensures var step := Read(AwaitsPanel(LOGIN)); Can(w8, step) && Proviso(w8, step) && Do(w8, step) == PastTheLogin()
  {
    Log0Is();
    hide Log0, LineEnd;
    assert {} + {B} == {B} && [] + [RECOVERY] == [RECOVERY];
  }

  lemma RecoverySaves(w10: World)
    requires w10 == AtLogin(516, 514, {LOGIN}, {}, [RECOVERY], {A, X, B})
    ensures var step := Flush([RECOVERY]);
            Can(PastTheLogin(), step) && Proviso(PastTheLogin(), step) && Do(PastTheLogin(), step) == w10
    ensures Can(w10, Record(true)) && Proviso(w10, Record(true)) && Do(w10, Record(true)) == HeldAtTheLogin()
  {
    assert RECOVERY in [RECOVERY];
    HeldIs([RECOVERY], Some(0));
    hide Log0, LineEnd, Held;
    assert {A, X} + {B} == {A, X, B};
  }

  lemma LoginSaved()
    ensures Run(Zero(), LoginSteps()) && After(Zero(), LoginSteps()) == AtLogin(514, 514, {LOGIN}, {}, [], {A, X})
  {
    var w2 := OnlyLog(Log0(), None, 0, Track(None, 0), {}, [], {}, {}, None);
    var w3 := OnlyLog(Log0(), None, 2, Track(None, 0), {A}, [], {}, {}, None);
    var w4 := OnlyLog(Log0(), None, 2, Track(None, 0), {}, [], {}, {A}, None);
    var w5, w6 := AtLogin(2, 2, {}, {}, [], {A}), AtLogin(514, 2, {LOGIN}, {X}, [], {A});
    var w7, w8 := AtLogin(514, 2, {LOGIN}, {}, [], {A, X}), AtLogin(514, 514, {LOGIN}, {}, [], {A, X});
    Begins(Log0());
    FirstReads(w2, w3, w4, w5);
    LoginReads(w5, w6, w7, w8);
    var s2 := [Start([], {})] + [Append(0, Log0())];
    var s5 := s2 + [Read(Nothing)] + [Flush([])] + [Record(true)];
    assert LoginSteps() == s5 + [Read(NamesLogin)] + [Flush([])] + [Record(true)];
    hide *;
    To(Zero(), s2, w2, Read(Nothing), w3);
    To(Zero(), s2 + [Read(Nothing)], w3, Flush([]), w4);
    To(Zero(), s2 + [Read(Nothing)] + [Flush([])], w4, Record(true), w5);
    To(Zero(), s5, w5, Read(NamesLogin), w6);
    To(Zero(), s5 + [Read(NamesLogin)], w6, Flush([]), w7);
    To(Zero(), s5 + [Read(NamesLogin)] + [Flush([])], w7, Record(true), w8);
  }

  // The recovery of a message's refusal waits at its login's line, which lies before a place saved already; from
  // the next save on the place is held there.
  lemma RecoveryHeldFromTheNextSave()
    ensures Fresh(Zero()) && Run(Zero(), RecoverySteps()) && After(Zero(), RecoverySteps()) == PastTheLogin()
    ensures SavedHere(PastTheLogin()) && RECOVERY in PastTheLogin().tail.waits
    ensures PastTheLogin().stored.value.offset > RECOVERY.mark.start.at
    ensures var steps := RecoverySteps() + [Flush([RECOVERY])] + [Record(true)];
            Run(Zero(), steps) && After(Zero(), steps) == HeldAtTheLogin()
    ensures RECOVERY in HeldAtTheLogin().tail.waits
    ensures HeldAtTheLogin().stored == Some(Saved(Some(0), RECOVERY.mark.start.at))
  {
    var w8, w10 := AtLogin(514, 514, {LOGIN}, {}, [], {A, X}), AtLogin(516, 514, {LOGIN}, {}, [RECOVERY], {A, X, B});
    LoginSaved();
    RecoveryReads(w8);
    RecoverySaves(w10);
    assert SavedHere(PastTheLogin()) && RECOVERY in PastTheLogin().tail.waits && Fresh(Zero());
    assert PastTheLogin().stored.value.offset == 514;
    assert RECOVERY in HeldAtTheLogin().tail.waits && HeldAtTheLogin().stored == Some(Saved(Some(0), 2));
    var s8 := LoginSteps();
    assert RecoverySteps() == s8 + [Read(AwaitsPanel(LOGIN))];
    hide *;
    To(Zero(), s8, w8, Read(AwaitsPanel(LOGIN)), PastTheLogin());
    To(Zero(), RecoverySteps(), PastTheLogin(), Flush([RECOVERY]), w10);
    To(Zero(), RecoverySteps() + [Flush([RECOVERY])], w10, Record(true), HeldAtTheLogin());
  }

  // ---- a place of another file

  // A refusal that waits in a file rotated away before it had a fingerprint.
  function OfShort(): seq<Wait> {
    [Wait(false, Mark(Place(None, 2), 0), Mark(Place(None, 2), 0), None)]
  }

  function Misled(files: seq<string>, stored: Option<Saved>, cur: nat, at: nat, saved: int, adopted: bool,
                  rotated: Option<Old>, unflushed: set<Line>, waits: seq<Wait>, savedFile: nat, done: set<Line>,
                  origin: Option<Spot>): World
  {
    World(files, stored, Up(cur, at, Track(None, saved), adopted, rotated, unflushed, waits, {}), savedFile,
        done, origin)
  }

  function WaitingSteps(): seq<Step> {
    [Start([], {})] + [Append(0, "a\nb\n")] + [Read(Nothing)] + [Read(AwaitsRow)] + [Flush(OfShort())]
  }

  function Waiting(): World {
    Misled(["a\nb\n"], None, 0, 4, 0, true, None, {}, OfShort(), 0, {Line(0, 0, 2), Line(0, 2, 4)}, None)
  }

  lemma RefusalWaits()
    ensures Run(Zero(), WaitingSteps()) && After(Zero(), WaitingSteps()) == Waiting()
  {
    var text := "a\nb\n";
    var w2 := OnlyLog(text, None, 0, Track(None, 0), {}, [], {}, {}, None);
    var w3 := OnlyLog(text, None, 2, Track(None, 0), {Line(0, 0, 2)}, [], {}, {}, None);
    var w4 := OnlyLog(text, None, 4, Track(None, 0), {Line(0, 0, 2), Line(0, 2, 4)}, OfShort(), {}, {}, None);
    Begins(text);
    TwoReads(w2, w3, w4);
    var s2 := [Start([], {})] + [Append(0, text)];
    assert WaitingSteps() == s2 + [Read(Nothing)] + [Read(AwaitsRow)] + [Flush(OfShort())];
    hide *;
    To(Zero(), s2, w2, Read(Nothing), w3);
    To(Zero(), s2 + [Read(Nothing)], w3, Read(AwaitsRow), w4);
    To(Zero(), s2 + [Read(Nothing)] + [Read(AwaitsRow)], w4, Flush(OfShort()), Waiting());
  }

  lemma TwoReads(w2: World, w3: World, w4: World)
    requires w2 == OnlyLog("a\nb\n", None, 0, Track(None, 0), {}, [], {}, {}, None)
    requires w3 == OnlyLog("a\nb\n", None, 2, Track(None, 0), {Line(0, 0, 2)}, [], {}, {}, None)
    requires w4 == OnlyLog("a\nb\n", None, 4, Track(None, 0), {Line(0, 0, 2), Line(0, 2, 4)}, OfShort(), {}, {}, None)
    ensures Can(w2, Read(Nothing)) && Proviso(w2, Read(Nothing)) && Do(w2, Read(Nothing)) == w3
    ensures Can(w3, Read(AwaitsRow)) && Proviso(w3, Read(AwaitsRow)) && Do(w3, Read(AwaitsRow)) == w4
    ensures Can(w4, Flush(OfShort())) && Proviso(w4, Flush(OfShort())) && Do(w4, Flush(OfShort())) == Waiting()
  {
    LineEndUnique("a\nb\n", 0, 2);
    LineEndUnique("a\nb\n", 2, 4);
    hide LineEnd;
    assert {} + {Line(0, 0, 2)} == {Line(0, 0, 2)};
    assert {Line(0, 0, 2)} + {Line(0, 2, 4)} == {Line(0, 0, 2), Line(0, 2, 4)};
    assert {} + {Line(0, 0, 2), Line(0, 2, 4)} == {Line(0, 0, 2), Line(0, 2, 4)};
    assert [] + OfShort() == OfShort();
  }

  function Moved(): World {
    Misled(["a\nb\n", "cc\n"], Some(Saved(None, 0)), 1, 0, 0, true, Some(Old(0, 4, None)), {}, OfShort(), 1,
        Waiting().done, Some(Spot(1, 0)))
  }

  function MovedSteps(): seq<Step> {
    WaitingSteps() + [Rotate] + [Switch] + [Adopt] + [Append(1, "cc\n")]
  }

  function MisledSteps(): seq<Step> {
    MovedSteps() + [Read(Nothing)] + [Flush(OfShort())] + [Record(true)]
  }

  lemma Rotated(w5: World, w6: World, w7: World, w8: World)
    requires w5 == Waiting() && w6 == w5.(files := ["a\nb\n", ""])
    requires w7 == w6.(tail := w6.tail.(cur := 1, at := 0, adopted := false, rotated := Some(Old(0, 4, None))))
    requires w8 == Moved().(files := w6.files)
    ensures Can(w5, Rotate) && Proviso(w5, Rotate) && Do(w5, Rotate) == w6
    ensures Can(w6, Switch) && Proviso(w6, Switch) && Do(w6, Switch) == w7
    ensures Can(w7, Adopt) && Proviso(w7, Adopt) && Do(w7, Adopt) == w8
  {
    hide Held;
  }

  lemma MovesOn()
    ensures Run(Zero(), MovedSteps()) && After(Zero(), MovedSteps()) == Moved()
  {
    RefusalWaits();
    var w5 := Waiting();
    var w6 := w5.(files := ["a\nb\n", ""]);
    var w7 := w6.(tail := w6.tail.(cur := 1, at := 0, adopted := false, rotated := Some(Old(0, 4, None))));
    var w8 := Moved().(files := w6.files);
    Rotated(w5, w6, w7, w8);
    assert Can(w8, Append(1, "cc\n")) && Proviso(w8, Append(1, "cc\n")) && Moved() == Do(w8, Append(1, "cc\n")) by {
      assert "" + "cc\n" == "cc\n";
    }
    var steps := WaitingSteps();
    assert MovedSteps() == steps + [Rotate] + [Switch] + [Adopt] + [Append(1, "cc\n")];
    hide *;
    To(Zero(), steps, w5, Rotate, w6);
    To(Zero(), steps + [Rotate], w6, Switch, w7);
    To(Zero(), steps + [Rotate] + [Switch], w7, Adopt, w8);
    To(Zero(), steps + [Rotate] + [Switch] + [Adopt], w8, Append(1, "cc\n"), Moved());
  }

  lemma ReadsOn(w9: World, w10: World, w11: World)
    requires w9 == Moved()
    requires w10 == w9.(tail := w9.tail.(at := 3, unflushed := {Line(1, 0, 3)}))
    requires w11 == w9.(tail := w9.tail.(at := 3), done := w9.done + {Line(1, 0, 3)})
    ensures Can(w9, Read(Nothing)) && Proviso(w9, Read(Nothing)) && Do(w9, Read(Nothing)) == w10
    ensures Can(w10, Flush(OfShort())) && Proviso(w10, Flush(OfShort())) && Do(w10, Flush(OfShort())) == w11
  {
    LineEndUnique("cc\n", 0, 3);
    assert {} + {Line(1, 0, 3)} == {Line(1, 0, 3)};
  }

  lemma HeldElsewhere(w11: World)
    requires w11 == Moved().(tail := Moved().tail.(at := 3), done := Moved().done + {Line(1, 0, 3)})
    ensures Can(w11, Record(true)) && Proviso(w11, Record(true))
    ensures Do(w11, Record(true)).stored == Some(Saved(None, 2)) && Do(w11, Record(true)).savedFile == 1
    ensures Do(w11, Record(true)).files == ["a\nb\n", "cc\n"]
  {
    HeldIs(OfShort(), None);
    assert Wait(false, Mark(Place(None, 2), 0), Mark(Place(None, 2), 0), None) in OfShort();
    hide Held;
  }

  // Places taken before a file had a fingerprint are not told from those of the next such file: the place saved
  // in it can then be one of the file before, in the middle of a line.
  lemma ShortPlacesMislead()
    ensures Fresh(Zero()) && Run(Zero(), MisledSteps())
    ensures var w := After(Zero(), MisledSteps());
            w.stored == Some(Saved(None, 2)) && w.savedFile == 1 && w.files == ["a\nb\n", "cc\n"]
    ensures !Boundary("cc\n", 2)
    ensures OfShort()[0] in Moved().tail.waits && !OnlyOwnWaits(Moved())
  {
    MovesOn();
    var w9 := Moved();
    var w10 := w9.(tail := w9.tail.(at := 3, unflushed := {Line(1, 0, 3)}));
    var w11 := w9.(tail := w9.tail.(at := 3), done := w9.done + {Line(1, 0, 3)});
    ReadsOn(w9, w10, w11);
    HeldElsewhere(w11);
    var steps := MovedSteps();
    assert MisledSteps() == steps + [Read(Nothing)] + [Flush(OfShort())] + [Record(true)];
    assert !Boundary("cc\n", 2) && Fresh(Zero());
    assert OfShort()[0] in Moved().tail.waits && !OnlyOwnWaits(Moved());
    hide *;
    To(Zero(), steps, w9, Read(Nothing), w10);
    To(Zero(), steps + [Read(Nothing)], w10, Flush(OfShort()), w11);
    To(Zero(), steps + [Read(Nothing)] + [Flush(OfShort())], w11, Record(true), Do(w11, Record(true)));
  }
}
