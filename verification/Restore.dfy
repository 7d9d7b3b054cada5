/** Restores over every run of unpackings, starts and crashes: what the guard lets the panel open. */
module Restore {
  import opened Wrappers
  import opened Strings
  import opened RestoreGuard

  // An archive: its manifest, the other files of the data directory, and the record of them all, unpacked last.
  datatype Archive = Archive(version: string, made: string, files: seq<Sum>)

  function ManifestOf(a: Archive): Body {
    ManifestDoc(FORMAT_FULL, a.version, a.made)
  }

  function RecordOf(a: Archive): seq<Sum> {
    [Sum(PREFIX + MANIFEST, ManifestOf(a))] + a.files
  }

  function Entries(a: Archive): seq<Sum> {
    RecordOf(a) + [Sum(PREFIX + CONTENTS, RecordDoc(RecordOf(a)))]
  }

  predicate ValidArchive(a: Archive) {
    forall i | 0 <= i < |a.files| :: PREFIX <= a.files[i].name && a.files[i].name[|PREFIX|..] !in MARKERS
  }

  // Where a start is: stopped, past the guard with the database open, part of the way through taking the markers
  // away, or done.
  datatype Phase = Down | Resyncing | ManifestGone | CheckedGone | Running

  // latest and passed are the history: the archive unpacked last, and whether a start since has found every file
  // of it as recorded.
  datatype World = World(files: Files, phase: Phase, latest: Option<Archive>, passed: bool)

  datatype Step =
    | Unpack(a: Archive, entries: nat, torn: Option<string>)  // stopped after so many entries, or within the next one
    | Start(version: string)
    | Resync(name: string, to: Option<Entry>)                 // a file that is no marker changes, at any time
    | TakeAway                                                // the next marker
    | Crash

  function Written(files: Files, entries: seq<Sum>): Files
    requires forall i | 0 <= i < |entries| :: PREFIX <= entries[i].name
    decreases |entries|
  {
    if entries == [] then files else
      var last := entries[|entries| - 1];
      Written(files, entries[..|entries| - 1])[last.name[|PREFIX|..] := Regular(last.body)]
  }

  predicate Can(w: World, step: Step) {
    match step
    case Unpack(a, entries, torn) =>
      w.phase.Down? && ValidArchive(a) && entries <= |Entries(a)| && (torn.Some? ==> entries < |Entries(a)|)
    case Start(_) => w.phase.Down?
    case Resync(name, _) => name !in MARKERS
    case TakeAway => w.phase in {Resyncing, ManifestGone, CheckedGone}
    case Crash => true
  }

  // The archive's manifest is not one that a record left in the directory holds.
  predicate Fresh(files: Files, a: Archive) {
    forall name | name in {CONTENTS, CHECKED} && RecordAt(files, name).Some? ::
      Sum(PREFIX + MANIFEST, ManifestOf(a)) !in RecordAt(files, name).value
  }

  predicate FreshStep(w: World, step: Step) {
    step.Unpack? ==> Fresh(w.files, step.a)
  }

  function Unpacked(files: Files, a: Archive, entries: nat, torn: Option<string>): Files
    requires ValidArchive(a) && entries <= |Entries(a)| && (torn.Some? ==> entries < |Entries(a)|)
  {
    var whole := Written(files, Entries(a)[..entries]);
    if torn.None? then whole else whole[Entries(a)[entries].name[|PREFIX|..] := Regular(Bytes(torn.value))]
  }

  function Do(w: World, step: Step): World
    requires Can(w, step)
  {
    match step
    case Unpack(a, entries, torn) =>
      if entries == 0 && torn.None? then w
      else World(Unpacked(w.files, a, entries, torn), Down, Some(a), false)
    case Start(version) =>
      var outcome := Guard(w.files, version);
      if outcome.Refused? then w
      else if outcome.Ordinary? then w.(phase := Running)
      else World(ContentsMarked(w.files), Resyncing, w.latest,
                 w.passed || (w.latest.Some? && NoSideFiles(w.files)
                     && Verified(w.files, RecordOf(w.latest.value), "")))
    case Resync(name, to) => w.(files := if to.Some? then w.files[name := to.value] else w.files - {name})
    case TakeAway =>
      if w.phase.Resyncing? then w.(files := w.files - {MANIFEST}, phase := ManifestGone)
      else if w.phase.ManifestGone? then w.(files := w.files - {CHECKED}, phase := CheckedGone)
      else w.(files := w.files - {CONTENTS}, phase := Running)
    case Crash => w.(phase := Down)
  }

  // ---- what an unpacking leaves

  lemma {:induction false} WrittenElsewhere(files: Files, entries: seq<Sum>, name: string)
    requires forall i | 0 <= i < |entries| :: PREFIX <= entries[i].name && entries[i].name[|PREFIX|..] != name
    ensures (name in Written(files, entries) <==> name in files)
    ensures name in files ==> Written(files, entries)[name] == files[name]
    decreases |entries|
  {
    if entries != [] {
      WrittenElsewhere(files, entries[..|entries| - 1], name);
    }
  }

  lemma {:induction false} WrittenFirst(files: Files, first: Sum, entries: seq<Sum>)
    requires PREFIX <= first.name && forall i | 0 <= i < |entries| :: PREFIX <= entries[i].name
    requires forall i | 0 <= i < |entries| :: entries[i].name[|PREFIX|..] != first.name[|PREFIX|..]
    ensures var name := first.name[|PREFIX|..];
            name in Written(files, [first] + entries) && Written(files, [first] + entries)[name] == Regular(first.body)
    decreases |entries|
  {
    if entries == [] {
      assert [first] + entries == [first];
    } else {
      assert ([first] + entries)[..|entries|] == [first] + entries[..|entries| - 1];
      WrittenFirst(files, first, entries[..|entries| - 1]);
    }
  }

  lemma NameOf(name: string)
    ensures (PREFIX + name)[|PREFIX|..] == name
  {
  }

  function EntryName(a: Archive, i: nat): string
    requires ValidArchive(a) && i < |Entries(a)|
  {
    Entries(a)[i].name[|PREFIX|..]
  }

  lemma EntryNames(a: Archive)
    requires ValidArchive(a)
    ensures EntryName(a, 0) == MANIFEST && EntryName(a, |Entries(a)| - 1) == CONTENTS
    ensures forall i | 0 < i < |Entries(a)| - 1 :: EntryName(a, i) !in MARKERS
  {
    NameOf(MANIFEST);
    NameOf(CONTENTS);
    forall i | 0 < i < |Entries(a)| - 1 ensures EntryName(a, i) !in MARKERS {
      assert Entries(a)[i] == a.files[i - 1];
    }
  }

  // What stands under a marker's name after the entries up to one, the record not among them.
  lemma WrittenMarkers(files: Files, a: Archive, entries: nat)
    requires ValidArchive(a) && entries < |Entries(a)|
    ensures var after := Written(files, Entries(a)[..entries]);
            && (entries > 0 ==> MANIFEST in after && after[MANIFEST] == Regular(ManifestOf(a)))
            && (CHECKED in after <==> CHECKED in files) && (CONTENTS in after <==> CONTENTS in files)
            && RecordAt(after, CHECKED) == RecordAt(files, CHECKED)
                 && RecordAt(after, CONTENTS) == RecordAt(files, CONTENTS)
  {
    EntryNames(a);
    var all := Entries(a);
    var upTo := all[..entries];
    forall i | 0 <= i < entries ensures upTo[i].name[|PREFIX|..] !in {CHECKED, CONTENTS} {
      assert upTo[i].name[|PREFIX|..] == EntryName(a, i);
    }
    WrittenElsewhere(files, upTo, CHECKED);
    WrittenElsewhere(files, upTo, CONTENTS);
    if entries > 0 {
      var rest := upTo[1..];
      forall i | 0 <= i < |rest| ensures rest[i].name[|PREFIX|..] != MANIFEST {
        assert rest[i].name[|PREFIX|..] == EntryName(a, i + 1);
      }
      assert upTo == [all[0]] + rest;
      hide Written, ValidArchive;
      WrittenFirst(files, all[0], rest);
    }
  }

  // The markers after an unpacking: the archive's manifest, its record only if it was unpacked to its end, and
  // what was left of earlier ones.
  lemma UnpackedMarkers(files: Files, a: Archive, entries: nat, torn: Option<string>)
    requires ValidArchive(a) && entries <= |Entries(a)| && (torn.Some? ==> entries < |Entries(a)|)
    requires entries > 0 || torn.Some?
    ensures var after := Unpacked(files, a, entries, torn);
            && MANIFEST in after
            && after[MANIFEST] == (if entries > 0 then Regular(ManifestOf(a)) else Regular(Bytes(torn.value)))
            && RecordAt(after, CHECKED) == RecordAt(files, CHECKED)
            && RecordAt(after, CONTENTS) == (if entries == |Entries(a)| then Some(RecordOf(a))
                                             else if entries == |Entries(a)| - 1 && torn.Some? then None
                                             else RecordAt(files, CONTENTS))
            && (CONTENTS in after <==>
                  CONTENTS in files || entries == |Entries(a)| || (entries == |Entries(a)| - 1 && torn.Some?))
  {
    EntryNames(a);
    var all, n := Entries(a), |Entries(a)|;
    WrittenMarkers(files, a, if entries == n then n - 1 else entries);
    if entries == n {
      assert all[..n][..n - 1] == all[..n - 1] && all[..n][n - 1] == all[n - 1];
      assert all[n - 1].name[|PREFIX|..] == EntryName(a, n - 1) == CONTENTS;
      assert Unpacked(files, a, entries, torn) ==
               Written(files, all[..n - 1])[CONTENTS := Regular(RecordDoc(RecordOf(a)))];
    } else if torn.Some? {
      assert all[entries].name[|PREFIX|..] == EntryName(a, entries);
      assert EntryName(a, entries) in MARKERS ==> entries in {0, n - 1};
    }
    hide Written, Entries, ValidArchive, EntryName;
  }

  // ---- every run

  function ManifestSum(m: Body): Sum {
    Sum(PREFIX + MANIFEST, m)
  }

  // A record left in the directory is an archive's: it holds one manifest.
  predicate ArchiveRecord(r: seq<Sum>) {
    Names(r, PREFIX + MANIFEST) && forall i | 0 <= i < |r| && r[i].name == PREFIX + MANIFEST :: r[i].body.ManifestDoc?
  }

  ghost predicate Records(w: World) {
    forall name | name in {CONTENTS, CHECKED} && RecordAt(w.files, name).Some? ::
        ArchiveRecord(RecordAt(w.files, name).value)
  }

  // A mark that holds the manifest in the directory is of a check made since the last unpacking; a record that
  // does is the last archive's.
  predicate Vouches(w: World) {
    MANIFEST in w.files && w.files[MANIFEST].Regular? ==>
      var m := ManifestSum(w.files[MANIFEST].body);
      && (RecordAt(w.files, CHECKED).Some? && m in RecordAt(w.files, CHECKED).value ==> w.passed)
      && (RecordAt(w.files, CONTENTS).Some? && m in RecordAt(w.files, CONTENTS).value ==>
            w.latest.Some? && RecordAt(w.files, CONTENTS).value == RecordOf(w.latest.value))
  }

  // Once the check has passed, the mark stands for it as long as the manifest is there.
  predicate Settled(w: World) {
    w.passed && MANIFEST in w.files ==>
      && CONTENTS !in w.files
      && RecordAt(w.files, CHECKED).Some? && Verified(w.files, RecordAt(w.files, CHECKED).value, PREFIX + MANIFEST)
      && w.files[MANIFEST].Regular? && w.files[MANIFEST].body.ManifestDoc?
           && w.files[MANIFEST].body.format == FORMAT_FULL
  }

  predicate Taken(w: World) {
    w.phase in {ManifestGone, CheckedGone} ==> MANIFEST !in w.files
  }

  ghost predicate Inv(w: World) {
    Taken(w) && Records(w) && Vouches(w) && Settled(w)
  }

  lemma RecordIsArchive(a: Archive)
    requires ValidArchive(a)
    ensures ArchiveRecord(RecordOf(a))
  {
    NameOf(MANIFEST);
    assert RecordOf(a)[0].name == PREFIX + MANIFEST;
    assert forall i | 0 < i < |RecordOf(a)| :: RecordOf(a)[i] == a.files[i - 1];
  }

  // The manifest's own line of a record that is verified, whole or for the manifest alone.
  lemma ManifestVerified(files: Files, r: seq<Sum>, only: string)
    requires Verified(files, r, only) && Names(r, PREFIX + MANIFEST) && only in {"", PREFIX + MANIFEST}
    ensures MANIFEST in files && files[MANIFEST].Regular? && ManifestSum(files[MANIFEST].body) in r
    ensures Verified(files, r, PREFIX + MANIFEST)
  {
    NameOf(MANIFEST);
    var i :| 0 <= i < |r| && r[i].name == PREFIX + MANIFEST;
    assert Holds(files, r[i]);
    assert r[i] == ManifestSum(files[MANIFEST].body);
  }

  lemma ManifestAlone(files: Files, other: Files, r: seq<Sum>)
    requires Verified(files, r, PREFIX + MANIFEST)
    requires MANIFEST in files ==> MANIFEST in other && other[MANIFEST] == files[MANIFEST]
    ensures Verified(other, r, PREFIX + MANIFEST)
  {
    NameOf(MANIFEST);
  }

  lemma UnpackKeeps(w: World, step: Step)
    requires Inv(w) && step.Unpack? && Can(w, step) && FreshStep(w, step)
    ensures Inv(Do(w, step))
  {
    if step.entries > 0 || step.torn.Some? {
      UnpackedMarkers(w.files, step.a, step.entries, step.torn);
      RecordIsArchive(step.a);
      hide Unpacked, Entries, RecordOf, ValidArchive, ArchiveRecord, Verified;
    }
  }

  // What is opened under a manifest has been found as its archive holds it since that was unpacked.
  lemma StartPasses(w: World, version: string)
    requires Inv(w) && Can(w, Start(version)) && Guard(w.files, version).Restored?
    ensures Do(w, Start(version)).passed
  {
    if CONTENTS in w.files {
      ManifestVerified(w.files, RecordAt(w.files, CONTENTS).value, "");
    } else {
      ManifestVerified(w.files, RecordAt(w.files, CHECKED).value, PREFIX + MANIFEST);
    }
    hide Verified, Names, RecordOf;
  }

  lemma StartKeeps(w: World, version: string)
    requires Inv(w) && Can(w, Start(version))
    ensures Inv(Do(w, Start(version)))
  {
    if Guard(w.files, version).Restored? {
      StartPasses(w, version);
      var w' := Do(w, Start(version));
      if CONTENTS in w.files {
        var r := RecordAt(w.files, CONTENTS).value;
        assert ArchiveRecord(r);
        ManifestVerified(w.files, r, "");
        ManifestAlone(w.files, w'.files, r);
      }
      hide Verified, Names, RecordOf, NoSideFiles;
    }
  }

  lemma OtherKeeps(w: World, step: Step)
    requires Inv(w) && Can(w, step) && (step.Resync? || step.TakeAway? || step.Crash?)
    ensures Inv(Do(w, step))
  {
    var w' := Do(w, step);
    if w.passed && MANIFEST in w.files && step.Resync? {
      ManifestAlone(w.files, w'.files, RecordAt(w.files, CHECKED).value);
    }
    hide Verified, Names, RecordOf;
    forall name | name in {CONTENTS, CHECKED} && RecordAt(w'.files, name).Some?
        ensures ArchiveRecord(RecordAt(w'.files, name).value) {
      assert RecordAt(w'.files, name) == RecordAt(w.files, name);
    }
  }

  predicate Run(w: World, steps: seq<Step>)
    decreases |steps|
  {
    steps == [] || (Can(w, steps[0]) && FreshStep(w, steps[0]) && Run(Do(w, steps[0]), steps[1..]))
  }

  function After(w: World, steps: seq<Step>): World
    requires Run(w, steps)
    decreases |steps|
  {
    if steps == [] then w else After(Do(w, steps[0]), steps[1..])
  }

  lemma {:induction false} EveryRun(w: World, steps: seq<Step>)
    requires Inv(w) && Run(w, steps)
    ensures Inv(After(w, steps))
    decreases |steps|
  {
    if steps != [] {
      match steps[0] {
        case Unpack(_, _, _) => UnpackKeeps(w, steps[0]);
        case Start(version) => StartKeeps(w, version);
        case _ => OtherKeeps(w, steps[0]);
      }
      EveryRun(Do(w, steps[0]), steps[1..]);
    }
  }

  // A directory with nothing of a restore in it.
  predicate Unmarked(w: World) {
    MANIFEST !in w.files && CONTENTS !in w.files && CHECKED !in w.files
    && w.phase.Down? && w.latest.None? && !w.passed
  }

  // With crashes anywhere, and archives whose manifests are not those left in the directory: the database is
  // opened under a manifest only if every file of the archive unpacked last was found as recorded, by this start
  // or an earlier one since; and once it was, no start of the same version is refused until the next unpacking.
  lemma OpenedOnlyWhole(w: World, steps: seq<Step>, version: string)
    requires Unmarked(w) && Run(w, steps) && Can(After(w, steps), Start(version))
    ensures var w' := After(w, steps);
            && (Guard(w'.files, version).Restored? ==> Do(w', Start(version)).passed)
            && (w'.passed && Guard(w'.files, version).Refused? ==>
                  MANIFEST in w'.files && w'.files[MANIFEST].Regular? && w'.files[MANIFEST].body.ManifestDoc?
                  && w'.files[MANIFEST].body.version != version)
  {
    assert Inv(w);
    EveryRun(w, steps);
    var w' := After(w, steps);
    if Guard(w'.files, version).Restored? {
      StartPasses(w', version);
    }
    hide Verified, Names, RecordOf, Run, After;
  }

  // ---- the condition on manifests

  // After an archive cut short, between two of its files or within one, with no earlier record left but a mark,
  // the panel opens what there is exactly if the mark was made under a manifest of the same content.
  lemma CutShortOpens(files: Files, a: Archive, entries: nat, torn: Option<string>)
    requires ValidArchive(a) && 0 < entries < |Entries(a)| && CONTENTS !in files
    requires torn.Some? ==> entries < |Entries(a)| - 1
    requires forall r | RecordAt(files, CHECKED) == Some(r) :: ArchiveRecord(r)
    ensures Guard(Unpacked(files, a, entries, torn), a.version).Restored? <==>
            RecordAt(files, CHECKED).Some?
            && forall i | 0 <= i < |RecordAt(files, CHECKED).value| ::
                 RecordAt(files, CHECKED).value[i].name == PREFIX + MANIFEST
                 ==> RecordAt(files, CHECKED).value[i].body == ManifestOf(a)
  {
    UnpackedMarkers(files, a, entries, torn);
    InsideManifest();
    NameOf(MANIFEST);
    hide Unpacked, Entries, Inside, ValidArchive;
  }

  lemma NoSeparator(s: string, sep: char)
    requires sep !in s
    ensures Split(s, sep) == [s]
  {
  }

  // Cut within its first file or its last, the manifest or the record, it is never opened, whatever was there.
  lemma TornMarkersNeverOpen(files: Files, a: Archive, entries: nat, torn: string, version: string)
    requires ValidArchive(a) && entries in {0, |Entries(a)| - 1}
    ensures Guard(Unpacked(files, a, entries, Some(torn)), version).Refused?
  {
    UnpackedMarkers(files, a, entries, Some(torn));
    hide Unpacked, ValidArchive;
  }

  lemma InsideIf(rel: string)
    requires |rel| > 2 && '/' !in rel
    ensures Inside(rel)
  {
    NoSeparator(rel, '/');
    assert rel !in {"", ".", ".."};
    hide Split;
  }

  lemma InsideManifest()
    ensures Inside(MANIFEST)
  {
    hide Inside;
    InsideIf(MANIFEST);
  }

  // ---- a whole archive

  // The names of an archive's files: inside the directory, all different, none a journal of the database.
  predicate ProperNames(a: Archive) {
    && (forall i | 0 <= i < |a.files| ::
          PREFIX <= a.files[i].name && Inside(a.files[i].name[|PREFIX|..])
              && a.files[i].name[|PREFIX|..] !in SIDE_FILES)
    && (forall i, j | 0 <= i < j < |a.files| :: a.files[i].name != a.files[j].name)
  }

  lemma {:induction false} WrittenAt(files: Files, entries: seq<Sum>, i: nat)
    requires i < |entries|
    requires forall k | 0 <= k < |entries| :: PREFIX <= entries[k].name
    requires forall k | i < k < |entries| :: entries[k].name[|PREFIX|..] != entries[i].name[|PREFIX|..]
    ensures var name := entries[i].name[|PREFIX|..];
            name in Written(files, entries) && Written(files, entries)[name] == Regular(entries[i].body)
    decreases |entries|
  {
    if i < |entries| - 1 {
      WrittenAt(files, entries[..|entries| - 1], i);
    }
  }

  lemma SameName(x: string, y: string)
    requires PREFIX <= x && PREFIX <= y && x[|PREFIX|..] == y[|PREFIX|..]
    ensures x == y
  {
    assert x == PREFIX + x[|PREFIX|..] && y == PREFIX + y[|PREFIX|..];
  }

  // An archive unpacked whole into a directory without a database's journals is opened.
  lemma WholeArchiveOpens(files: Files, a: Archive)
    requires ValidArchive(a) && ProperNames(a) && NoSideFiles(files)
    ensures Guard(Unpacked(files, a, |Entries(a)|, None), a.version).Restored?
  {
    var all, n := Entries(a), |Entries(a)|;
    var after := Unpacked(files, a, n, None);
    assert all[..n] == all;
    EntryNames(a);
    InsideManifest();
    UnpackedMarkers(files, a, n, None);
    forall i | 0 <= i < |RecordOf(a)| ensures Holds(after, RecordOf(a)[i]) {
      assert RecordOf(a)[i] == all[i];
      forall k | i < k < n ensures all[k].name[|PREFIX|..] != all[i].name[|PREFIX|..] {
        DifferentNames(a, i, k);
      }
      WrittenAt(files, all, i);
      assert i > 0 ==> all[i] == a.files[i - 1];
    }
    assert NoSideFiles(after) by {
      forall k | 0 <= k < |SIDE_FILES| ensures SIDE_FILES[k] !in after {
        forall i | 0 <= i < n ensures all[i].name[|PREFIX|..] != SIDE_FILES[k] {
          assert 0 < i < n - 1 ==> all[i] == a.files[i - 1];
          assert all[i].name[|PREFIX|..] == EntryName(a, i);
        }
        WrittenElsewhere(files, all, SIDE_FILES[k]);
      }
    }
  }

  lemma DifferentNames(a: Archive, i: nat, k: nat)
    requires ValidArchive(a) && ProperNames(a) && i < k < |Entries(a)|
    ensures Entries(a)[k].name[|PREFIX|..] != Entries(a)[i].name[|PREFIX|..]
  {
    EntryNames(a);
    var all := Entries(a);
    assert all[i].name[|PREFIX|..] == EntryName(a, i) && all[k].name[|PREFIX|..] == EntryName(a, k);
    if 0 < i && k < |all| - 1 {
      assert all[i] == a.files[i - 1] && all[k] == a.files[k - 1];
      if all[k].name[|PREFIX|..] == all[i].name[|PREFIX|..] {
        SameName(all[i].name, all[k].name);
      }
    }
  }

  // ---- the same archive twice

  // The archive unpacked, checked and opened, and a file of it changed since, as the panel's start may do.
  function OpenedAndChanged(a: Archive, other: Entry): World
    requires ValidArchive(a) && |a.files| > 0
  {
    var unpacked := Do(World(map[], Down, None, false), Unpack(a, |Entries(a)|, None));
    var started := Do(unpacked, Start(a.version));
    Do(Do(started, Crash), Resync(a.files[0].name[|PREFIX|..], Some(other)))
  }

  lemma MarkLeft(a: Archive, other: Entry)
    requires ValidArchive(a) && ProperNames(a) && |a.files| > 0
    ensures var w := OpenedAndChanged(a, other);
            && w.phase.Down? && CONTENTS !in w.files && RecordAt(w.files, CHECKED) == Some(RecordOf(a))
            && a.files[0].name[|PREFIX|..] in w.files && w.files[a.files[0].name[|PREFIX|..]] == other
  {
    WholeArchiveOpens(map[], a);
    UnpackedMarkers(map[], a, |Entries(a)|, None);
    hide Unpacked, Entries, RecordOf, ProperNames, Verified, Inside, NoSideFiles;
  }

  // The condition on manifests is needed: the same archive unpacked again over it, and cut short right after its
  // manifest, is opened, though a file of it was never found as recorded since.
  lemma SameArchiveCutShort(a: Archive, other: Entry)
    requires ValidArchive(a) && ProperNames(a) && |a.files| > 0 && other != Regular(a.files[0].body)
    ensures var w := OpenedAndChanged(a, other);
            && Can(w, Unpack(a, 1, None)) && !FreshStep(w, Unpack(a, 1, None))
            && var again := Do(w, Unpack(a, 1, None));
            && Guard(again.files, a.version).Restored? && !Do(again, Start(a.version)).passed
  {
    var w, f := OpenedAndChanged(a, other), a.files[0];
    MarkLeft(a, other);
    RecordIsArchive(a);
    assert ManifestSum(ManifestOf(a)) == RecordOf(a)[0];
    var again := Do(w, Unpack(a, 1, None));
    assert Guard(again.files, a.version).Restored? by {
      CutShortOpens(w.files, a, 1, None);
      OneManifest(a);
    }
    assert !Verified(again.files, RecordOf(a), "") by {
      assert RecordOf(a)[1] == f;
      EntryNames(a);
      assert Entries(a)[..1] == [Entries(a)[0]] && Entries(a)[0].name[|PREFIX|..] == EntryName(a, 0);
      WrittenElsewhere(w.files, Entries(a)[..1], f.name[|PREFIX|..]);
      assert !Holds(again.files, f);
    }
    hide Unpacked, Entries, RecordOf, Verified, Guard, OpenedAndChanged;
  }

  lemma OneManifest(a: Archive)
    requires ValidArchive(a)
    ensures forall i | 0 <= i < |RecordOf(a)| && RecordOf(a)[i].name == PREFIX + MANIFEST ::
              RecordOf(a)[i].body == ManifestOf(a)
  {
    NameOf(MANIFEST);
    assert forall i | 0 < i < |RecordOf(a)| :: RecordOf(a)[i] == a.files[i - 1];
  }
}
