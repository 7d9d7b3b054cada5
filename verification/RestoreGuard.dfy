/** The guard on a restored data directory (CheckRestore, checkContents and ConsumeRestore in backup). */
module RestoreGuard {
  import opened Wrappers
  import opened Strings

  const MANIFEST := "manifest.json"
  const CONTENTS := "contents.json"
  const CHECKED := "contents.checked.json"
  const PREFIX := "data/"
  const FORMAT_FULL := "selfpost-full-backup"
  const SIDE_FILES := ["selfpost.db-wal", "selfpost.db-shm", "selfpost.db-journal"]
  const MARKERS := {MANIFEST, CONTENTS, CHECKED}

  // What a file holds. A digest is the content itself: digests that collide are not part of this model.
  datatype Body =
    | Bytes(bytes: string)
    | ManifestDoc(format: string, version: string, made: string)
    | RecordDoc(files: seq<Sum>)

  // A file as an archive records it.
  datatype Sum = Sum(name: string, body: Body)

  // What stands under a name: a regular file, or a link, a directory or a pipe.
  datatype Entry = Regular(body: Body) | Special

  type Files = map<string, Entry>

  // ---- the check of a record

  // A path that does not lead out of the directory; path.Clean leaves it as it is.
  predicate Inside(rel: string) {
    rel != "" && (rel == "." || forall i | 0 <= i < |Split(rel, '/')| :: Split(rel, '/')[i] !in {"", ".", ".."})
  }

  predicate Holds(files: Files, f: Sum) {
    && PREFIX <= f.name && Inside(f.name[|PREFIX|..])
    && f.name[|PREFIX|..] in files && files[f.name[|PREFIX|..]] == Regular(f.body)
  }

  predicate Names(record: seq<Sum>, name: string) {
    exists i | 0 <= i < |record| :: record[i].name == name
  }

  // Every file of the record, or those of one name, of which there is one.
  predicate Verified(files: Files, record: seq<Sum>, only: string) {
    && (forall i | 0 <= i < |record| && (only == "" || record[i].name == only) :: Holds(files, record[i]))
    && (only != "" ==> Names(record, only))
  }

  function RecordAt(files: Files, name: string): Option<seq<Sum>> {
    if name in files && files[name].Regular? && files[name].body.RecordDoc? then Some(files[name].body.files) else None
  }

  predicate NoSideFiles(files: Files) {
    forall i | 0 <= i < |SIDE_FILES| :: SIDE_FILES[i] !in files
  }

  // Whether the directory is one to open: with the record of a whole archive, all of it as recorded; without, one
  // that an earlier start checked, under the manifest it checked it with.
  predicate ContentsPass(files: Files) {
    if CONTENTS !in files then
      var prev := RecordAt(files, CHECKED);
      prev.Some? && Verified(files, prev.value, PREFIX + MANIFEST)
    else
      var c := RecordAt(files, CONTENTS);
      c.Some? && NoSideFiles(files) && Verified(files, c.value, "")
  }

  // The record becomes the mark that the check was made.
  function ContentsMarked(files: Files): Files {
    if CONTENTS in files && ContentsPass(files) then (files - {CONTENTS})[CHECKED := files[CONTENTS]] else files
  }

  datatype Outcome = Ordinary | Restored | Refused

  function Guard(files: Files, version: string): Outcome {
    if MANIFEST !in files then Ordinary
    else
      match files[MANIFEST]
      case Regular(ManifestDoc(format, v, made)) =>
        if format == FORMAT_FULL && v == version && ContentsPass(files) then Restored else Refused
      case _ => Refused
  }

  // ---- what passes, said without the steps of the check

  // Where a path leads from a directory, component by component; None once it is above it.
  function Walk(parts: seq<string>): Option<seq<string>> {
    if parts == [] then Some([]) else
      var (front, last) := (Walk(parts[..|parts| - 1]), parts[|parts| - 1]);
      if front.None? then None
      else if last == "." || last == "" then front
      else if last == ".." then if front.value == [] then None else Some(front.value[..|front.value| - 1])
      else Some(front.value + [last])
  }

  // A name is inside the directory if it leads straight to where it says.
  lemma InsideLeadsThere(rel: string)
    ensures Inside(rel) <==> rel == "." || (rel != "" && Walk(Split(rel, '/')) == Some(Split(rel, '/')))
  {
    WalksStraight(Split(rel, '/'));
  }

  lemma {:induction false} WalksStraight(parts: seq<string>)
    ensures Walk(parts) == Some(parts) <==> forall i | 0 <= i < |parts| :: parts[i] !in {"", ".", ".."}
    ensures Walk(parts).Some? ==> |Walk(parts).value| <= |parts|
  {
    if parts != [] {
      var n := |parts| - 1;
      WalksStraight(parts[..n]);
      assert parts == parts[..n] + [parts[n]];
      if Walk(parts) == Some(parts) {
        assert |Walk(parts).value| == n + 1;
      }
    }
  }

  // A file as it is recorded: a regular one under the name, past "data/", and inside the directory, with those bytes.
  ghost predicate AsRecorded(files: Files, f: Sum) {
    exists rel :: f.name == "data/" + rel && Inside(rel) && rel in files && files[rel] == Regular(f.body)
  }

  ghost predicate HoldsRecord(files: Files, name: string, files': seq<Sum>) {
    name in files && files[name] == Regular(RecordDoc(files'))
  }

  // Either the archive's record is there, no side file of the database is, and every file of the record is as recorded;
  // or that record is gone, the one an earlier start checked is there, and the manifest is the one it names.
  ghost predicate WholeOrChecked(files: Files) {
    if CONTENTS in files then
      && "selfpost.db-wal" !in files && "selfpost.db-shm" !in files && "selfpost.db-journal" !in files
      && exists record: seq<Sum> :: HoldsRecord(files, CONTENTS, record)
                                    && forall f: Sum | f in record :: AsRecorded(files, f)
    else
      exists record: seq<Sum> :: HoldsRecord(files, CHECKED, record)
        && (exists f: Sum :: f in record && f.name == "data/manifest.json")
        && forall f: Sum | f in record && f.name == "data/manifest.json" :: AsRecorded(files, f)
  }

  // A restored directory is opened exactly if it is so, and its manifest one of a full backup of this version.
  lemma RestoredExactly(files: Files, version: string)
    ensures Guard(files, version) == Restored <==>
            && MANIFEST in files && WholeOrChecked(files)
            && exists made :: files[MANIFEST] == Regular(ManifestDoc("selfpost-full-backup", version, made))
    ensures Guard(files, version) == Ordinary <==> MANIFEST !in files
  {
    PassIs(files);
    hide ContentsPass, WholeOrChecked;
  }

  lemma PassIs(files: Files)
    ensures ContentsPass(files) <==> WholeOrChecked(files)
  {
    RecordPasses(files);
    SideFilesAre(files);
    forall name, record: seq<Sum> ensures RecordAt(files, name) == Some(record) <==> HoldsRecord(files, name, record) {
    }
    hide AsRecorded, Verified, NoSideFiles, RecordAt, HoldsRecord;
    var (c, prev) := (RecordAt(files, CONTENTS), RecordAt(files, CHECKED));
    assert c.Some? ==> HoldsRecord(files, CONTENTS, c.value);
    assert prev.Some? ==> HoldsRecord(files, CHECKED, prev.value);
  }

  lemma SideFilesAre(files: Files)
    ensures NoSideFiles(files) <==>
            "selfpost.db-wal" !in files && "selfpost.db-shm" !in files && "selfpost.db-journal" !in files
  {
    assert SIDE_FILES[0] == "selfpost.db-wal" && SIDE_FILES[1] == "selfpost.db-shm"
           && SIDE_FILES[2] == "selfpost.db-journal";
  }

  lemma RecordPasses(files: Files)
    ensures forall record: seq<Sum> :: Verified(files, record, "") <==> forall f | f in record :: AsRecorded(files, f)
    ensures forall record: seq<Sum> ::
              Verified(files, record, PREFIX + MANIFEST) <==>
              (exists f: Sum :: f in record && f.name == "data/manifest.json")
              && forall f: Sum | f in record && f.name == "data/manifest.json" :: AsRecorded(files, f)
  {
    forall f: Sum ensures Holds(files, f) <==> AsRecorded(files, f) {
      if AsRecorded(files, f) {
        var rel :| f.name == "data/" + rel && Inside(rel) && rel in files && files[rel] == Regular(f.body);
        assert f.name[|PREFIX|..] == rel;
      }
      if Holds(files, f) {
        assert f.name == "data/" + f.name[|PREFIX|..];
      }
    }
    assert PREFIX + MANIFEST == "data/manifest.json";
    hide Holds, AsRecorded;
  }

  class DataDir {
    var files: Files

    constructor (files: Files)
      ensures this.files == files
    {
      this.files := files;
    }

    method VerifyFiles(record: seq<Sum>, only: string) returns (ok: bool)
      ensures ok == Verified(files, record, only)
    {
      var found := false;
      for i := 0 to |record|
        invariant found <==> exists k | 0 <= k < i :: only == "" || record[k].name == only
        invariant forall k | 0 <= k < i && (only == "" || record[k].name == only) :: Holds(files, record[k])
      {
        var f := record[i];
        if only != "" && f.name != only {
          continue;
        }
        found := true;
        if !(PREFIX <= f.name) {
          return false;
        }
        var rel := f.name[|PREFIX|..];
        if !Inside(rel) || rel !in files || files[rel] != Regular(f.body) {
          assert !Holds(files, f);
          return false;
        }
      }
      if only != "" && !found {
        return false;
      }
      return true;
    }

    method CheckContents() returns (ok: bool)
      modifies this
      ensures ok == ContentsPass(old(files)) && files == ContentsMarked(old(files))
    {
      if CONTENTS !in files {
        var prev := RecordAt(files, CHECKED);
        if prev.None? {
          return false;
        }
        ok := VerifyFiles(prev.value, PREFIX + MANIFEST);
        return;
      }
      var c := RecordAt(files, CONTENTS);
      if c.None? {
        return false;
      }
      for i := 0 to |SIDE_FILES|
        invariant forall k | 0 <= k < i :: SIDE_FILES[k] !in files
      {
        if SIDE_FILES[i] in files {
          return false;
        }
      }
      ok := VerifyFiles(c.value, "");
      if ok {
        files := (files - {CONTENTS})[CHECKED := files[CONTENTS]];
      }
    }

    method CheckRestore(version: string) returns (r: Outcome)
      modifies this
      ensures r == Guard(old(files), version)
      ensures files == if r == Restored then ContentsMarked(old(files)) else old(files)
    {
      if MANIFEST !in files {
        return Ordinary;
      }
      match files[MANIFEST] {
        case Regular(ManifestDoc(format, v, made)) =>
          if format != FORMAT_FULL || v != version {
            return Refused;
          }
          var ok := CheckContents();
          r := if ok then Restored else Refused;
        case _ =>
          return Refused;
      }
    }

    method ConsumeRestore()
      modifies this
      ensures files == old(files) - {MANIFEST} - {CHECKED} - {CONTENTS}
    {
      files := files - {MANIFEST};
      files := files - {CHECKED};
      files := files - {CONTENTS};
    }
  }
}
