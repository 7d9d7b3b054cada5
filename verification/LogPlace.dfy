/** The saved read position: what it is taken for at a start, and when a new one is written (tracker in logtail). */
module LogPlace {
  import opened Wrappers
  import opened LogLines

  const FINGERPRINT_SIZE := 512
  const PERSIST_INTERVAL := 5

  datatype LogFile = LogFile(id: nat, text: string)

  // What tells one log file from another: nothing while the file is too short for it, then its identity.
  type Fingerprint = Option<nat>

  function FingerprintOf(f: LogFile): Fingerprint {
    if |f.text| < FINGERPRINT_SIZE then None else Some(f.id)
  }

  datatype Saved = Saved(fp: Fingerprint, offset: nat)

  // A place in a file, known by its fingerprint.
  datatype Place = Place(fp: Fingerprint, at: nat)

  datatype Track = Track(fp: Fingerprint, saved: int)

  datatype Resumed = Resumed(track: Track, start: nat, behind: Option<Saved>)

  // Where the tailer starts in the file that is the log now: at its end with nothing saved, at the saved place
  // in the file the place was saved for, else at the start - behind the place, where it names another file.
  function ResumeAt(stored: Option<Saved>, f: LogFile): Resumed {
    var fp := FingerprintOf(f);
    match stored
    case None => Resumed(Track(fp, |f.text|), |f.text|, None)
    case Some(prev) =>
      if prev.fp.Some? && prev.fp == fp && prev.offset <= |f.text| then
        Resumed(Track(fp, prev.offset), prev.offset, None)
      else
        Resumed(Track(fp, 0), 0, if prev.fp.Some? then Some(prev) else None)
  }

  function HeldTo(offset: nat, held: Option<nat>): nat {
    if held.Some? && held.value < offset then held.value else offset
  }

  // The place saved for an offset read to: never past what something read still waits on.
  function Recorded(t: Track, stored: Option<Saved>, f: LogFile, offset: nat, due: bool, held: Option<nat>)
    : (Track, Option<Saved>)
  {
    var at := HeldTo(offset, held);
    if at == t.saved || !due then (t, stored) else
      var fp := if t.fp.None? then FingerprintOf(f) else t.fp;
      (Track(fp, at), Some(Saved(fp, at)))
  }

  // A file rotated in is started at once, whatever was saved of the file before it.
  function Adopted(stored: Option<Saved>, f: LogFile, held: Option<nat>): (Track, Option<Saved>) {
    Recorded(Track(FingerprintOf(f), -1), stored, f, 0, true, held)
  }

  // What is read of the renamed file when the saved place is one in it.
  function Missed(prev: Saved, rotated: Option<LogFile>): Option<seq<Span>> {
    if rotated.Some? && FingerprintOf(rotated.value) == prev.fp && prev.offset <= |rotated.value.text| then
      Some(ToTheEnd(rotated.value.text, prev.offset))
    else None
  }

  // The lines to the end of a file, the last one with no newline among them.
  function ToTheEnd(text: string, from: nat): seq<Span>
    decreases |text| - from
  {
    if from >= |text| then []
    else match LineEnd(text, from)
      case None => [Span(from, |text|)]
      case Some(end) => [Span(from, end)] + ToTheEnd(text, end)
  }

  lemma {:induction false} EndCovers(text: string, from: nat)
    requires from <= |text|
    ensures forall x | x in Lines(text, from) :: x in ToTheEnd(text, from)
    ensures forall x | x in ToTheEnd(text, from) :: x in Lines(text, from) || x == Span(Rest(text, from), |text|)
    decreases |text| - from
  {
    if LineEnd(text, from).Some? {
      EndCovers(text, LineEnd(text, from).value);
    }
  }

  class Tracker {
    var fp: Fingerprint
    var saved: int
    var lastSave: Option<int>
    var behind: Option<Saved>
    var stored: Option<Saved>

    // A start of the panel, with what the store holds.
    constructor (stored: Option<Saved>)
      ensures this.stored == stored && behind == None && lastSave == None
    {
      this.stored, behind, lastSave := stored, None, None;
      fp, saved := None, 0;
    }

    method Resume(f: LogFile) returns (start: nat)
      requires behind == None
      modifies this`fp, this`saved, this`behind
      ensures Resumed(Track(fp, saved), start, behind) == ResumeAt(stored, f)
    {
      var size := |f.text|;
      fp := FingerprintOf(f);
      if stored.None? {
        saved := size;
        return size;
      }
      var prev := stored.value;
      if prev.fp.Some? && prev.fp == fp && prev.offset <= size {
        saved := prev.offset;
        return prev.offset;
      }
      saved := 0;
      if prev.fp.Some? {
        behind := Some(prev);
      }
      return 0;
    }

    method ReadRotated(rotated: Option<LogFile>) returns (read: Option<seq<Span>>)
      modifies this`behind
      ensures behind == None
      ensures read == if old(behind).None? then None else Missed(old(behind).value, rotated)
    {
      read := None;
      if behind.None? {
        return;
      }
      var prev := behind.value;
      behind := None;
      if rotated.None? {
        return;
      }
      var f := rotated.value;
      if FingerprintOf(f) != prev.fp || prev.offset > |f.text| {
        return;
      }
      var end := prev.offset;
      var lines: seq<Span> := [];
      while end < |f.text|
        invariant end <= |f.text|
        invariant ToTheEnd(f.text, prev.offset) == lines + ToTheEnd(f.text, end)
      {
        var start, newline := end, LineEnd(f.text, end);
        end := if newline.Some? then newline.value else |f.text|;
        assert ToTheEnd(f.text, start) == [Span(start, end)] + ToTheEnd(f.text, end);
        lines := lines + [Span(start, end)];
      }
      assert lines + [] == lines;
      read := Some(lines);
    }

    method Record(f: LogFile, offset: nat, force: bool, now: int, held: Option<nat>)
      modifies this`fp, this`saved, this`lastSave, this`stored
      ensures var due := force || old(lastSave).None? || now - old(lastSave).value >= PERSIST_INTERVAL;
              (Track(fp, saved), stored) ==
              Recorded(Track(old(fp), old(saved)), old(stored), f, offset, due, held)
      ensures lastSave == if stored == old(stored) && saved == old(saved) then old(lastSave) else Some(now)
    {
      var at := offset;
      if held.Some? && held.value < offset {
        at := held.value;
      }
      if at == saved {
        return;
      }
      if !force && lastSave.Some? && now - lastSave.value < PERSIST_INTERVAL {
        return;
      }
      if fp.None? {
        fp := FingerprintOf(f);
      }
      stored := Some(Saved(fp, at));
      saved := at;
      lastSave := Some(now);
    }

    method Adopt(f: LogFile, now: int, held: Option<nat>)
      modifies this`fp, this`saved, this`lastSave, this`stored
      ensures (Track(fp, saved), stored) == Adopted(old(stored), f, held)
      ensures stored == Some(Saved(FingerprintOf(f), 0))
    {
      fp := FingerprintOf(f);
      saved := -1;
      Record(f, 0, true, now, held);
    }
  }
}
