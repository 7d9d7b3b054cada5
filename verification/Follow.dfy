/**
 The log tailer over whole runs: the writer, the rotation, the reading, the saved place, stops and crashes
 (follow and tracker in logtail), one line, one save or one rename at a time.
 */
module Follow {
  import opened Wrappers
  import opened LogLines
  import opened LogPlace
  import opened Refusals

  // A line of the file of that number. Files are numbered as they are created; the last is the log, the one
  // before it is the log renamed.
  datatype Line = Line(file: nat, start: nat, end: nat)

  datatype Spot = Spot(file: nat, at: nat)

  // What a line read leaves in memory, with the file it was read in: the place of a login, or of something that
  // waits.
  datatype Mark = Mark(start: Place, file: nat)

  // What waits, and the place the reading is held at for it; with the line it came of and the place that was
  // saved then, as history.
  datatype Wait = Wait(recovery: bool, mark: Mark, line: Mark, seen: Option<Saved>)

  datatype Effect = Nothing | NamesLogin | AwaitsRow | AwaitsPanel(from: Mark)

  // The file rotated away, read on for a while.
  datatype Old = Old(file: nat, at: nat, fp: Fingerprint)

  datatype Tail =
    | Down
    | Up(cur: nat, at: nat, track: Track, adopted: bool, rotated: Option<Old>,
         unflushed: set<Line>, waits: seq<Wait>, logins: set<Mark>)

  // savedFile, done and origin are the history: the file the saved place was taken in, the lines handed over
  // and flushed, the first place ever saved.
  datatype World = World(files: seq<string>, stored: Option<Saved>, tail: Tail,
                         savedFile: nat, done: set<Line>, origin: Option<Spot>)

  datatype Step =
    | Append(file: nat, more: string)
    | Rotate
    | Start(waiting: seq<Wait>, named: set<Mark>)
    | Read(effect: Effect)
    | ReadOld(effect: Effect)
    | Flush(kept: seq<Wait>)
    | CloseOld
    | Switch
    | Adopt
    | Record(due: bool)
    | Stop
    | Crash

  // ---- one step

  function Log(w: World): int {
    |w.files| - 1
  }

  function FileAt(w: World, i: nat): LogFile
    requires i < |w.files|
  {
    LogFile(i, w.files[i])
  }

  function Renamed(w: World): Option<LogFile>
    requires |w.files| > 0
  {
    if Log(w) == 0 then None else Some(FileAt(w, Log(w) - 1))
  }

  // A recovery waits at the login's line, an earlier line of what has the same fingerprint, or at its own.
  predicate CanLeave(e: Effect, line: Place, file: nat, logins: set<Mark>) {
    e.AwaitsPanel? ==>
      || e.from == Mark(line, file)
      || (e.from in logins && e.from.start.fp == line.fp && e.from.start.at < line.at)
  }

  // What of the renamed file a start reads first.
  function MissedAt(w: World): Option<seq<Span>>
    requires |w.files| > 0
  {
    var r := ResumeAt(w.stored, FileAt(w, Log(w)));
    if r.behind.None? then None else Missed(r.behind.value, Renamed(w))
  }

  predicate OldRead(w: World)
    requires w.tail.Up?
  {
    w.tail.rotated.Some? ==>
      w.tail.rotated.value.file < |w.files|
          && LineEnd(w.files[w.tail.rotated.value.file], w.tail.rotated.value.at).None?
  }

  predicate MarkOfRenamed(w: World, m: Mark)
    requires |w.files| > 0
  {
    && MissedAt(w).Some? && m.file == Log(w) - 1 && m.start.fp == Some(m.file) && m.file < |w.files|
    && w.stored.value.offset <= m.start.at && Boundary(w.files[m.file], m.start.at)
  }

  predicate WaitOfRenamed(w: World, x: Wait)
    requires |w.files| > 0
  {
    && MarkOfRenamed(w, x.mark) && MarkOfRenamed(w, x.line) && x.mark.start.at <= x.line.start.at
    && (!x.recovery ==> x.mark == x.line) && x.seen == w.stored
  }

  // What the code and its surroundings can do next, in the code's own order.
  predicate Can(w: World, step: Step) {
    && |w.files| > 0
    && match step
       case Append(file, more) => file < |w.files|
       case Rotate => true
       case Start(waiting, named) =>
         && w.tail.Down?
         && (forall x | x in waiting :: WaitOfRenamed(w, x))
         && (forall m | m in named :: MarkOfRenamed(w, m))
       case Read(effect) =>
         && w.tail.Up? && w.tail.adopted && w.tail.cur < |w.files|
         && LineEnd(w.files[w.tail.cur], w.tail.at).Some?
         && CanLeave(effect, Place(w.tail.track.fp, w.tail.at), w.tail.cur, w.tail.logins)
       case ReadOld(effect) =>
         && w.tail.Up? && w.tail.adopted && w.tail.rotated.Some? && w.tail.rotated.value.file < |w.files|
         && LineEnd(w.files[w.tail.rotated.value.file], w.tail.rotated.value.at).Some?
         && CanLeave(effect, Place(w.tail.rotated.value.fp, w.tail.rotated.value.at), w.tail.rotated.value.file,
              w.tail.logins)
       case Flush(kept) => w.tail.Up? && forall x | x in kept :: x in w.tail.waits
       case CloseOld => w.tail.Up? && w.tail.adopted && w.tail.rotated.Some? && OldRead(w) && w.tail.unflushed == {}
       case Switch => w.tail.Up? && w.tail.adopted && w.tail.cur != Log(w) && w.tail.rotated.None?
           && w.tail.unflushed == {}
       case Adopt => w.tail.Up? && !w.tail.adopted && w.tail.unflushed == {} && w.tail.cur < |w.files|
       case Record(due) => w.tail.Up? && w.tail.adopted && w.tail.unflushed == {} && w.tail.cur < |w.files|
       case Stop => w.tail.Up? && w.tail.adopted && w.tail.unflushed == {} && w.tail.cur < |w.files| && OldRead(w)
       case Crash => w.tail.Up?
  }

  // The provisos. The writer is in the log, or in a file still to be read; two rotations do not fall between
  // two looks at the log; at a start the saved place is in the log or, with a fingerprint, in the renamed log;
  // no crash leaves lines unread, or read and not flushed, that came late to a file no longer saved.
  predicate Proviso(w: World, step: Step)
    requires Can(w, step)
  {
    match step
    case Append(file, more) =>
      || file == Log(w)
      || (w.tail.Up? && (file == w.tail.cur || (w.tail.rotated.Some? && file == w.tail.rotated.value.file)))
      || (w.tail.Down? && w.stored.Some? && file == w.savedFile)
    case Rotate => w.tail.Up? ==> w.tail.cur == Log(w)
    case Start(_, _) =>
      w.stored.Some? ==> w.savedFile == Log(w) || (w.savedFile == Log(w) - 1 && w.stored.value.fp.Some?)
    case Crash =>
      w.tail.rotated.Some? && w.stored.Some? && w.tail.rotated.value.file < w.savedFile ==>
        OldRead(w) && forall l | l in w.tail.unflushed :: l.file != w.tail.rotated.value.file
    case _ => true
  }

  function Held(waits: seq<Wait>, fp: Fingerprint): Option<nat> {
    Oldest(seq(|waits|, i requires 0 <= i < |waits| => waits[i].mark.start), fp)
  }

  function Save(w: World, track: Track, stored: Option<Saved>): World
    requires w.tail.Up?
  {
    w.(stored := stored,
       savedFile := if track.saved == w.tail.track.saved then w.savedFile else w.tail.cur,
       origin := if w.origin.None? && stored.Some? then Some(Spot(w.tail.cur, stored.value.offset)) else w.origin,
       tail := w.tail.(track := track))
  }

  function Recording(w: World, due: bool): World
    requires w.tail.Up? && w.tail.cur < |w.files|
  {
    var t := w.tail;
    var (track, stored) := Recorded(t.track, w.stored, FileAt(w, t.cur), t.at, due, Held(t.waits, t.track.fp));
    Save(w, track, stored)
  }

  function Leave(t: Tail, e: Effect, line: Mark, seen: Option<Saved>): Tail
    requires t.Up?
  {
    match e
    case Nothing => t
    case NamesLogin => t.(logins := t.logins + {line})
    case AwaitsRow => t.(waits := t.waits + [Wait(false, line, line, seen)])
    case AwaitsPanel(from) => t.(waits := t.waits + [Wait(true, from, line, seen)])
  }

  function LinesOf(file: nat, spans: seq<Span>): set<Line> {
    set x | x in spans :: Line(file, x.start, x.end)
  }

  function Do(w: World, step: Step): World
    requires Can(w, step)
  {
    var t := w.tail;
    match step
    case Append(file, more) => w.(files := w.files[file := w.files[file] + more])
    case Rotate => w.(files := w.files + [""])
    case Start(waiting, named) =>
      var r, missed := ResumeAt(w.stored, FileAt(w, Log(w))), MissedAt(w);
      w.(tail := Up(Log(w), r.start, r.track, true, None, {}, waiting, named),
         done := if missed.Some? then w.done + LinesOf(Log(w) - 1, missed.value) else w.done)
    case Read(effect) =>
      var end := LineEnd(w.files[t.cur], t.at).value;
      w.(tail := Leave(t, effect, Mark(Place(t.track.fp, t.at), t.cur), w.stored)
                 .(at := end, unflushed := t.unflushed + {Line(t.cur, t.at, end)}))
    case ReadOld(effect) =>
      var o := t.rotated.value;
      var end := LineEnd(w.files[o.file], o.at).value;
      w.(tail := Leave(t, effect, Mark(Place(o.fp, o.at), o.file), w.stored)
                 .(rotated := Some(o.(at := end)), unflushed := t.unflushed + {Line(o.file, o.at, end)}))
    case Flush(kept) => w.(done := w.done + t.unflushed, tail := t.(unflushed := {}, waits := kept))
    case CloseOld => w.(tail := t.(rotated := None))
    case Switch =>
      w.(tail := t.(cur := Log(w), at := 0, adopted := false, rotated := Some(Old(t.cur, t.at, t.track.fp))))
    case Adopt =>
      var (track, stored) := Adopted(w.stored, FileAt(w, t.cur), Held(t.waits, FingerprintOf(FileAt(w, t.cur))));
      var saved := Save(w, track, stored);
      saved.(savedFile := t.cur, tail := saved.tail.(adopted := true))
    case Record(due) => Recording(w, due)
    case Stop => Recording(w, true).(tail := Down)
    case Crash => w.(tail := Down)
  }
}
