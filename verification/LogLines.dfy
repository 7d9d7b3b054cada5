/** Lines in a file that only grows, and the reading of them in passes (follow in logtail). */
module LogLines {
  import opened Wrappers

  datatype Span = Span(start: nat, end: nat)

  // A line with its newline.
  predicate Complete(text: string, start: nat, end: nat) {
    && start < end <= |text|
    && (start == 0 || text[start - 1] == '\n')
    && text[end - 1] == '\n'
    && forall k | start <= k < end - 1 :: text[k] != '\n'
  }

  // Where a line starts.
  predicate Boundary(text: string, at: nat) {
    at <= |text| && (at == 0 || text[at - 1] == '\n')
  }

  // Past the first newline from there on.
  function LineEnd(text: string, from: nat): (r: Option<nat>)
    ensures r.Some? ==> from < r.value <= |text| && text[r.value - 1] == '\n'
    ensures r.Some? ==> forall k | from <= k < r.value - 1 :: text[k] != '\n'
    ensures r.None? ==> forall k | from <= k < |text| :: text[k] != '\n'
    decreases |text| - from
  {
    if from >= |text| then None
    else if text[from] == '\n' then Some(from + 1)
    else LineEnd(text, from + 1)
  }

  // Past the last newline: where the line not yet complete starts.
  function Last(text: string): (r: nat)
    ensures Boundary(text, r) && forall k | r <= k < |text| :: text[k] != '\n'
  {
    if text == "" then 0
    else if text[|text| - 1] == '\n' then |text|
    else Last(text[..|text| - 1])
  }

  // What a pass reading from there hands over, and where the next one starts.
  function Lines(text: string, from: nat): (lines: seq<Span>)
    ensures forall i | 0 <= i < |lines| :: lines[i].start < lines[i].end <= |text|
    decreases |text| - from
  {
    match LineEnd(text, from)
    case None => []
    case Some(end) => [Span(from, end)] + Lines(text, end)
  }

  function Rest(text: string, from: nat): (r: nat)
    ensures from <= r
    ensures from <= |text| ==> r <= |text|
    decreases |text| - from
  {
    match LineEnd(text, from)
    case None => from
    case Some(end) => Rest(text, end)
  }

  // ---- what a line is

  lemma LineEndUnique(text: string, from: nat, end: nat)
    requires from < end <= |text| && text[end - 1] == '\n' && forall k | from <= k < end - 1 :: text[k] != '\n'
    ensures LineEnd(text, from) == Some(end)
  {
  }

  // The complete lines from a place on are the first one and those from its end on.
  lemma NextLine(text: string, from: nat, start: nat, end: nat)
    requires Complete(text, start, end) && from <= start
    ensures LineEnd(text, from).Some?
    ensures (start == from && end == LineEnd(text, from).value) || LineEnd(text, from).value <= start
  {
    if start == from {
      LineEndUnique(text, from, end);
    }
  }

  // A line completed by an append starts where no line had ended.
  lemma NewLine(text: string, more: string, start: nat, end: nat)
    requires Complete(text + more, start, end)
    ensures if end <= |text| then Complete(text, start, end) else Last(text) <= start
  {
    var whole := text + more;
    if end <= |text| {
      assert start > 0 ==> text[start - 1] == whole[start - 1];
      assert text[end - 1] == whole[end - 1];
      assert forall k | start <= k < end - 1 :: text[k] == whole[k];
    } else if start < Last(text) {
      assert whole[Last(text) - 1] == '\n';
    }
  }

  lemma LastUnique(text: string, at: nat)
    requires Boundary(text, at) && forall k | at <= k < |text| :: text[k] != '\n'
    ensures Last(text) == at
  {
    if Last(text) > 0 {
      assert text[Last(text) - 1] == '\n';
    }
  }

  lemma LastGrows(text: string, more: string)
    ensures Last(text) <= Last(text + more)
  {
    var whole := text + more;
    if Last(text) > 0 {
      assert whole[Last(text) - 1] == text[Last(text) - 1];
    }
  }

  lemma BoundaryStays(text: string, more: string, at: nat)
    requires Boundary(text, at)
    ensures Boundary(text + more, at) && at <= Last(text + more)
  {
    var whole := text + more;
    assert at > 0 ==> whole[at - 1] == '\n';
  }

  lemma SameEnd(text: string, at: nat, consumed: nat)
    requires at <= consumed <= |text| && '\n' !in text[at..consumed]
    ensures LineEnd(text, at) == LineEnd(text, consumed)
  {
    assert forall k | at <= k < consumed :: text[k] == text[at..consumed][k - at];
    if LineEnd(text, consumed).Some? {
      LineEndUnique(text, at, LineEnd(text, consumed).value);
    }
  }

  // ---- what a pass reads

  // A pass hands over every complete line from its start on, each where it starts and ends.
  lemma {:induction false} LinesCover(text: string, from: nat, start: nat, end: nat)
    requires Complete(text, start, end) && from <= start
    ensures Span(start, end) in Lines(text, from)
    decreases |text| - from
  {
    NextLine(text, from, start, end);
    var e := LineEnd(text, from).value;
    if start != from {
      LinesCover(text, e, start, end);
    }
  }

  // And nothing else, where it started at the start of a line.
  lemma {:induction false} LinesAreLines(text: string, from: nat)
    requires Boundary(text, from)
    ensures forall x | x in Lines(text, from) :: Complete(text, x.start, x.end) && from <= x.start
    ensures Rest(text, from) == Last(text)
    decreases |text| - from
  {
    if LineEnd(text, from).Some? {
      var e := LineEnd(text, from).value;
      LinesAreLines(text, e);
    } else {
      LastUnique(text, from);
    }
  }

  // The lines of a pass follow each other: each is handed over once, and in the order of the file.
  lemma {:induction false} LinesInOrder(text: string, from: nat)
    ensures var lines := Lines(text, from);
            && (lines != [] ==> lines[0].start == from && lines[|lines| - 1].end == Rest(text, from))
            && (lines == [] ==> Rest(text, from) == from)
            && forall i | 0 < i < |lines| :: lines[i].start == lines[i - 1].end
    decreases |text| - from
  {
    if LineEnd(text, from).Some? {
      LinesInOrder(text, LineEnd(text, from).value);
    }
  }

  lemma SameLineEnd(text: string, more: string, from: nat)
    requires LineEnd(text, from).Some?
    ensures LineEnd(text + more, from) == LineEnd(text, from)
  {
    var whole, end := text + more, LineEnd(text, from).value;
    assert forall k | from <= k < end :: whole[k] == text[k];
    LineEndUnique(whole, from, end);
  }

  // Passes over a growing file together read what one pass over the grown file does: nothing is read twice,
  // split or missed between them, wherever in a line the writer stood when a pass ended.
  lemma {:induction false} PassesAddUp(text: string, more: string, from: nat)
    requires from <= |text|
    ensures Lines(text + more, from) == Lines(text, from) + Lines(text + more, Rest(text, from))
    ensures Rest(text + more, from) == Rest(text + more, Rest(text, from))
    decreases |text| - from
  {
    var whole := text + more;
    match LineEnd(text, from)
    case None =>
      assert Lines(text, from) == [] && Rest(text, from) == from;
      hide Lines, LineEnd;
    case Some(end) =>
      SameLineEnd(text, more, from);
      hide LineEnd;
      PassesAddUp(text, more, end);
      assert [Span(from, end)] + (Lines(text, end) + Lines(whole, Rest(text, end))) ==
             ([Span(from, end)] + Lines(text, end)) + Lines(whole, Rest(text, end));
  }

  /** The position of the open file: what was read, and the piece of a line held until it is complete. */
  class Follower {
    var consumed: nat
    var pending: string

    ghost predicate Valid(text: string)
      reads this
    {
      |pending| <= consumed <= |text| && pending == text[consumed - |pending|..consumed] && '\n' !in pending
    }

    // Where the line not yet handed over starts: the place to save.
    function At(): int
      reads this
    {
      consumed - |pending|
    }

    constructor (from: nat)
      ensures consumed == from && pending == ""
    {
      consumed, pending := from, "";
    }

    // One read up to a newline: the line, with the piece held before, or none at the end of the file, where the
    // piece is held on to.
    method Take(text: string) returns (line: Option<string>)
      requires Valid(text)
      modifies this
      ensures Valid(text)
      ensures line.None? <==> LineEnd(text, old(At())).None?
      ensures line.None? ==> At() == old(At()) && consumed == |text|
      ensures line.Some? ==> Some(At()) == LineEnd(text, old(At())) && consumed == At()
      ensures line.Some? ==> line.value == text[old(At())..At()]
    {
      var newline := LineEnd(text, consumed);
      SameEnd(text, At(), consumed);
      match newline {
        case None =>
          pending, consumed := pending + text[consumed..], |text|;
          line := None;
        case Some(end) =>
          line := Some(pending + text[consumed..end]);
          consumed, pending := end, "";
      }
    }

    // One pass to the end of the file.
    method Drain(text: string) returns (lines: seq<string>, spans: seq<Span>)
      requires Valid(text)
      modifies this
      ensures Valid(text) && consumed == |text|
      ensures At() == Rest(text, old(At()))
      ensures spans == Lines(text, old(At())) && |lines| == |spans|
      ensures forall i | 0 <= i < |spans| :: lines[i] == text[spans[i].start..spans[i].end]
    {
      hide LineEnd;
      lines, spans := [], [];
      ghost var from := At();
      while true
        invariant Valid(text)
        invariant Lines(text, from) == spans + Lines(text, At()) && Rest(text, from) == Rest(text, At())
        invariant |lines| == |spans|
        invariant forall i | 0 <= i < |spans| :: spans[i].start < spans[i].end <= |text|
                    && lines[i] == text[spans[i].start..spans[i].end]
        decreases |text| - At()
      {
        var start := At();
        var line := Take(text);
        if line == None {
          break;
        }
        assert Lines(text, start) == [Span(start, At())] + Lines(text, At());
        lines, spans := lines + [line.value], spans + [Span(start, At())];
      }
    }
  }
}
