/**
 The two streams of internal/secretfile: the writer that buffers plaintext into chunks, and the reader
 that hands decrypted chunks out in whatever sizes it is asked for.
 */
module EnvelopeStreams {
  import opened Bytes
  import opened Wrappers
  import opened Envelope

  lemma NextCounter(n: nat)
    ensures (n % TWO_32 + 1) % TWO_32 == (n + 1) % TWO_32
  {
  }

  // What is sealed under the wrapped counter is the seal of the chunk with that number.
  lemma SameSeal(f: Aead, h: Header, counter: Uint32, i: nat, c: Chunk)
    requires counter == i % TWO_32 && |c.plain| <= CHUNK_SIZE
    ensures var n, a := Nonce(h.prefix, counter), ChunkAad(Marshal(h), counter, c.last);
            && Seal(n, a, f(n, c.plain, a)) == SealOf(f, h, i, c)
            && Frame(f, h, i, c) == BigEndian(|f(n, c.plain, a)|) + f(n, c.plain, a)
  {
  }

  class Writer {
    const seal: Aead
    const hdr: Header
    var out: Bytes    // what the underlying writer has received
    var buf: Bytes    // pending plaintext
    var counter: Uint32
    var closed: bool
    var table: Table  // what has been sealed under the file's key

    ghost var chunks: seq<Chunk>

    // What was sealed is on the stream, and in the table.
    ghost predicate Sound()
      reads this
    {
      && WellSized(hdr) && Chunked(chunks)
      && counter == |chunks| % TWO_32
      && out == Written(seal, hdr, chunks)
      && table == TableOf(seal, hdr, chunks)
    }

    ghost predicate Valid()
      reads this
    {
      && Sound()
      && (if closed then buf == [] && chunks == Split(Text()) else Full(chunks) && |buf| < CHUNK_SIZE)
    }

    // The plaintext written so far.
    ghost function Text(): Bytes
      reads this
    {
      Plain(chunks, 0) + buf
    }

    constructor (seal: Aead, hdr: Header)
      requires WellSized(hdr)
      ensures Valid() && !closed && Text() == [] && out == Marshal(hdr)
      ensures this.seal == seal && this.hdr == hdr
    {
      this.seal, this.hdr := seal, hdr;
      out, buf, counter, closed, table, chunks := Marshal(hdr), [], 0, false, map[], [];
    }

    method Write(p: Bytes) returns (res: Result<nat, Error>)
      requires Valid()
      modifies this
      ensures Valid() && closed == old(closed)
      ensures old(closed) ==> res == Err(WriteAfterClose) && unchanged(this)
      ensures !old(closed) ==> res == Ok(|p|) && Text() == old(Text()) + p
    {
      if closed {
        return Err(WriteAfterClose);
      }
      var rest, written := p, 0;
      while |rest| > 0
        invariant Sound() && !closed && Full(chunks) && |buf| < CHUNK_SIZE
        invariant written + |rest| == |p|
        invariant Text() + rest == old(Text()) + p
      {
        var n := CHUNK_SIZE - |buf|;
        if n > |rest| {
          n := |rest|;
        }
        ghost var before, was := Text(), rest;
        buf := buf + rest[..n];
        rest := rest[n..];
        written := written + n;
        assert Text() == before + was[..n];
        assert before + was[..n] + rest == before + was;
        if |buf| == CHUNK_SIZE {
          Flush(false);
        }
      }
      assert Text() == Text() + rest;
      return Ok(written);
    }

    // Seals the pending plaintext as one chunk, whatever its size; last marks the end of the stream.
    method Flush(last: bool)
      requires Sound() && !Closed(chunks) && |buf| <= CHUNK_SIZE
      modifies this`out, this`buf, this`counter, this`table, this`chunks
      ensures Sound() && buf == [] && Text() == old(Text())
      ensures chunks == old(chunks) + [Chunk(old(buf), last)]
    {
      var n, a := Nonce(hdr.prefix, counter), ChunkAad(Marshal(hdr), counter, last);
      var sealed := seal(n, buf, a);
      table := table[Seal(n, a, sealed) := buf];
      out := out + BigEndian(|sealed|) + sealed;
      ghost var c := Chunk(buf, last);
      hide Written, TableOf, Marshal, BigEndian, Nonce, ChunkAad, Plain, SealOf, Frame;
      NextCounter(|chunks|);
      SameSeal(seal, hdr, counter, |chunks|, c);
      SealedNext(seal, hdr, chunks, c);
      PlainSnoc(chunks, c, 0);
      assert out == Written(seal, hdr, chunks) + (BigEndian(|sealed|) + sealed);
      chunks := chunks + [c];
      buf := [];
      counter := (counter + 1) % TWO_32;
    }

    // The final chunk is written even when nothing is pending. What is on the stream then depends on the
    // plaintext alone, not on how it was cut into writes.
    method Close()
      requires Valid()
      modifies this
      ensures Valid() && closed && Text() == old(Text())
      ensures out == EnvelopeOf(seal, hdr, Text())
      ensures table == TableOf(seal, hdr, Split(Text()))
    {
      if closed {
        return;
      }
      closed := true;
      SplitOf(chunks, buf, 0);
      assert chunks[0..] == chunks;
      Flush(true);
    }
  }

  datatype Status = Fine | AtEnd | Bad(error: Error)

  class Reader {
    const table: Table  // what has been sealed under the key derived from the password
    const raw: Bytes    // the header as read
    var input: Bytes    // the rest of the stream
    var plain: Bytes    // decrypted, not yet handed to the caller
    var counter: nat  // not wrapped here: Nonce and ChunkAad take it modulo 2^32
    var done: bool
    var err: Option<Error>

    ghost predicate Valid()
      reads this
    {
      |raw| == HEADER_LEN && (err.Some? ==> plain == [])
    }

    // All that is still to be handed out, and how it ends.
    ghost function Rest(): (Bytes, End)
      requires Valid()
      reads this
    {
      if err.Some? then ([], Failed(err.value))
      else if done then (plain, Eof)
      else var (more, end) := Deliver(table, raw, counter, input); (plain + more, end)
    }

    constructor (table: Table, raw: Bytes, input: Bytes)
      requires |raw| == HEADER_LEN
      ensures Valid() && Rest() == Deliver(table, raw, 0, input)
    {
      this.table, this.raw, this.input := table, raw, input;
      plain, counter, done, err := [], 0, false, None;
      new;
      var (more, end) := Deliver(table, raw, 0, input);
      assert [] + more == more;
    }

    method Read(size: nat) returns (data: Bytes, st: Status)
      requires Valid()
      modifies this
      ensures Valid() && |data| <= size
      ensures old(Rest()).0 == data + Rest().0 && old(Rest()).1 == Rest().1
      ensures st == Fine && size > 0 ==> data != []
      ensures st == AtEnd ==> data == [] && Rest() == ([], Eof)
      ensures st.Bad? ==> data == [] && Rest() == ([], Failed(st.error))
    {
      while |plain| == 0
        invariant Valid() && Rest() == old(Rest())
        decreases |input|, if err.None? && !done then 1 else 0
      {
        if err.Some? {
          return [], Bad(err.value);
        }
        if done {
          return [], AtEnd;
        }
        var failed := Advance();
        if failed.Some? {
          err := failed;
          return [], Bad(failed.value);
        }
      }
      var n := if size < |plain| then size else |plain|;
      data, st := plain[..n], Fine;
      plain := plain[n..];
      assert old(Rest()).0 == data + Rest().0;
    }

    // Reads, verifies and decrypts the following chunk.
    method Advance() returns (failed: Option<Error>)
      requires Valid() && err.None? && !done && plain == []
      modifies this`input, this`plain, this`counter, this`done
      ensures failed.Some? ==> plain == [] && old(Rest()) == ([], Failed(failed.value))
      ensures failed.None? ==> Valid() && Rest() == old(Rest())
      ensures failed.None? ==> |input| < old(|input|) || (input == old(input) && done)
    {
      ghost var before := Rest();
      match Next(table, raw, counter, input) {
        case Stop(e) =>
          assert before.0 == [];
          return Some(e);
        case Got(p, last, rest) =>
          plain, done, input, counter := p, last, rest, counter + 1;
          assert before.0 == Rest().0;
          return None;
      }
    }
  }

  ghost function Concat(parts: seq<Bytes>): Bytes {
    if parts == [] then [] else Concat(parts[..|parts| - 1]) + parts[|parts| - 1]
  }

  // Whatever the pieces it is written in, the envelope on the stream is that of the whole plaintext.
  method WriteAll(seal: Aead, hdr: Header, parts: seq<Bytes>) returns (w: Writer)
    requires WellSized(hdr)
    ensures w.seal == seal && w.hdr == hdr && w.out == EnvelopeOf(seal, hdr, Concat(parts))
    ensures w.table == TableOf(seal, hdr, Split(Concat(parts)))
  {
    w := new Writer(seal, hdr);
    for i := 0 to |parts|
      invariant w.Valid() && !w.closed && w.Text() == Concat(parts[..i])
      invariant fresh(w) && w.seal == seal && w.hdr == hdr
    {
      var res := w.Write(parts[i]);
      assert parts[..i + 1][..i] == parts[..i];
    }
    assert parts[..|parts|] == parts;
    w.Close();
  }

  // The header is read and checked before anything else; what comes after it is for the key it leads to.
  method NewReader(keys: Keys, file: Bytes) returns (r: Result<Reader, Error>)
    ensures r.Err? ==> ReadFile(keys, file) == ([], Failed(r.error))
    ensures r.Ok? ==> fresh(r.value) && r.value.Valid() && r.value.Rest() == ReadFile(keys, file)
  {
    hide Deliver;
    if |file| < HEADER_LEN {
      return Err(if HasMagic(file) then Corrupt else NotEncrypted);
    }
    var hdr := ParseHeader(file[..HEADER_LEN]);
    if hdr.Err? {
      return Err(hdr.error);
    }
    var h := hdr.value;
    var reader := new Reader(keys(h.logN, h.r, h.p, h.salt), file[..HEADER_LEN], file[HEADER_LEN..]);
    return Ok(reader);
  }

  // And whatever the sizes it is read in, header and all, the plaintext comes back: never anything but a prefix of
  // it, all of it where the end is reported, and the end within one read more than there are bytes.
  method RoundTrip(seal: Aead, typ: Byte, salt: Bytes, prefix: Bytes, parts: seq<Bytes>, sizes: seq<nat>)
    returns (got: Bytes, end: bool)
    requires |salt| == SALT_LEN && |prefix| == PREFIX_LEN && |Concat(parts)| / CHUNK_SIZE < TWO_32
    ensures got <= Concat(parts)
    ensures end ==> got == Concat(parts)
    ensures (forall i | 0 <= i < |sizes| :: sizes[i] > 0) && |sizes| > |Concat(parts)| ==> end
  {
    hide Deliver, Plain, Split, TableOf, Frames, Marshal, ReadFile, ParseHeader, Reasonable;
    var hdr := NewHeader(typ, salt, prefix);
    NewHeaderIsReasonable(typ, salt, prefix);
    var w := WriteAll(seal, hdr, parts);
    ghost var p := Concat(parts);
    var table := w.table;
    var keys: Keys := (n: Byte, r: Uint32, q: Uint32, s: Bytes) =>
      if (n, r, q, s) == (hdr.logN, hdr.r, hdr.p, hdr.salt) then table else map[];
    TruncationIsAnError(keys, seal, hdr, p, 0, []);
    var reader := NewReader(keys, w.out);
    got, end := ReadAll(reader.value, sizes);
  }

  // Reads of those sizes, until there is no more or the sizes are used up.
  method ReadAll(r: Reader, sizes: seq<nat>) returns (got: Bytes, end: bool)
    requires r.Valid() && r.Rest().1 == Eof
    modifies r
    ensures got <= old(r.Rest()).0 && (end ==> got == old(r.Rest()).0)
    ensures (forall i | 0 <= i < |sizes| :: sizes[i] > 0) && |sizes| > |old(r.Rest()).0| ==> end
  {
    hide Deliver;
    got, end := [], false;
    ghost var p := r.Rest().0;
    for i := 0 to |sizes|
      invariant r.Valid() && got + r.Rest().0 == p && r.Rest().1 == Eof
      invariant end ==> got == p
      invariant (forall k | 0 <= k < i :: sizes[k] > 0) && !end ==> |got| >= i
    {
      var data, st := r.Read(sizes[i]);
      got := got + data;
      if st == AtEnd {
        end := true;
      }
    }
  }
}
