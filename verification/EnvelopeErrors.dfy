/** What each error of the envelope's reader means (secretfile): not an envelope, the wrong password, or damage. */
module EnvelopeErrors {
  import opened Wrappers
  import opened Bytes
  import opened Envelope

  // A length within the limits, and so many bytes.
  ghost predicate Framed(input: Bytes) {
    exists n: Uint32 :: 16 <= n <= 65536 + 16 && |input| >= 4 + n && input[..4] == BigEndian(n)
  }

  // The chunk that was written there comes next.
  ghost predicate AsWritten(f: Aead, h: Header, chunks: seq<Chunk>, raw: Bytes, i: nat, input: Bytes)
    requires Chunked(chunks)
  {
    i < |chunks| && raw == Marshal(h) && Frame(f, h, i, chunks[i]) <= input
  }

  lemma FramedIs(input: Bytes)
    ensures Framed(input) <==>
            |input| >= 4 && TAG_LEN <= Unsigned(input[..4]) <= CHUNK_SIZE + TAG_LEN
            && |input| >= 4 + Unsigned(input[..4])
  {
    if |input| >= 4 {
      UnsignedRoundTrip(input[..4]);
      forall n: Uint32 | input[..4] == BigEndian(n) ensures n == Unsigned(input[..4]) {
        BigEndianRoundTrip(n);
      }
      assert input[..4] == BigEndian(Unsigned(input[..4]));
    }
    hide BigEndian, Unsigned;
  }

  // A step of the reader fails as with a wrong password exactly if there is a whole frame and not the one that was
  // written there; and as damaged exactly if there is none, or anything after the last one.
  lemma EachErrorMeans(f: Aead, h: Header, chunks: seq<Chunk>, raw: Bytes, i: nat, input: Bytes)
    requires WellSized(h) && Chunked(chunks) && |chunks| <= TWO_32 && |raw| == HEADER_LEN && i < TWO_32
    ensures var s := Next(TableOf(f, h, chunks), raw, i, input);
            && (s == Stop(WrongPassword) <==> Framed(input) && !AsWritten(f, h, chunks, raw, i, input))
            && (s == Stop(Corrupt) <==>
                  !Framed(input)
                  || (AsWritten(f, h, chunks, raw, i, input) && chunks[i].last && input != Frame(f, h, i, chunks[i])))
            && (s.Stop? ==> s.error in {WrongPassword, Corrupt})
  {
    hide *;
    FramedIs(input);
    WrittenIsFramed(f, h, chunks, raw, i, input);
    if AsWritten(f, h, chunks, raw, i, input) {
      AcceptsWritten(f, h, chunks, raw, i, input);
    } else if Framed(input) {
      NotWritten(f, h, chunks, raw, i, input);
    } else {
      NotFramed(TableOf(f, h, chunks), raw, i, input);
    }
  }

  lemma AcceptsWritten(f: Aead, h: Header, chunks: seq<Chunk>, raw: Bytes, i: nat, input: Bytes)
    requires WellSized(h) && Chunked(chunks) && |chunks| <= TWO_32 && AsWritten(f, h, chunks, raw, i, input)
    ensures |raw| == HEADER_LEN
    ensures Next(TableOf(f, h, chunks), raw, i, input) ==
            if chunks[i].last && input != Frame(f, h, i, chunks[i]) then Stop(Corrupt)
            else Got(chunks[i].plain, chunks[i].last, input[|Frame(f, h, i, chunks[i])|..])
  {
    hide TableOf, Marshal, Next, Frame;
    var frame := Frame(f, h, i, chunks[i]);
    var rest := input[|frame|..];
    assert input == frame + rest;
    NextAccepts(f, h, chunks, i, input, rest);
    assert rest == [] <==> input == frame;
  }

  lemma NotFramed(t: Table, raw: Bytes, i: nat, input: Bytes)
    requires |raw| == HEADER_LEN
    requires !(|input| >= 4 && TAG_LEN <= Unsigned(input[..4]) <= CHUNK_SIZE + TAG_LEN
               && |input| >= 4 + Unsigned(input[..4]))
    ensures Next(t, raw, i, input) == Stop(Corrupt)
  {
    hide Opens, Open, Unsigned;
  }

  lemma WrittenIsFramed(f: Aead, h: Header, chunks: seq<Chunk>, raw: Bytes, i: nat, input: Bytes)
    requires Chunked(chunks)
    ensures AsWritten(f, h, chunks, raw, i, input) ==> Framed(input)
  {
    if AsWritten(f, h, chunks, raw, i, input) {
      var s := SealOf(f, h, i, chunks[i]).cipher;
      assert |s| == |chunks[i].plain| + TAG_LEN;
      hide SealOf, BigEndian;
      assert input[..4] == BigEndian(|s|);
    }
  }

  lemma NotWritten(f: Aead, h: Header, chunks: seq<Chunk>, raw: Bytes, i: nat, input: Bytes)
    requires WellSized(h) && Chunked(chunks) && |chunks| <= TWO_32 && |raw| == HEADER_LEN && i < TWO_32
    requires |input| >= 4 && TAG_LEN <= Unsigned(input[..4]) <= CHUNK_SIZE + TAG_LEN
    requires |input| >= 4 + Unsigned(input[..4]) && !AsWritten(f, h, chunks, raw, i, input)
    ensures Next(TableOf(f, h, chunks), raw, i, input) == Stop(WrongPassword)
  {
    hide *;
    var t, n := TableOf(f, h, chunks), Unsigned(input[..4]);
    var cipher := input[4..4 + n];
    OpensOnly(f, h, chunks, raw, i, cipher, false);
    OpensOnly(f, h, chunks, raw, i, cipher, true);
    OtherCipher(f, h, chunks, raw, i, input);
    OpensNeither(t, raw, i, input);
  }

  lemma OtherCipher(f: Aead, h: Header, chunks: seq<Chunk>, raw: Bytes, i: nat, input: Bytes)
    requires Chunked(chunks) && |input| >= 4 && |input| >= 4 + Unsigned(input[..4])
    requires !AsWritten(f, h, chunks, raw, i, input)
    ensures i < |chunks| && raw == Marshal(h) ==>
              input[4..4 + Unsigned(input[..4])] != SealOf(f, h, i, chunks[i]).cipher
  {
    UnsignedRoundTrip(input[..4]);
    hide SealOf, BigEndian, Unsigned, Marshal;
    var n := Unsigned(input[..4]);
    assert input[..4] + input[4..4 + n] == input[..4 + n];
  }

  lemma OpensNeither(t: Table, raw: Bytes, i: nat, input: Bytes)
    requires |raw| == HEADER_LEN && |input| >= 4 && TAG_LEN <= Unsigned(input[..4]) <= CHUNK_SIZE + TAG_LEN
    requires |input| >= 4 + Unsigned(input[..4])
    requires var cipher := input[4..4 + Unsigned(input[..4])];
             !Opens(t, raw, i, cipher, false) && !Opens(t, raw, i, cipher, true)
    ensures Next(t, raw, i, input) == Stop(WrongPassword)
  {
    hide Opens, Open, Unsigned;
  }

  // ---- whole files

  // Read with a password nothing was sealed under, an envelope yields nothing, and that error.
  lemma WrongPasswordIsSaid(keys: Keys, f: Aead, h: Header, p: Bytes)
    requires WellSized(h) && Reasonable(h)
    requires forall n: Byte, r: Uint32, q: Uint32, s: Bytes :: keys(n, r, q, s) == map[]
    ensures ReadFile(keys, EnvelopeOf(f, h, p)) == ([], Failed(WrongPassword))
  {
    var chunks := Split(p);
    SplitShape(p);
    HeaderRoundTrip(h, Marshal(h));
    var file, frames := EnvelopeOf(f, h, p), Frames(f, h, chunks, 0);
    assert file[..HEADER_LEN] == Marshal(h) && file[HEADER_LEN..] == frames;
    assert Frame(f, h, 0, chunks[0]) <= frames;
    WrittenIsFramed(f, h, chunks, Marshal(h), 0, frames);
    EmptyTable(f, h);
    EachErrorMeans(f, h, [], Marshal(h), 0, frames);
    hide Next, Marshal, Frame, Frames, TableOf, Framed, Split, ParseHeader, Reasonable;
  }

  // Cut short, or with bytes after it, an envelope is damaged: the error says so, and not that the password is wrong.
  lemma {:induction false} CutIsDamage(f: Aead, h: Header, chunks: seq<Chunk>, i: nat, cut: nat)
    requires WellSized(h) && Chunked(chunks) && |chunks| <= TWO_32 && Closed(chunks) && i < |chunks|
    requires cut < |Frames(f, h, chunks, i)|
    ensures Deliver(TableOf(f, h, chunks), Marshal(h), i, Frames(f, h, chunks, i)[..cut]).1 == Failed(Corrupt)
    decreases |chunks| - i
  {
    hide Next, Marshal, Frame, TableOf, Framed;
    var frame, rest := Frame(f, h, i, chunks[i]), Frames(f, h, chunks, i + 1);
    var input := Frames(f, h, chunks, i)[..cut];
    if cut < |frame| {
      PartOfAFrame(f, h, i, chunks[i], input);
      EachErrorMeans(f, h, chunks, Marshal(h), i, input);
    } else {
      assert input == frame + rest[..cut - |frame|];
      NextAccepts(f, h, chunks, i, input, rest[..cut - |frame|]);
      assert !chunks[i].last;
      CutIsDamage(f, h, chunks, i + 1, cut - |frame|);
    }
  }

  lemma PartOfAFrame(f: Aead, h: Header, i: nat, c: Chunk, input: Bytes)
    requires |c.plain| <= CHUNK_SIZE && input < Frame(f, h, i, c)
    ensures !Framed(input)
  {
    FramedIs(input);
    var s := SealOf(f, h, i, c).cipher;
    BigEndianRoundTrip(|s|);
    hide SealOf, BigEndian, Unsigned;
    if |input| >= 4 {
      assert input[..4] == Frame(f, h, i, c)[..4] == BigEndian(|s|);
    }
  }

  lemma {:induction false} MoreIsDamage(f: Aead, h: Header, chunks: seq<Chunk>, i: nat, more: Bytes)
    requires WellSized(h) && Chunked(chunks) && |chunks| <= TWO_32 && Closed(chunks) && i < |chunks| && more != []
    ensures Deliver(TableOf(f, h, chunks), Marshal(h), i, Frames(f, h, chunks, i) + more).1 == Failed(Corrupt)
    decreases |chunks| - i
  {
    hide Next, Marshal, Frame, TableOf;
    var frame, rest := Frame(f, h, i, chunks[i]), Frames(f, h, chunks, i + 1);
    assert Frames(f, h, chunks, i) + more == frame + (rest + more);
    NextAccepts(f, h, chunks, i, Frames(f, h, chunks, i) + more, rest + more);
    if !chunks[i].last {
      MoreIsDamage(f, h, chunks, i + 1, more);
    }
  }

  lemma DamageIsSaid(keys: Keys, f: Aead, h: Header, p: Bytes, cut: nat, more: Bytes)
    requires WellSized(h) && Reasonable(h) && |p| / CHUNK_SIZE < TWO_32 && OneEnvelope(keys, f, h, Split(p))
    requires cut < |EnvelopeOf(f, h, p)| && more != []
    ensures ReadFile(keys, EnvelopeOf(f, h, p)[..cut]).1 == Failed(if cut < |MAGIC| then NotEncrypted else Corrupt)
    ensures ReadFile(keys, EnvelopeOf(f, h, p) + more).1 == Failed(Corrupt)
  {
    hide *;
    var chunks := Split(p);
    SplitShape(p);
    EnvelopeIs(f, h, p);
    var file, frames := EnvelopeOf(f, h, p), Frames(f, h, chunks, 0);
    assert file + more == Marshal(h) + (frames + more);
    ReadsOn(keys, f, h, chunks, frames + more);
    MoreIsDamage(f, h, chunks, 0, more);
    if cut >= HEADER_LEN {
      assert file[..cut] == Marshal(h) + frames[..cut - HEADER_LEN];
      ReadsOn(keys, f, h, chunks, frames[..cut - HEADER_LEN]);
      CutIsDamage(f, h, chunks, 0, cut - HEADER_LEN);
    } else {
      assert file[..cut] == Marshal(h)[..cut];
      TooShort(keys, h, cut);
    }
  }

  lemma EnvelopeIs(f: Aead, h: Header, p: Bytes)
    requires WellSized(h)
    ensures Chunked(Split(p)) && Closed(Split(p))
    ensures EnvelopeOf(f, h, p) == Marshal(h) + Frames(f, h, Split(p), 0) && |Marshal(h)| == HEADER_LEN > |MAGIC|
  {
    SplitShape(p);
    hide Marshal, Frames, Split;
  }

  lemma ReadsOn(keys: Keys, f: Aead, h: Header, chunks: seq<Chunk>, stream: Bytes)
    requires WellSized(h) && Reasonable(h) && OneEnvelope(keys, f, h, chunks)
    ensures ReadFile(keys, Marshal(h) + stream) == Deliver(TableOf(f, h, chunks), Marshal(h), 0, stream)
  {
    HeaderRoundTrip(h, Marshal(h));
    var file := Marshal(h) + stream;
    assert file[..HEADER_LEN] == Marshal(h) && file[HEADER_LEN..] == stream;
    hide Deliver, Marshal, TableOf, ParseHeader, Reasonable, HasMagic;
  }

  lemma TooShort(keys: Keys, h: Header, cut: nat)
    requires WellSized(h) && cut < HEADER_LEN
    ensures ReadFile(keys, Marshal(h)[..cut]).1 == Failed(if cut < |MAGIC| then NotEncrypted else Corrupt)
  {
    MagicOf(h, cut);
    hide Deliver, ParseHeader, HasMagic;
  }

  lemma MagicOf(h: Header, cut: nat)
    requires WellSized(h) && cut < HEADER_LEN
    ensures HasMagic(Marshal(h)[..cut]) <==> cut >= |MAGIC|
  {
  }
}
