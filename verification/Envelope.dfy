/**
 The password-encrypted envelope of internal/secretfile: a fixed header, then authenticated chunks, each
 bound to the header, to its own counter and to an end-of-stream flag.

 The authenticated encryption is ideal. What has been sealed under a key is a table, and a chunk opens
 exactly when its nonce, additional data and ciphertext are in that table. The bytes of a ciphertext are
 those of an arbitrary function; nothing is assumed of it but the length of its results.
 */
module Envelope {
  import opened Bytes
  import opened Wrappers

  // "SELFPOST1"
  const MAGIC: Bytes := [83, 69, 76, 70, 80, 79, 83, 84, 49]

  const KDF_SCRYPT: Byte := 1
  const SALT_LEN: nat := 16
  const PREFIX_LEN: nat := 8
  const HEADER_LEN: nat := 44
  const CHUNK_SIZE: nat := 65536
  const TAG_LEN: nat := 16
  const MAX_SCRYPT_MEMORY: nat := 0x800_0000
  const MAX_R: nat := 64
  const MAX_P: nat := 2

  datatype Error = NotEncrypted | WrongPassword | Corrupt | WriteAfterClose

  // ---- the header

  datatype Header = Header(typ: Byte, logN: Byte, r: Uint32, p: Uint32, salt: Bytes, prefix: Bytes)

  ghost predicate WellSized(h: Header) {
    |h.salt| == SALT_LEN && |h.prefix| == PREFIX_LEN
  }

  function Pow2(n: nat): (p: nat)
    ensures p >= 1
  {
    if n == 0 then 1 else 2 * Pow2(n - 1)
  }

  // What a file may ask of the key derivation.
  predicate Reasonable(h: Header) {
    && 1 <= h.logN <= 30 && 1 <= h.r <= MAX_R && 1 <= h.p <= MAX_P
    && 128 * Pow2(h.logN) * h.r <= MAX_SCRYPT_MEMORY
  }

  function Marshal(h: Header): (b: Bytes)
    ensures WellSized(h) ==> |b| == HEADER_LEN
  {
    MAGIC + [h.typ, KDF_SCRYPT, h.logN] + BigEndian(h.r) + BigEndian(h.p) + h.salt + h.prefix
  }

  predicate HasMagic(b: Bytes) {
    |b| >= |MAGIC| && b[..|MAGIC|] == MAGIC
  }

  function ParseHeader(b: Bytes): (res: Result<Header, Error>)
    ensures res.Err? && res.error == NotEncrypted <==> !HasMagic(b)
    ensures res.Err? ==> res.error in {NotEncrypted, Corrupt}
    ensures res.Ok? ==> |b| == HEADER_LEN
  {
    if !HasMagic(b) then Err(NotEncrypted)
    else if |b| != HEADER_LEN then Err(Corrupt)
    else if b[10] != KDF_SCRYPT then Err(Corrupt)
    else
      var h := Header(b[9], b[11], Unsigned(b[12..16]), Unsigned(b[16..20]), b[20..36], b[36..44]);
      if Reasonable(h) then Ok(h) else Err(Corrupt)
  }

  // What parses is exactly what marshals from reasonable parameters.
  lemma HeaderRoundTrip(h: Header, b: Bytes)
    ensures WellSized(h) && b == Marshal(h) ==> ParseHeader(b) == if Reasonable(h) then Ok(h) else Err(Corrupt)
    ensures ParseHeader(b) == Ok(h) ==> b == Marshal(h) && WellSized(h) && Reasonable(h)
  {
    if WellSized(h) && b == Marshal(h) {
      assert b[..9] == MAGIC && b[9..12] == [h.typ, KDF_SCRYPT, h.logN];
      assert b[9] == b[9..12][0] && b[10] == b[9..12][1] && b[11] == b[9..12][2];
      assert b[12..16] == BigEndian(h.r) && b[16..20] == BigEndian(h.p);
      assert b[20..36] == h.salt && b[36..44] == h.prefix;
      BigEndianRoundTrip(h.r);
      BigEndianRoundTrip(h.p);
    }
    if ParseHeader(b) == Ok(h) {
      UnsignedRoundTrip(b[12..16]);
      UnsignedRoundTrip(b[16..20]);
      assert b == b[..9] + b[9..12] + b[12..16] + b[16..20] + b[20..36] + b[36..44];
    }
  }

  // The header NewWriter makes: logN 15, r 8, p 1 (128 * 2^15 * 8 is 32 MiB).
  function NewHeader(typ: Byte, salt: Bytes, prefix: Bytes): Header {
    Header(typ, 15, 8, 1, salt, prefix)
  }

  // A file may ask for 128 MiB of memory at the most, and so for 2^20 blocks of the least size.
  lemma ReasonableIs(h: Header)
    ensures Reasonable(h) <==>
            1 <= h.logN <= 20 && 1 <= h.r <= 64 && h.p in {1, 2} && Pow2(h.logN) * h.r <= 1024 * 1024
  {
    Pow2Of21();
    hide Pow2;
    if h.logN > 20 && h.r >= 1 {
      Pow2Grows(21, h.logN);
      AtLeast(Pow2(h.logN), h.r, 0x20_0000);
    }
    assert 128 * Pow2(h.logN) * h.r == 128 * (Pow2(h.logN) * h.r);
  }

  lemma Pow2Of21()
    ensures Pow2(21) == 0x20_0000
  {
    assert Pow2(5) == 32 && Pow2(10) == 1024 && Pow2(15) == 0x8000 && Pow2(20) == 0x10_0000;
  }

  lemma AtLeast(p: nat, r: nat, least: nat)
    requires p >= least && r >= 1
    ensures p * r >= least
  {
    assert p * r == p + p * (r - 1);
  }

  lemma {:induction false} Pow2Grows(m: nat, n: nat)
    requires m <= n
    ensures Pow2(m) <= Pow2(n)
    decreases n
  {
    if m < n {
      Pow2Grows(m, n - 1);
    }
  }

  // A reader accepts the work factors the writer asks for, 32 MiB of memory.
  lemma NewHeaderIsReasonable(typ: Byte, salt: Bytes, prefix: Bytes)
    ensures var h := NewHeader(typ, salt, prefix);
            && Reasonable(h) && 128 * Pow2(h.logN) * h.r == 32 * 1024 * 1024 && h.logN == 15 && h.p == 1
            && h.typ == typ && h.salt == salt && h.prefix == prefix
  {
    assert Pow2(5) == 32;
    assert Pow2(10) == 1024;
    assert Pow2(15) == 0x8000;
  }

  // ---- nonces and additional data

  // The chunk counter is 32 bits wide: the nonce of chunk number i.
  function Nonce(prefix: Bytes, i: nat): Bytes {
    prefix + BigEndian(i % TWO_32)
  }

  function ChunkAad(raw: Bytes, i: nat, last: bool): Bytes {
    raw + BigEndian(i % TWO_32) + [if last then 1 else 0]
  }

  // Two chunks of a file share a nonce exactly when they are a multiple of 2^32 apart.
  lemma NonceRepeats(prefix: Bytes, i: nat, j: nat)
    ensures Nonce(prefix, i) == Nonce(prefix, j) <==> i % TWO_32 == j % TWO_32
  {
    BigEndianRoundTrip(i % TWO_32);
    BigEndianRoundTrip(j % TWO_32);
    if Nonce(prefix, i) == Nonce(prefix, j) {
      SameSplit(prefix, BigEndian(i % TWO_32), prefix, BigEndian(j % TWO_32));
    }
  }

  // The additional data names the header, the counter and the flag.
  lemma AadInjective(raw: Bytes, i: nat, last: bool, raw': Bytes, i': nat, last': bool)
    requires |raw| == |raw'| && ChunkAad(raw, i, last) == ChunkAad(raw', i', last')
    ensures raw == raw' && i % TWO_32 == i' % TWO_32 && last == last'
  {
    SameSplit(raw + BigEndian(i % TWO_32), [if last then 1 else 0], raw' + BigEndian(i' % TWO_32),
        [if last' then 1 else 0]);
    SameSplit(raw, BigEndian(i % TWO_32), raw', BigEndian(i' % TWO_32));
    BigEndianRoundTrip(i % TWO_32);
    BigEndianRoundTrip(i' % TWO_32);
  }

  // ---- chunks and what they seal to

  // Nonce, plaintext and additional data to ciphertext and tag.
  type Aead = f: (Bytes, Bytes, Bytes) -> Bytes | forall n, p, a :: |f(n, p, a)| == |p| + TAG_LEN
    witness (n: Bytes, p: Bytes, a: Bytes) => p + seq(TAG_LEN, _ => 0)

  datatype Chunk = Chunk(plain: Bytes, last: bool)

  datatype Seal = Seal(nonce: Bytes, aad: Bytes, cipher: Bytes)

  // What has been sealed under one key, and the plaintext each opens to.
  type Table = map<Seal, Bytes>

  function SealOf(f: Aead, h: Header, i: nat, c: Chunk): Seal {
    var n, a := Nonce(h.prefix, i), ChunkAad(Marshal(h), i, c.last);
    Seal(n, a, f(n, c.plain, a))
  }

  // The end-of-stream flag is on no chunk but the last, and no chunk is over the size.
  ghost predicate Chunked(chunks: seq<Chunk>) {
    forall i | 0 <= i < |chunks| :: |chunks[i].plain| <= CHUNK_SIZE && (chunks[i].last ==> i == |chunks| - 1)
  }

  predicate Closed(chunks: seq<Chunk>) {
    |chunks| > 0 && chunks[|chunks| - 1].last
  }

  // A chunk on the stream: its length, then its ciphertext.
  function Frame(f: Aead, h: Header, i: nat, c: Chunk): (b: Bytes)
    requires |c.plain| <= CHUNK_SIZE
  {
    var s := SealOf(f, h, i, c).cipher;
    BigEndian(|s|) + s
  }

  // The chunks on the stream, from number i on.
  ghost function Frames(f: Aead, h: Header, chunks: seq<Chunk>, i: nat): Bytes
    requires Chunked(chunks) && i <= |chunks|
    decreases |chunks| - i
  {
    if i == |chunks| then [] else Frame(f, h, i, chunks[i]) + Frames(f, h, chunks, i + 1)
  }

  ghost function Plain(chunks: seq<Chunk>, i: nat): Bytes
    requires i <= |chunks|
    decreases |chunks| - i
  {
    if i == |chunks| then [] else chunks[i].plain + Plain(chunks, i + 1)
  }

  ghost function TableOf(f: Aead, h: Header, chunks: seq<Chunk>): Table {
    if chunks == [] then map[] else
      var n := |chunks| - 1;
      TableOf(f, h, chunks[..n])[SealOf(f, h, n, chunks[n]) := chunks[n].plain]
  }

  lemma {:induction false} FramesSnoc(f: Aead, h: Header, chunks: seq<Chunk>, c: Chunk, i: nat)
    requires Chunked(chunks) && !Closed(chunks) && |c.plain| <= CHUNK_SIZE && i <= |chunks|
    ensures Chunked(chunks + [c])
    ensures Frames(f, h, chunks + [c], i) == Frames(f, h, chunks, i) + Frame(f, h, |chunks|, c)
    decreases |chunks| - i
  {
    if i < |chunks| {
      FramesSnoc(f, h, chunks, c, i + 1);
    }
  }

  lemma {:induction false} PlainSnoc(chunks: seq<Chunk>, c: Chunk, i: nat)
    requires i <= |chunks|
    ensures Plain(chunks + [c], i) == Plain(chunks, i) + c.plain
    decreases |chunks| - i
  {
    if i < |chunks| {
      PlainSnoc(chunks, c, i + 1);
    }
  }

  // While the counter has not wrapped, two chunks are sealed under two nonces.
  lemma SealsDiffer(f: Aead, h: Header, i: nat, c: Chunk, j: nat, d: Chunk)
    requires i < TWO_32 && j < TWO_32 && i != j
    ensures SealOf(f, h, i, c) != SealOf(f, h, j, d)
  {
    NonceRepeats(h.prefix, i, j);
  }

  // As long as the counter has not wrapped, every chunk sealed opens to its own plaintext...
  lemma {:induction false} TableHolds(f: Aead, h: Header, chunks: seq<Chunk>, i: nat)
    requires i < |chunks| <= TWO_32
    ensures var s := SealOf(f, h, i, chunks[i]);
            s in TableOf(f, h, chunks) && TableOf(f, h, chunks)[s] == chunks[i].plain
  {
    var n := |chunks| - 1;
    if i < n {
      TableHolds(f, h, chunks[..n], i);
      SealsDiffer(f, h, i, chunks[i], n, chunks[n]);
    }
  }

  // ...and nothing else opens.
  lemma {:induction false} TableOnly(f: Aead, h: Header, chunks: seq<Chunk>, s: Seal) returns (i: nat)
    requires s in TableOf(f, h, chunks)
    ensures i < |chunks| && s == SealOf(f, h, i, chunks[i])
  {
    var n := |chunks| - 1;
    if s == SealOf(f, h, n, chunks[n]) {
      i := n;
    } else {
      i := TableOnly(f, h, chunks[..n], s);
    }
  }

  // ---- reading

  datatype End = Eof | Failed(error: Error)

  predicate Opens(t: Table, raw: Bytes, i: nat, cipher: Bytes, last: bool)
    requires |raw| == HEADER_LEN
  {
    Seal(Nonce(raw[36..], i), ChunkAad(raw, i, last), cipher) in t
  }

  function Open(t: Table, raw: Bytes, i: nat, cipher: Bytes, last: bool): Bytes
    requires |raw| == HEADER_LEN && Opens(t, raw, i, cipher, last)
  {
    t[Seal(Nonce(raw[36..], i), ChunkAad(raw, i, last), cipher)]
  }

  datatype Step = Stop(error: Error) | Got(plain: Bytes, done: bool, rest: Bytes)

  // Reader.next on the rest of the stream: what it decrypts, and what is left of the stream.
  function Next(t: Table, raw: Bytes, i: nat, input: Bytes): (s: Step)
    requires |raw| == HEADER_LEN
    ensures s.Got? ==> |s.rest| < |input|
  {
    if |input| < 4 then Stop(Corrupt) else
      var n := Unsigned(input[..4]);
      if n < TAG_LEN || n > CHUNK_SIZE + TAG_LEN then Stop(Corrupt)
      else if |input| < 4 + n then Stop(Corrupt)
      else
        var cipher, rest := input[4..4 + n], input[4 + n..];
        if Opens(t, raw, i, cipher, false) then Got(Open(t, raw, i, cipher, false), false, rest)
        else if !Opens(t, raw, i, cipher, true) then Stop(WrongPassword)
        else if rest != [] then Stop(Corrupt)
        else Got(Open(t, raw, i, cipher, true), true, [])
  }

  // All that reading hands out from chunk number i on, and how it ends.
  function Deliver(t: Table, raw: Bytes, i: nat, input: Bytes): (Bytes, End)
    requires |raw| == HEADER_LEN
    decreases |input|
  {
    match Next(t, raw, i, input)
    case Stop(e) => ([], Failed(e))
    case Got(plain, true, _) => (plain, Eof)
    case Got(plain, false, rest) =>
      var (more, end) := Deliver(t, raw, i + 1, rest);
      (plain + more, end)
  }

  // The seal a reader looks for is the one of chunk j only where header, number, flag and bytes agree.
  lemma SealMatches(f: Aead, h: Header, raw: Bytes, i: nat, cipher: Bytes, last: bool, j: nat, c: Chunk)
    requires WellSized(h) && |raw| == HEADER_LEN && i < TWO_32 && j < TWO_32
    ensures Seal(Nonce(raw[36..], i), ChunkAad(raw, i, last), cipher) == SealOf(f, h, j, c) <==>
            raw == Marshal(h) && i == j && last == c.last && cipher == SealOf(f, h, j, c).cipher
  {
    assert Marshal(h)[36..] == h.prefix;
    if ChunkAad(raw, i, last) == ChunkAad(Marshal(h), j, c.last) {
      AadInjective(raw, i, last, Marshal(h), j, c.last);
    }
  }

  // A chunk opens only where, and as, it was sealed.
  lemma OpensOnly(f: Aead, h: Header, chunks: seq<Chunk>, raw: Bytes, i: nat, cipher: Bytes, last: bool)
    requires WellSized(h) && |raw| == HEADER_LEN && |chunks| <= TWO_32 && i < TWO_32
    ensures Opens(TableOf(f, h, chunks), raw, i, cipher, last) <==>
            i < |chunks| && raw == Marshal(h) && last == chunks[i].last && cipher == SealOf(f, h, i, chunks[i]).cipher
    ensures Opens(TableOf(f, h, chunks), raw, i, cipher, last) ==>
            Open(TableOf(f, h, chunks), raw, i, cipher, last) == chunks[i].plain
  {
    var s := Seal(Nonce(raw[36..], i), ChunkAad(raw, i, last), cipher);
    if s in TableOf(f, h, chunks) {
      var j := TableOnly(f, h, chunks, s);
      SealMatches(f, h, raw, i, cipher, last, j, chunks[j]);
    }
    if i < |chunks| {
      SealMatches(f, h, raw, i, cipher, last, i, chunks[i]);
      TableHolds(f, h, chunks, i);
    }
  }

  // Fewer chunks than the counter can tell apart; or exactly that many, and the last one flagged.
  ghost predicate WithinCounter(chunks: seq<Chunk>) {
    |chunks| < TWO_32 || (|chunks| == TWO_32 && Closed(chunks))
  }

  lemma FrameParts(input: Bytes)
    requires |input| >= 4 && |input| >= 4 + Unsigned(input[..4])
    ensures var n := Unsigned(input[..4]); input == BigEndian(n) + input[4..4 + n] + input[4 + n..]
  {
    UnsignedRoundTrip(input[..4]);
    hide BigEndian, Unsigned;
  }

  // One step of next: it goes on only over the frame that was written there.
  lemma NextIntegrity(f: Aead, h: Header, chunks: seq<Chunk>, raw: Bytes, i: nat, input: Bytes)
    requires WellSized(h) && Chunked(chunks) && |chunks| <= TWO_32 && |raw| == HEADER_LEN && i < TWO_32
    ensures var s := Next(TableOf(f, h, chunks), raw, i, input);
            s.Got? ==>
              && i < |chunks| && raw == Marshal(h) && s.plain == chunks[i].plain && s.done == chunks[i].last
              && (s.done ==> s.rest == []) && input == Frame(f, h, i, chunks[i]) + s.rest
  {
    var t := TableOf(f, h, chunks);
    var s := Next(t, raw, i, input);
    hide TableOf, Marshal, SealOf, BigEndian, Unsigned, Opens, Open;
    if s.Got? {
      var cipher := NextOpens(t, raw, i, input);
      hide Next;
      OpensOnly(f, h, chunks, raw, i, cipher, s.done);
      FrameParts(input);
    }
  }

  // What a step that goes on has opened.
  lemma NextOpens(t: Table, raw: Bytes, i: nat, input: Bytes) returns (cipher: Bytes)
    requires |raw| == HEADER_LEN && Next(t, raw, i, input).Got?
    ensures var s := Next(t, raw, i, input);
            && |input| >= 4 && |input| >= 4 + Unsigned(input[..4]) && cipher == input[4..4 + Unsigned(input[..4])]
            && Opens(t, raw, i, cipher, s.done) && s.plain == Open(t, raw, i, cipher, s.done)
            && s.rest == input[4 + |cipher|..] && (s.done ==> s.rest == [])
  {
    hide Unsigned, Opens, Open;
    cipher := input[4..4 + Unsigned(input[..4])];
  }

  // And over the frame that was written there it does go on, a last chunk only at the end of the stream.
  lemma NextAccepts(f: Aead, h: Header, chunks: seq<Chunk>, i: nat, input: Bytes, rest: Bytes)
    requires WellSized(h) && Chunked(chunks) && |chunks| <= TWO_32 && i < |chunks|
    requires input == Frame(f, h, i, chunks[i]) + rest
    ensures Next(TableOf(f, h, chunks), Marshal(h), i, input) ==
            if chunks[i].last && rest != [] then Stop(Corrupt) else Got(chunks[i].plain, chunks[i].last, rest)
  {
    var s := SealOf(f, h, i, chunks[i]).cipher;
    assert |s| == |chunks[i].plain| + TAG_LEN;
    BigEndianRoundTrip(|s|);
    assert input[..4] == BigEndian(|s|) && input[4..4 + |s|] == s && input[4 + |s|..] == rest;
    OpensOnly(f, h, chunks, Marshal(h), i, s, false);
    OpensOnly(f, h, chunks, Marshal(h), i, s, true);
  }

  // Of any stream, what is handed out is a prefix of what was written, and the end of the file is
  // reported only where the stream is what was written.
  lemma {:induction false} DeliverSound(f: Aead, h: Header, chunks: seq<Chunk>, raw: Bytes, i: nat, input: Bytes)
    requires WellSized(h) && Chunked(chunks) && WithinCounter(chunks) && |raw| == HEADER_LEN
    requires i <= |chunks| && (i == |chunks| ==> !Closed(chunks))
    ensures var (out, end) := Deliver(TableOf(f, h, chunks), raw, i, input);
            && out <= Plain(chunks, i)
            && (end == Eof ==> raw == Marshal(h) && Closed(chunks))
            && (end == Eof ==> input == Frames(f, h, chunks, i) && out == Plain(chunks, i))
    decreases |input|
  {
    hide Next, Frame, TableOf, Marshal, SealOf;
    NextIntegrity(f, h, chunks, raw, i, input);
    match Next(TableOf(f, h, chunks), raw, i, input) {
      case Stop(_) =>
      case Got(plain, true, rest) =>
        assert Plain(chunks, i) == plain + Plain(chunks, i + 1);
      case Got(plain, false, rest) =>
        DeliverSound(f, h, chunks, raw, i + 1, rest);
        assert Plain(chunks, i) == plain + Plain(chunks, i + 1);
    }
  }

  lemma {:induction false} DeliverComplete(f: Aead, h: Header, chunks: seq<Chunk>, i: nat)
    requires WellSized(h) && Chunked(chunks) && |chunks| <= TWO_32 && Closed(chunks) && i < |chunks|
    ensures Deliver(TableOf(f, h, chunks), Marshal(h), i, Frames(f, h, chunks, i)) == (Plain(chunks, i), Eof)
    decreases |chunks| - i
  {
    hide Next, Frame, TableOf, Marshal, SealOf;
    var rest := Frames(f, h, chunks, i + 1);
    NextAccepts(f, h, chunks, i, Frames(f, h, chunks, i), rest);
    assert Plain(chunks, i) == chunks[i].plain + Plain(chunks, i + 1);
    if i + 1 < |chunks| {
      DeliverComplete(f, h, chunks, i + 1);
    } else {
      assert Plain(chunks, i) == chunks[i].plain;
    }
  }

  // Of any stream read under the key, whatever is handed out is a prefix of what was written, and the
  // end of the file is reported for one stream alone: the one that was written, to its end.
  lemma DeliverIntegrity(f: Aead, h: Header, chunks: seq<Chunk>, raw: Bytes, input: Bytes)
    requires WellSized(h) && Chunked(chunks) && WithinCounter(chunks) && |raw| == HEADER_LEN
    ensures var (out, end) := Deliver(TableOf(f, h, chunks), raw, 0, input);
            && out <= Plain(chunks, 0)
            && (end == Eof <==> raw == Marshal(h) && Closed(chunks) && input == Frames(f, h, chunks, 0))
            && (end == Eof ==> out == Plain(chunks, 0))
  {
    DeliverSound(f, h, chunks, raw, 0, input);
    if Closed(chunks) {
      DeliverComplete(f, h, chunks, 0);
    }
  }

  // ---- whole files

  // The chunks of a plaintext: full ones, then what is left - possibly nothing - with the end-of-stream flag.
  function Split(p: Bytes): seq<Chunk>
    decreases |p|
  {
    if |p| < CHUNK_SIZE then [Chunk(p, true)] else [Chunk(p[..CHUNK_SIZE], false)] + Split(p[CHUNK_SIZE..])
  }

  ghost predicate Full(chunks: seq<Chunk>) {
    forall i | 0 <= i < |chunks| :: |chunks[i].plain| == CHUNK_SIZE && !chunks[i].last
  }

  // Full chunks and a shorter last one are the chunks of their plaintext, wherever it was cut before.
  lemma {:induction false} SplitOf(chunks: seq<Chunk>, rest: Bytes, i: nat)
    requires Full(chunks) && |rest| < CHUNK_SIZE && i <= |chunks|
    ensures Split(Plain(chunks, i) + rest) == chunks[i..] + [Chunk(rest, true)]
    decreases |chunks| - i
  {
    if i == |chunks| {
      assert Plain(chunks, i) + rest == rest;
    } else {
      SplitOf(chunks, rest, i + 1);
      var p := Plain(chunks, i) + rest;
      assert p[..CHUNK_SIZE] == chunks[i].plain;
      assert p[CHUNK_SIZE..] == Plain(chunks, i + 1) + rest;
    }
  }

  lemma {:induction false} SplitShape(p: Bytes)
    ensures Chunked(Split(p)) && Closed(Split(p)) && Plain(Split(p), 0) == p
    ensures |Split(p)| == |p| / CHUNK_SIZE + 1
    decreases |p|
  {
    if |p| < CHUNK_SIZE {
      assert Plain(Split(p), 0) == p + Plain(Split(p), 1);
    } else {
      var more := Split(p[CHUNK_SIZE..]);
      SplitShape(p[CHUNK_SIZE..]);
      PlainCons(Chunk(p[..CHUNK_SIZE], false), more, 0);
      assert Plain(Split(p), 0) == p[..CHUNK_SIZE] + Plain(Split(p), 1);
    }
  }

  lemma {:induction false} PlainCons(c: Chunk, chunks: seq<Chunk>, i: nat)
    requires i <= |chunks|
    ensures Plain([c] + chunks, i + 1) == Plain(chunks, i)
    decreases |chunks| - i
  {
    var all := [c] + chunks;
    assert |all| == |chunks| + 1;
    if i < |chunks| {
      assert all[i + 1] == chunks[i];
      PlainCons(c, chunks, i + 1);
      assert Plain(all, i + 1) == chunks[i].plain + Plain(all, i + 2);
    }
  }

  ghost function Written(f: Aead, h: Header, chunks: seq<Chunk>): Bytes
    requires Chunked(chunks)
  {
    Marshal(h) + Frames(f, h, chunks, 0)
  }

  ghost function EnvelopeOf(f: Aead, h: Header, p: Bytes): Bytes {
    SplitShape(p);
    Written(f, h, Split(p))
  }

  // Sealing one more chunk: what it adds to the stream and to the table.
  lemma SealedNext(f: Aead, h: Header, chunks: seq<Chunk>, c: Chunk)
    requires Chunked(chunks) && !Closed(chunks) && |c.plain| <= CHUNK_SIZE
    ensures Chunked(chunks + [c])
    ensures Written(f, h, chunks + [c]) == Written(f, h, chunks) + Frame(f, h, |chunks|, c)
    ensures TableOf(f, h, chunks + [c]) == TableOf(f, h, chunks)[SealOf(f, h, |chunks|, c) := c.plain]
  {
    hide Marshal, Frame, SealOf;
    FramesSnoc(f, h, chunks, c, 0);
    assert (chunks + [c])[..|chunks|] == chunks;
  }

  // What has been sealed under the key of a password and a header's derivation parameters.
  type Keys = (Byte, Uint32, Uint32, Bytes) -> Table

  // NewReader, then reading to the end, of the file with the password.
  function ReadFile(keys: Keys, file: Bytes): (Bytes, End) {
    if |file| < HEADER_LEN then ([], Failed(if HasMagic(file) then Corrupt else NotEncrypted)) else
      match ParseHeader(file[..HEADER_LEN])
      case Err(e) => ([], Failed(e))
      case Ok(h) => Deliver(keys(h.logN, h.r, h.p, h.salt), file[..HEADER_LEN], 0, file[HEADER_LEN..])
  }

  // One envelope was sealed under its key, and nothing under the password's other keys.
  ghost predicate OneEnvelope(keys: Keys, f: Aead, h: Header, chunks: seq<Chunk>) {
    forall n: Byte, r: Uint32, p: Uint32, s: Bytes ::
      keys(n, r, p, s) == if (n, r, p, s) == (h.logN, h.r, h.p, h.salt) then TableOf(f, h, chunks) else map[]
  }

  // Of any file at all: what is handed out is a prefix of what was written, and the end is reported for
  // the finished envelope, byte for byte, and for nothing else.
  lemma FileIntegrity(keys: Keys, f: Aead, h: Header, chunks: seq<Chunk>, file: Bytes)
    requires WellSized(h) && Reasonable(h) && Chunked(chunks) && WithinCounter(chunks)
    requires OneEnvelope(keys, f, h, chunks)
    ensures ReadFile(keys, file).0 <= Plain(chunks, 0)
    ensures ReadFile(keys, file).1 == Eof <==> Closed(chunks) && file == Written(f, h, chunks)
    ensures ReadFile(keys, file).1 == Eof ==> ReadFile(keys, file).0 == Plain(chunks, 0)
  {
    hide Deliver, TableOf, Frames, Plain, Reasonable, ParseHeader, HasMagic;
    HeaderRoundTrip(h, Marshal(h));
    if |file| >= HEADER_LEN {
      var raw, input := file[..HEADER_LEN], file[HEADER_LEN..];
      assert file == raw + input;
      if ParseHeader(raw).Ok? {
        DeliverIntegrity(f, h, chunks, raw, input);
        EmptyTable(f, h);
        DeliverIntegrity(f, h, [], raw, input);
        var h' := ParseHeader(raw).value;
        assert h'.salt == h.salt || h'.salt != h.salt;
      }
    }
  }

  lemma EmptyTable(f: Aead, h: Header)
    ensures TableOf(f, h, []) == map[] && Plain([], 0) == []
  {
  }

  // A finished envelope cut anywhere, or with anything after it, never reads to its end.
  lemma TruncationIsAnError(keys: Keys, f: Aead, h: Header, p: Bytes, cut: nat, more: Bytes)
    requires WellSized(h) && Reasonable(h) && |p| / CHUNK_SIZE < TWO_32 && OneEnvelope(keys, f, h, Split(p))
    requires cut <= |EnvelopeOf(f, h, p)|
    ensures ReadFile(keys, EnvelopeOf(f, h, p)) == (p, Eof)
    ensures cut < |EnvelopeOf(f, h, p)| ==> ReadFile(keys, EnvelopeOf(f, h, p)[..cut]).1.Failed?
    ensures more != [] ==> ReadFile(keys, EnvelopeOf(f, h, p) + more).1.Failed?
  {
    hide ReadFile, TableOf, Frames, Plain, Reasonable;
    SplitShape(p);
    var file := EnvelopeOf(f, h, p);
    FileIntegrity(keys, f, h, Split(p), file);
    FileIntegrity(keys, f, h, Split(p), file[..cut]);
    FileIntegrity(keys, f, h, Split(p), file + more);
  }
}
