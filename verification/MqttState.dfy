/**
 * The fingerprint of Mosquitto's persistence file (scripts/updater/mqtt_state.py): a format 6 file
 * is compared as a bag of chunks whose configuration chunk has lost its volatile bytes, anything
 * else byte by byte. Chunk digests come from an injective hash `h`; the outer digests are
 * represented by what they are taken of.
 */
module MqttState {
  import opened Outcomes

  type byte = b: int | 0 <= b < 256
  type Bytes = seq<byte>

  const MAGIC: Bytes := [0x00, 0xB5, 0x00, 'm' as int, 'o' as int, 's' as int, 'q' as int, 'u' as int, 'i' as int,
                         't' as int, 't' as int, 'o' as int, ' ' as int, 'd' as int, 'b' as int]
  const HEADER_SIZE: nat := 23
  const MAX_CHUNKS: nat := 1_000_000
  const MAX_CHUNK_SIZE: nat := 16 * 1024 * 1024

  datatype Fingerprint = Raw(file: Bytes) | MosquittoV6(header: Bytes, chunks: seq<nat>)

  function BigEndian(b: Bytes): nat
    requires |b| == 4
  {
    ((b[0] as int * 256 + b[1]) * 256 + b[2]) * 256 + b[3]
  }

  predicate HeaderOk(header: Bytes) {
    && |header| == HEADER_SIZE
    && header[..15] == MAGIC
    && header[15..19] == [0, 0, 0, 0]
    && BigEndian(header[19..23]) == 6
  }

  // ----- the specification: a recursive parser

  function Kind(chunk: Bytes): nat
    requires |chunk| >= 8
  {
    BigEndian(chunk[..4])
  }

  predicate ChunkOk(chunk: Bytes) {
    |chunk| >= 8 && (Kind(chunk) == 1 ==> |chunk| == 24)
  }

  /** A block header with its payload. */
  type Chunk = c: Bytes | ChunkOk(c) witness [0, 0, 0, 2, 0, 0, 0, 0]

  /** The first chunk of `rest`, block header included, if it is well formed. */
  function FirstChunk(rest: Bytes): (c: Option<Chunk>)
    ensures c.Some? ==> |c.value| <= |rest| && c.value == rest[..|c.value|]
  {
    if |rest| < 8 then None
    else
      var kind, length := BigEndian(rest[..4]), BigEndian(rest[4..8]);
      if kind < 1 || kind > 6 || length > MAX_CHUNK_SIZE || |rest| < 8 + length then None
      else if kind == 1 && (length != 16 || rest[8 + 9] != 8) then None
      else
        assert rest[..8 + length][..4] == rest[..4];
        Some(rest[..8 + length])
  }

  /** All chunks of `rest`, of which `before` precede it in the file. */
  function Chunks(rest: Bytes, before: nat): Option<seq<Chunk>>
    decreases |rest|
  {
    if rest == [] then Some([])
    else if before > MAX_CHUNKS then None
    else
      var first := FirstChunk(rest);
      if first.None? then None
      else
        var more := Chunks(rest[|first.value|..], before + 1);
        if more.None? then None else Some([first.value] + more.value)
  }

  function Configurations(chunks: seq<Chunk>): nat {
    if chunks == [] then 0 else (if Kind(chunks[0]) == 1 then 1 else 0) + Configurations(chunks[1..])
  }

  /** The chunks of a format 6 file, as they stand in it. */
  function Parse(file: Bytes): Option<seq<Chunk>> {
    if |file| < HEADER_SIZE || !HeaderOk(file[..HEADER_SIZE]) then None
    else
      var chunks := Chunks(file[HEADER_SIZE..], 0);
      if chunks.None? || Configurations(chunks.value) != 1 then None else chunks
  }

  const NINE_ZEROES: Bytes := [0, 0, 0, 0, 0, 0, 0, 0, 0]

  /** A chunk without the allocation counter and the shutdown marker of the configuration. */
  function Canonical(chunk: Chunk): (r: Chunk)
    ensures |r| == |chunk| && Kind(r) == Kind(chunk)
  {
    if Kind(chunk) == 1 then
      var r := chunk[..8] + NINE_ZEROES + chunk[17..];
      assert r[..4] == chunk[..4];
      r
    else chunk
  }

  function CanonicalAll(chunks: seq<Chunk>): (r: seq<Chunk>)
    ensures |r| == |chunks|
  {
    if chunks == [] then [] else [Canonical(chunks[0])] + CanonicalAll(chunks[1..])
  }

  function Digests(h: Bytes -> nat, chunks: seq<Bytes>): (r: seq<nat>)
    ensures |r| == |chunks|
  {
    if chunks == [] then [] else [h(chunks[0])] + Digests(h, chunks[1..])
  }

  // ----- what the parser accepts: an encoder of the format

  /** A number as four bytes, the most significant first. */
  function Encoded(n: nat): (b: Bytes)
    requires n < 0x1_0000_0000
    ensures |b| == 4
  {
    [n / 0x100_0000, n / 0x1_0000 % 0x100, n / 0x100 % 0x100, n % 0x100]
  }

  lemma EncodedReadsBack(n: nat)
    requires n < 0x1_0000_0000
    ensures BigEndian(Encoded(n)) == n
  {
    assert n / 0x100 == n / 0x1_0000 * 0x100 + n / 0x100 % 0x100;
    assert n / 0x1_0000 == n / 0x100_0000 * 0x100 + n / 0x1_0000 % 0x100;
  }

  /** A payload of one of the six kinds; that of the configuration is 16 bytes with a fixed one. */
  predicate PayloadOk(kind: nat, payload: Bytes) {
    1 <= kind <= 6 && |payload| <= 16777216 && (kind == 1 ==> |payload| == 16 && payload[9] == 8)
  }

  function Block(kind: nat, payload: Bytes): (c: Chunk)
    requires PayloadOk(kind, payload)
    ensures Kind(c) == kind && |c| == 8 + |payload|
  {
    var c := Encoded(kind) + Encoded(|payload|) + payload;
    EncodedReadsBack(kind);
    assert c[..4] == Encoded(kind);
    c
  }

  ghost predicate IsBlock(c: Bytes) {
    exists kind: nat, payload: Bytes | PayloadOk(kind, payload) :: c == Block(kind, payload)
  }

  lemma BlockIsRead(kind: nat, payload: Bytes, rest: Bytes)
    requires PayloadOk(kind, payload)
    ensures FirstChunk(Block(kind, payload) + rest) == Some(Block(kind, payload))
  {
    var c := Block(kind, payload);
    var file := c + rest;
    EncodedReadsBack(kind);
    EncodedReadsBack(|payload|);
    assert file[..4] == Encoded(kind) && file[4..8] == Encoded(|payload|);
    assert file[..8 + |payload|] == c && c[8..] == payload;
    assert kind == 1 ==> file[8 + 9] == payload[9];
  }

  function Joined(chunks: seq<Bytes>): Bytes {
    if chunks == [] then [] else chunks[0] + Joined(chunks[1..])
  }

  lemma OneBlockMore(c: Chunk, rest: Bytes, before: nat, more: seq<Chunk>)
    requires IsBlock(c) && before <= MAX_CHUNKS && Chunks(rest, before + 1) == Some(more)
    ensures Chunks(c + rest, before) == Some([c] + more)
  {
    var kind: nat, payload: Bytes :| PayloadOk(kind, payload) && c == Block(kind, payload);
    BlockIsRead(kind, payload, rest);
    assert (c + rest)[|c|..] == rest;
  }

  lemma {:induction false} BlocksAreRead(chunks: seq<Chunk>, before: nat)
    requires forall c | c in chunks :: IsBlock(c)
    requires before + |chunks| <= 1_000_001
    ensures Chunks(Joined(chunks), before) == Some(chunks)
    decreases |chunks|
  {
    if chunks != [] {
      assert chunks[0] in chunks && forall c | c in chunks[1..] :: c in chunks;
      BlocksAreRead(chunks[1..], before + 1);
      OneBlockMore(chunks[0], Joined(chunks[1..]), before, chunks[1..]);
      assert chunks == [chunks[0]] + chunks[1..];
    }
  }

  const HEADER: Bytes := MAGIC + [0, 0, 0, 0] + [0, 0, 0, 6]

  lemma HeaderIsOk()
    ensures |HEADER| == HEADER_SIZE && HeaderOk(HEADER)
  {
    assert HEADER[..15] == MAGIC && HEADER[15..19] == [0, 0, 0, 0] && HEADER[19..23] == [0, 0, 0, 6];
    assert BigEndian([0, 0, 0, 6]) == 6;
  }

  lemma HeaderIsCutOff(header: Bytes, rest: Bytes)
    ensures (header + rest)[..|header|] == header && (header + rest)[|header|..] == rest
  {
  }

  /** A file of the format, with one configuration among its chunks, is read back chunk by chunk. */
  lemma FormatIsRead(chunks: seq<Chunk>, file: Bytes)
    requires (forall c | c in chunks :: IsBlock(c)) && |chunks| <= 1_000_001 && Configurations(chunks) == 1
    requires file == HEADER + Joined(chunks)
    ensures Parse(file) == Some(chunks)
  {
    HeaderIsOk();
    HeaderIsCutOff(HEADER, Joined(chunks));
    BlocksAreRead(chunks, 0);
  }

  // ----- sorting

  function Insert(x: nat, s: seq<nat>): seq<nat> {
    if s == [] || x <= s[0] then [x] + s else [s[0]] + Insert(x, s[1..])
  }

  function Sorted(s: seq<nat>): seq<nat> {
    if s == [] then [] else Insert(s[0], Sorted(s[1..]))
  }

  ghost predicate Ascending(s: seq<nat>) {
    forall i, j | 0 <= i < j < |s| :: s[i] <= s[j]
  }

  lemma {:induction false} InsertKeepsAll(x: nat, s: seq<nat>)
    ensures multiset(Insert(x, s)) == multiset(s) + multiset{x}
  {
    if s != [] && x > s[0] {
      InsertKeepsAll(x, s[1..]);
      assert s == [s[0]] + s[1..];
    }
  }

  lemma {:induction false} InsertSorts(x: nat, s: seq<nat>)
    requires Ascending(s)
    ensures Ascending(Insert(x, s))
  {
    if s != [] && x > s[0] {
      var rest := Insert(x, s[1..]);
      InsertSorts(x, s[1..]);
      InsertKeepsAll(x, s[1..]);
      forall j | 0 <= j < |rest| ensures s[0] <= rest[j] {
        assert rest[j] in multiset(rest);
        assert rest[j] == x || rest[j] in s[1..];
      }
    }
  }

  lemma {:induction false} SortedSorts(s: seq<nat>)
    ensures Ascending(Sorted(s)) && multiset(Sorted(s)) == multiset(s)
  {
    if s != [] {
      SortedSorts(s[1..]);
      InsertSorts(s[0], Sorted(s[1..]));
      InsertKeepsAll(s[0], Sorted(s[1..]));
      assert s == [s[0]] + s[1..];
    }
  }

  lemma {:induction false} AscendingIsUnique(a: seq<nat>, b: seq<nat>)
    requires Ascending(a) && Ascending(b) && multiset(a) == multiset(b)
    ensures a == b
  {
    if a == [] {
      assert |multiset(b)| == 0;
    } else {
      assert |multiset(a)| == |multiset(b)|;
      assert a[0] in multiset(b) && b[0] in multiset(a);
      assert a[0] == b[0];
      assert a == [a[0]] + a[1..] && b == [b[0]] + b[1..];
      assert multiset(a[1..]) == multiset(a) - multiset{a[0]};
      assert multiset(b[1..]) == multiset(b) - multiset{b[0]};
      AscendingIsUnique(a[1..], b[1..]);
    }
  }

  // ----- the fingerprint and what it distinguishes

  ghost predicate Injective(h: Bytes -> nat) {
    forall x, y :: h(x) == h(y) ==> x == y
  }

  lemma {:induction false} DigestCount(h: Bytes -> nat, chunks: seq<Bytes>, c: Bytes)
    requires Injective(h)
    ensures multiset(Digests(h, chunks))[h(c)] == multiset(chunks)[c]
  {
    if chunks != [] {
      DigestCount(h, chunks[1..], c);
      assert chunks == [chunks[0]] + chunks[1..];
    }
  }

  lemma {:induction false} DigestOrigin(h: Bytes -> nat, chunks: seq<Bytes>, d: nat)
    requires d in Digests(h, chunks)
    ensures exists c :: c in chunks && h(c) == d
  {
    if d == h(chunks[0]) {
      assert chunks[0] in chunks;
    } else {
      DigestOrigin(h, chunks[1..], d);
      var c :| c in chunks[1..] && h(c) == d;
      assert c in chunks;
    }
  }

  /** Digests of two bags of chunks agree exactly when the bags do. */
  lemma DigestsFaithful(h: Bytes -> nat, a: seq<Bytes>, b: seq<Bytes>)
    requires Injective(h)
    ensures multiset(Digests(h, a)) == multiset(Digests(h, b)) <==> multiset(a) == multiset(b)
  {
    var da, db := multiset(Digests(h, a)), multiset(Digests(h, b));
    if da == db {
      forall c ensures multiset(a)[c] == multiset(b)[c] {
        DigestCount(h, a, c);
        DigestCount(h, b, c);
      }
    }
    if multiset(a) == multiset(b) {
      forall d: nat ensures da[d] == db[d] {
        if d in da {
          DigestOrigin(h, a, d);
          var c :| c in a && h(c) == d;
          DigestCount(h, a, c);
          DigestCount(h, b, c);
        } else if d in db {
          DigestOrigin(h, b, d);
          var c :| c in b && h(c) == d;
          DigestCount(h, a, c);
          DigestCount(h, b, c);
        }
      }
    }
  }

  function FingerprintOf(h: Bytes -> nat, file: Bytes): Fingerprint {
    var chunks := Parse(file);
    if chunks.None? then Raw(file)
    else MosquittoV6(file[..HEADER_SIZE], Sorted(Digests(h, CanonicalAll(chunks.value))))
  }

  /** There is only one acceptable header. */
  lemma HeaderIsUnique(a: Bytes, b: Bytes)
    requires HeaderOk(a) && HeaderOk(b)
    ensures a == b
  {
    assert a == a[..15] + a[15..19] + a[19..23];
    assert b == b[..15] + b[15..19] + b[19..23];
    assert a[19..23] == [0, 0, 0, 6];
    assert b[19..23] == [0, 0, 0, 6];
  }

  /**
   * Two files have the same fingerprint exactly when they are identical byte for byte or are both
   * format 6 with the same bag of canonical chunks.
   */
  lemma SameFingerprint(h: Bytes -> nat, f: Bytes, g: Bytes)
    requires Injective(h)
    ensures FingerprintOf(h, f) == FingerprintOf(h, g) <==>
              || f == g
              || (Parse(f).Some? && Parse(g).Some?
                  && multiset(CanonicalAll(Parse(f).value)) == multiset(CanonicalAll(Parse(g).value)))
  {
    if Parse(f).Some? && Parse(g).Some? {
      var a, b := CanonicalAll(Parse(f).value), CanonicalAll(Parse(g).value);
      HeaderIsUnique(f[..HEADER_SIZE], g[..HEADER_SIZE]);
      DigestsFaithful(h, a, b);
      SortedSorts(Digests(h, a));
      SortedSorts(Digests(h, b));
      if multiset(a) == multiset(b) {
        AscendingIsUnique(Sorted(Digests(h, a)), Sorted(Digests(h, b)));
      }
    }
  }

  /** Nothing else is ignored: canonical chunks differ unless only those nine bytes do. */
  lemma CanonicalForgetsNineBytes(a: Chunk, b: Chunk)
    ensures Canonical(a) == Canonical(b) <==>
              a == b || (Kind(a) == 1 && Kind(b) == 1 && a[..8] == b[..8] && a[17..] == b[17..])
  {
    if Kind(a) == 1 && Kind(b) == 1 {
      assert Canonical(a)[..8] == a[..8] && Canonical(a)[17..] == a[17..];
      assert Canonical(b)[..8] == b[..8] && Canonical(b)[17..] == b[17..];
    }
  }

  // ----- the reading loop

  lemma {:induction false} ChunksExtend(read: seq<Chunk>, c: Chunk)
    ensures Configurations(read + [c]) == Configurations(read) + (if Kind(c) == 1 then 1 else 0)
    ensures CanonicalAll(read + [c]) == CanonicalAll(read) + [Canonical(c)]
  {
    if read != [] {
      assert (read + [c])[1..] == read[1..] + [c];
      ChunksExtend(read[1..], c);
    }
  }

  lemma {:induction false} DigestsExtend(h: Bytes -> nat, chunks: seq<Bytes>, c: Bytes)
    ensures Digests(h, chunks + [c]) == Digests(h, chunks) + [h(c)]
  {
    if chunks != [] {
      assert (chunks + [c])[1..] == chunks[1..] + [c];
      DigestsExtend(h, chunks[1..], c);
    }
  }

  /** What is left to read decides the rest of the parse. */
  ghost predicate Agrees(whole: Option<seq<Chunk>>, read: seq<Chunk>, rest: Option<seq<Chunk>>) {
    if rest.None? then whole.None? else whole == Some(read + rest.value)
  }

  lemma SameBlock(file: Bytes, position: nat)
    requires position + 8 <= |file|
    ensures var rest, block := file[position..], file[position..position + 8];
            rest[..4] == block[..4] && rest[4..8] == block[4..8]
  {
    var rest, block := file[position..], file[position..position + 8];
    assert rest[..8] == block;
    assert rest[4..8] == rest[..8][4..8];
  }

  lemma SameChunk(file: Bytes, position: nat, length: nat)
    requires position + 8 + length <= |file|
    ensures var rest, chunk := file[position..], file[position..position + 8 + length];
            && rest[..8 + length] == chunk
            && rest[8 + length..] == file[position + 8 + length..]
            && chunk == file[position..position + 8] + file[position + 8..position + 8 + length]
            && chunk[..4] == file[position..position + 8][..4]
            && (length == 16 ==> chunk[..8] + NINE_ZEROES + chunk[17..]
                                 == file[position..position + 8]
                                    + (NINE_ZEROES + file[position + 8..position + 8 + length][9..]))
  {
  }

  lemma AgreesFurther(file: Bytes, position: nat, whole: Option<seq<Chunk>>, read: seq<Chunk>, c: Chunk)
    requires position < |file| && |read| <= MAX_CHUNKS && FirstChunk(file[position..]) == Some(c)
    requires Agrees(whole, read, Chunks(file[position..], |read|))
    ensures Agrees(whole, read + [c], Chunks(file[position + |c|..], |read| + 1))
  {
    assert file[position..][|c|..] == file[position + |c|..];
    var rest := Chunks(file[position + |c|..], |read| + 1);
    assert rest.Some? ==> read + ([c] + rest.value) == (read + [c]) + rest.value;
  }

  lemma DigestedFurther(h: Bytes -> nat, read: seq<Chunk>, c: Chunk)
    ensures Digests(h, CanonicalAll(read + [c])) == Digests(h, CanonicalAll(read)) + [h(Canonical(c))]
    ensures Configurations(read + [c]) == Configurations(read) + (if Kind(c) == 1 then 1 else 0)
  {
    ChunksExtend(read, c);
    DigestsExtend(h, CanonicalAll(read), Canonical(c));
  }

  /** Reads the next chunk, and the bytes of it that are digested. */
  method ReadChunk(file: Bytes, position: nat) returns (chunk: Option<Chunk>, digested: Bytes)
    requires position < |file|
    ensures chunk == FirstChunk(file[position..])
    ensures chunk.Some? ==> digested == Canonical(chunk.value)
  {
    digested := [];
    if |file| - position < 8 {
      return None, digested;
    }
    var block := file[position..position + 8];
    SameBlock(file, position);
    var kind, length := BigEndian(block[..4]), BigEndian(block[4..8]);
    if kind < 1 || kind > 6 || length > MAX_CHUNK_SIZE || |file| - position - 8 < length {
      return None, digested;
    }
    var payload := file[position + 8..position + 8 + length];
    SameChunk(file, position, length);
    if kind == 1 {
      if length != 16 || payload[9] != 8 {
        return None, digested;
      }
      payload := NINE_ZEROES + payload[9..];
    }
    chunk, digested := Some(file[position..position + 8 + length]), block + payload;
  }

  /** Reads the file once, front to back. */
  method ComputeFingerprint(h: Bytes -> nat, file: Bytes) returns (f: Fingerprint)
    ensures f == FingerprintOf(h, file)
  {
    if |file| < HEADER_SIZE || !HeaderOk(file[..HEADER_SIZE]) {
      return Raw(file);
    }
    var chunks: seq<nat> := [];
    var configuration := 0;
    var position := HEADER_SIZE;
    ghost var whole := Chunks(file[HEADER_SIZE..], 0);
    ghost var read: seq<Chunk> := [];
    assert whole.Some? ==> [] + whole.value == whole.value;
    while position < |file|
      invariant HEADER_SIZE <= position <= |file|
      invariant |read| == |chunks|
      invariant Agrees(whole, read, Chunks(file[position..], |read|))
      invariant chunks == Digests(h, CanonicalAll(read))
      invariant configuration == Configurations(read)
    {
      if |chunks| > MAX_CHUNKS {
        return Raw(file);
      }
      var chunk, digested := ReadChunk(file, position);
      if chunk.None? {
        return Raw(file);
      }
      if Kind(chunk.value) == 1 {
        configuration := configuration + 1;
      }
      AgreesFurther(file, position, whole, read, chunk.value);
      DigestedFurther(h, read, chunk.value);
      chunks := chunks + [h(digested)];
      read := read + [chunk.value];
      position := position + |chunk.value|;
    }
    assert read + [] == read;
    if configuration != 1 {
      return Raw(file);
    }
    f := MosquittoV6(file[..HEADER_SIZE], Sorted(chunks));
  }
}
