/** What the reader makes of a file the writer has written. */
module RoundTrip {
  import opened Wire
  import opened Arith
  import opened Blocks
  import opened Insertion
  import opened Crc
  import opened SparseFormat
  import opened SparseFormatReader

  // ---- finding the parts of a buffer ----

  predicate At(buf: seq<byte>, offset: nat, s: seq<byte>) {
    offset + |s| <= |buf| && buf[offset..offset + |s|] == s
  }

  lemma AtParts(buf: seq<byte>, offset: nat, a: seq<byte>, b: seq<byte>)
    requires At(buf, offset, a + b)
    ensures At(buf, offset, a) && At(buf, offset + |a|, b)
  {
    var n := |a| + |b|;
    assert buf[offset..offset + n][..|a|] == a;
    assert buf[offset..offset + n][|a|..] == b;
    assert buf[offset..offset + |a|] == buf[offset..offset + n][..|a|];
    assert buf[offset + |a|..offset + n] == buf[offset..offset + n][|a|..];
  }

  // ---- headers ----

  lemma HeaderDecodes(bs: u32, totalBlks: u32, totalChunks: u32)
    ensures DecodeHeader(SparseHeader(bs, totalBlks, totalChunks)) ==
      Header(SPARSE_HEADER_MAGIC, 1, 28, 12, bs, totalBlks, totalChunks)
  {
    hide Le16, Le32, FromLe16, FromLe32;
    var s := SparseHeader(bs, totalBlks, totalChunks);
    assert s[0..4] == Le32(SPARSE_HEADER_MAGIC);
    assert s[4..6] == Le16(1);
    assert s[8..10] == Le16(28);
    assert s[10..12] == Le16(12);
    assert s[12..16] == Le32(bs);
    assert s[16..20] == Le32(totalBlks);
    assert s[20..24] == Le32(totalChunks);
    Le32RoundTrip(SPARSE_HEADER_MAGIC);
    Le16RoundTrip(1);
    Le16RoundTrip(28);
    Le16RoundTrip(12);
    Le32RoundTrip(bs);
    Le32RoundTrip(totalBlks);
    Le32RoundTrip(totalChunks);
  }

  lemma ChunkHeadDecodes(kind: u16, blocks: nat, payload: nat)
    ensures DecodeChunkHead(ChunkHeader(kind, blocks, payload)) ==
      ChunkHead(kind, Trunc32(blocks), Trunc32(CHUNK_HEADER_LEN + payload))
  {
    hide Le16, Le32, FromLe16, FromLe32;
    var s := ChunkHeader(kind, blocks, payload);
    assert s[0..2] == Le16(kind);
    assert s[4..8] == Le32(Trunc32(blocks));
    assert s[8..12] == Le32(Trunc32(CHUNK_HEADER_LEN + payload));
    Le16RoundTrip(kind);
    Le32RoundTrip(Trunc32(blocks));
    Le32RoundTrip(Trunc32(CHUNK_HEADER_LEN + payload));
  }

  // ---- what chunks stand for ----

  /** Every byte a chunk stands for, with zeros where it says nothing. */
  function Expand(bs: nat, c: Chunk): seq<byte> {
    match c
    case RawChunk(_, data) => data
    case FillChunk(n, v) => FillPattern(v, n * bs)
    case DontCareChunk(n) => Zeros(n * bs)
    case CrcChunk(_) => []
  }

  function ExpandAll(bs: nat, cs: seq<Chunk>): seq<byte> {
    if cs == [] then [] else Expand(bs, cs[0]) + ExpandAll(bs, cs[1..])
  }

  /** The bytes a chunk puts at block `at`. */
  ghost function ChunkMap(bs: nat, at: nat, c: Chunk): map<nat, byte> {
    if c.RawChunk? || c.FillChunk? then Region(at * bs, Expand(bs, c)) else map[]
  }

  ghost function ChunksMap(bs: nat, at: nat, cs: seq<Chunk>): map<nat, byte>
    decreases |cs|
  {
    if cs == [] then map[] else ChunkMap(bs, at, cs[0]) + ChunksMap(bs, at + ChunkBlocks(cs[0]), cs[1..])
  }

  /** A chunk of at least one block whose payload is that many blocks; no checksum. */
  predicate Solid(bs: nat, c: Chunk) {
    !c.CrcChunk? && c.blocks > 0 && (c.RawChunk? ==> |c.data| == c.blocks * bs)
  }

  predicate AllSolid(bs: nat, cs: seq<Chunk>) {
    forall i :: 0 <= i < |cs| ==> Solid(bs, cs[i])
  }

  /** What the format's fields can carry: a block count that survives `int`, a payload below 4 GiB. */
  predicate Representable(c: Chunk) {
    ChunkBlocks(c) < I32 && (c.RawChunk? ==> |c.data| < U32)
  }

  predicate AllRepresentable(cs: seq<Chunk>) {
    forall i :: 0 <= i < |cs| ==> Representable(cs[i])
  }

  // ---- reading one chunk ----

  function BlockRead(r: Reader, c: Chunk, bs: nat, buf: seq<byte>): Block {
    if c.RawChunk? then Block(r.block, |c.data|, Data(buf, r.offset + CHUNK_HEADER_LEN))
    else if c.FillChunk? then Block(r.block, c.blocks * bs, Fill(c.fillVal))
    else Block(r.block, 0, Fill(0))
  }

  function SumAfter(crc: bool, sum: bv32, s: seq<byte>): bv32 {
    if crc then Crc32(sum, s) else sum
  }

  /** The reader behind chunk `c`. */
  function Behind(buf: seq<byte>, bs: nat, r: Reader, c: Chunk, crc: bool): Reader
    requires bs > 0
  {
    Reader(r.offset + CHUNK_HEADER_LEN + |Payload(c)|,
           Trunc32(r.block + ChunkBlocks(c)),
           if c.RawChunk? || c.FillChunk? then Insert(bs, r.blocks, BlockRead(r, c, bs, buf)) else r.blocks,
           SumAfter(crc, r.sum, Expand(bs, c)))
  }

  function BehindAll(buf: seq<byte>, bs: nat, r: Reader, cs: seq<Chunk>, crc: bool): Reader
    requires bs > 0
    decreases |cs|
  {
    if cs == [] then r else BehindAll(buf, bs, Behind(buf, bs, r, cs[0], crc), cs[1..], crc)
  }

  lemma ReadHead(buf: seq<byte>, bs: nat, r: Reader, c: Chunk, crc: bool)
    requires bs > 0 && At(buf, r.offset, EncodeChunk(c))
    ensures At(buf, r.offset + CHUNK_HEADER_LEN, Payload(c))
    ensures ReadChunk(buf, bs, 12, r, crc) ==
      ProcessChunk(buf, bs, 12, ChunkHead(ChunkType(c), Trunc32(ChunkBlocks(c)), Trunc32(CHUNK_HEADER_LEN + |Payload(c)|)),
                   r.(offset := r.offset + CHUNK_HEADER_LEN), crc)
  {
    hide ProcessChunk, ChunkHeader, Payload, DecodeChunkHead;
    AtParts(buf, r.offset, ChunkHeader(ChunkType(c), ChunkBlocks(c), |Payload(c)|), Payload(c));
    ChunkHeadDecodes(ChunkType(c), ChunkBlocks(c), |Payload(c)|);
  }

  lemma PayloadSize(n: nat)
    ensures Trunc32(Trunc32(CHUNK_HEADER_LEN + n) - 12) == Trunc32(n)
  {
  }

  /** The payload size only passes the reader's two checks when none of it was truncated away. */
  lemma SizeChecks(bs: nat, n: nat, blocks: nat)
    requires bs > 0 && blocks > 0 && n == blocks * bs
    ensures Trunc32(n) % bs == 0 && Trunc32(n) / bs == blocks <==> n < U32
  {
    DivRoundUpOfMultiple(blocks, bs);
    DivMod(Trunc32(n), bs);
    assert Trunc32(n) % bs == 0 && Trunc32(n) / bs == blocks ==> Trunc32(n) == bs * blocks;
  }

  lemma ReadRawChunk(buf: seq<byte>, bs: nat, r: Reader, c: Chunk, crc: bool)
    requires bs > 0 && Solid(bs, c) && c.RawChunk? && c.blocks < U32
    requires At(buf, r.offset + CHUNK_HEADER_LEN, c.data) && !HasStart(r.blocks, r.block)
    ensures var got := ChunkBody(buf, bs, Trunc32(|c.data|), ChunkType(c), c.blocks, r.(offset := r.offset + CHUNK_HEADER_LEN), crc);
      if |c.data| < U32 then got == Ok(Behind(buf, bs, r, c, crc).(block := r.block)) else got == Err(Invalid)
  {
    hide Insert, HasStart, Crc32;
    SizeChecks(bs, |c.data|, c.blocks);
    MulMono(1, c.blocks, bs);
    var at := r.offset + CHUNK_HEADER_LEN;
    assert Access(buf, at, |c.data|).Ok?;
  }

  lemma ReadFillChunk(buf: seq<byte>, bs: nat, r: Reader, c: Chunk, crc: bool)
    requires bs > 0 && Solid(bs, c) && c.FillChunk? && c.blocks < U32
    requires At(buf, r.offset + CHUNK_HEADER_LEN, Le32(c.fillVal)) && !HasStart(r.blocks, r.block)
    ensures ChunkBody(buf, bs, 4, ChunkType(c), c.blocks, r.(offset := r.offset + CHUNK_HEADER_LEN), crc) ==
      Ok(Behind(buf, bs, r, c, crc).(block := r.block))
  {
    hide Insert, HasStart, Crc32, Le32, FillPattern;
    Le32RoundTrip(c.fillVal);
  }

  lemma ReadSkipChunk(buf: seq<byte>, bs: nat, r: Reader, c: Chunk, crc: bool)
    requires bs > 0 && Solid(bs, c) && c.DontCareChunk? && c.blocks < U32
    ensures ChunkBody(buf, bs, 0, ChunkType(c), c.blocks, r.(offset := r.offset + CHUNK_HEADER_LEN), crc) ==
      Ok(Behind(buf, bs, r, c, crc).(block := r.block))
  {
  }

  lemma KnownKind(buf: seq<byte>, bs: nat, h: ChunkHead, r: Reader, crc: bool, body: Result<Reader>)
    requires bs > 0 && h.kind in {CHUNK_TYPE_RAW, CHUNK_TYPE_FILL, CHUNK_TYPE_DONT_CARE}
    requires body == ChunkBody(buf, bs, Trunc32(h.totalSz - 12), h.kind, h.chunkSz, r, crc)
    ensures body.Err? ==> ProcessChunk(buf, bs, 12, h, r, crc) == body
    ensures body.Ok? && h.chunkSz >= I32 ==> ProcessChunk(buf, bs, 12, h, r, crc) == Err(Invalid)
    ensures body.Ok? && h.chunkSz < I32 ==>
      ProcessChunk(buf, bs, 12, h, r, crc) == Ok(body.value.(block := Trunc32(body.value.block + h.chunkSz)))
  {
    hide ChunkBody;
  }

  lemma BlockAfter(buf: seq<byte>, bs: nat, r: Reader, c: Chunk, crc: bool)
    requires bs > 0
    ensures var r1 := Behind(buf, bs, r, c, crc); r1 == r1.(block := Trunc32(r.block + ChunkBlocks(c)))
  {
  }

  lemma BodyRead(buf: seq<byte>, bs: nat, r: Reader, c: Chunk, crc: bool)
    requires bs > 0 && Solid(bs, c) && c.blocks < U32
    requires At(buf, r.offset + CHUNK_HEADER_LEN, Payload(c)) && !HasStart(r.blocks, r.block)
    ensures ChunkType(c) in {CHUNK_TYPE_RAW, CHUNK_TYPE_FILL, CHUNK_TYPE_DONT_CARE}
    ensures var got := ChunkBody(buf, bs, Trunc32(|Payload(c)|), ChunkType(c), c.blocks, r.(offset := r.offset + CHUNK_HEADER_LEN), crc);
      if c.RawChunk? && |c.data| >= U32 then got == Err(Invalid) else got == Ok(Behind(buf, bs, r, c, crc).(block := r.block))
  {
    hide ChunkBody, Insert, HasStart, Crc32, At, Le32, SumAfter, Expand, BlockRead, Behind;
    match c
    case RawChunk(_, _) => ReadRawChunk(buf, bs, r, c, crc);
    case FillChunk(_, _) => ReadFillChunk(buf, bs, r, c, crc);
    case DontCareChunk(_) => ReadSkipChunk(buf, bs, r, c, crc);
  }

  /** One written chunk, read back: exactly the representable ones are taken. */
  lemma ReadOne(buf: seq<byte>, bs: nat, r: Reader, c: Chunk, crc: bool)
    requires bs > 0 && Solid(bs, c) && c.blocks < U32
    requires At(buf, r.offset, EncodeChunk(c)) && !HasStart(r.blocks, r.block)
    ensures Representable(c) ==> ReadChunk(buf, bs, 12, r, crc) == Ok(Behind(buf, bs, r, c, crc))
    ensures !Representable(c) ==> ReadChunk(buf, bs, 12, r, crc) == Err(Invalid)
  {
    hide ReadChunk, EncodeChunk, ChunkBody, HasStart, At, Behind, ProcessChunk, Payload, ChunkType;
    ReadHead(buf, bs, r, c, crc);
    PayloadSize(|Payload(c)|);
    BodyRead(buf, bs, r, c, crc);
    BlockAfter(buf, bs, r, c, crc);
    var h := ChunkHead(ChunkType(c), c.blocks, Trunc32(CHUNK_HEADER_LEN + |Payload(c)|));
    var r0 := r.(offset := r.offset + CHUNK_HEADER_LEN);
    KnownKind(buf, bs, h, r0, crc, ChunkBody(buf, bs, Trunc32(|Payload(c)|), ChunkType(c), c.blocks, r0, crc));
  }

  // ---- what reading one chunk keeps ----

  /** The blocks queued so far are ordered and all lie before the next block. */
  ghost predicate Standing(st: Store, bs: nat, r: Reader)
    requires bs > 0
  {
    && Ordered(bs, 0, r.blocks) && EndOf(bs, 0, r.blocks) <= r.block
    && AllBacked(st, r.blocks) && Whole(bs, r.blocks)
  }

  lemma StandingIsFree(st: Store, bs: nat, r: Reader)
    requires bs > 0 && Standing(st, bs, r)
    ensures !HasStart(r.blocks, r.block)
  {
    OrderedEndOf(bs, 0, r.blocks);
  }

  lemma FitsBehind(bs: nat, s: seq<Block>, b: Block)
    requires bs > 0 && Ordered(bs, 0, s) && EndOf(bs, 0, s) <= b.block
    ensures Fits(bs, s, b)
  {
    OrderedEndOf(bs, 0, s);
  }

  lemma BlockReadIs(st: Store, buf: seq<byte>, bs: nat, r: Reader, c: Chunk)
    requires bs > 0 && Solid(bs, c) && !c.DontCareChunk?
    requires c.RawChunk? ==> At(buf, r.offset + CHUNK_HEADER_LEN, c.data)
    ensures var b := BlockRead(r, c, bs, buf);
      && b.len > 0 && b.len % bs == 0 && Backed(st, b) && End(bs, b) == r.block + c.blocks
      && BlockMap(st, bs, b) == ChunkMap(bs, r.block, c)
  {
    hide Region;
    MulMono(1, c.blocks, bs);
    DivRoundUpOfMultiple(c.blocks, bs);
  }

  lemma BehindStands(st: Store, buf: seq<byte>, bs: nat, r: Reader, c: Chunk, crc: bool)
    requires bs > 0 && bs % 4 == 0 && Solid(bs, c) && Standing(st, bs, r) && r.block + c.blocks < U32
    requires c.RawChunk? ==> At(buf, r.offset + CHUNK_HEADER_LEN, c.data)
    ensures var r1 := Behind(buf, bs, r, c, crc);
      && Standing(st, bs, r1) && r1.block == r.block + c.blocks
      && Denote(st, bs, r1.blocks) == Denote(st, bs, r.blocks) + ChunkMap(bs, r.block, c)
  {
    hide Ordered, EndOf, Denote, BlockMap, Insert, Region, BlockRead, Fits, AllBacked, At, End, Whole;
    if c.DontCareChunk? {
      UnionEmpty(Denote(st, bs, r.blocks));
    } else {
      var b := BlockRead(r, c, bs, buf);
      assert b.block == r.block by { BlockReadStart(r, c, bs, buf); }
      BlockReadIs(st, buf, bs, r, c);
      FitsBehind(bs, r.blocks, b);
      InsertDenotes(st, bs, 0, r.blocks, b);
      InsertWhole(bs, r.blocks, b);
    }
  }

  lemma BlockReadStart(r: Reader, c: Chunk, bs: nat, buf: seq<byte>)
    ensures BlockRead(r, c, bs, buf).block == r.block
  {
  }

  // ---- reading a run of chunks ----

  lemma AtCons(buf: seq<byte>, offset: nat, cs: seq<Chunk>)
    requires cs != [] && At(buf, offset, EncodeChunks(cs))
    ensures At(buf, offset, EncodeChunk(cs[0]))
    ensures At(buf, offset + CHUNK_HEADER_LEN, Payload(cs[0]))
    ensures At(buf, offset + CHUNK_HEADER_LEN + |Payload(cs[0])|, EncodeChunks(cs[1..]))
  {
    hide At, Payload, ChunkHeader;
    var c := cs[0];
    AtParts(buf, offset, EncodeChunk(c), EncodeChunks(cs[1..]));
    AtParts(buf, offset, ChunkHeader(ChunkType(c), ChunkBlocks(c), |Payload(c)|), Payload(c));
  }

  /**
   * Reading written chunks, with `more` further ones announced: the reader gets past all of them
   * exactly when every one is representable.
   */
  lemma {:induction false} ReadRun(st: Store, buf: seq<byte>, bs: nat, r: Reader, cs: seq<Chunk>, more: nat, crc: bool)
    requires bs > 0 && bs % 4 == 0 && AllSolid(bs, cs) && Standing(st, bs, r)
    requires r.block + TotalBlocks(cs) < U32 && At(buf, r.offset, EncodeChunks(cs))
    ensures AllRepresentable(cs) ==>
      ReadChunks(buf, bs, 12, |cs| + more, r, crc) == ReadChunks(buf, bs, 12, more, BehindAll(buf, bs, r, cs, crc), crc)
    ensures !AllRepresentable(cs) ==> ReadChunks(buf, bs, 12, |cs| + more, r, crc) == Err(Invalid)
    decreases |cs|
  {
    hide Standing, At, EncodeChunks, ReadChunks, Behind, Representable, AllRepresentable, Solid, TotalBlocks;
    if cs != [] {
      var c, t := cs[0], cs[1..];
      ReadRunStep(st, buf, bs, r, cs, more, crc);
      ReadRun(st, buf, bs, Behind(buf, bs, r, c, crc), t, more, crc);
      assert cs == [c] + t;
      RepresentableCons(c, t);
    } else {
      assert AllRepresentable(cs) by { NoneRepresentable(cs); }
    }
  }

  lemma ReadRunStep(st: Store, buf: seq<byte>, bs: nat, r: Reader, cs: seq<Chunk>, more: nat, crc: bool)
    requires cs != [] && bs > 0 && bs % 4 == 0 && AllSolid(bs, cs) && Standing(st, bs, r)
    requires r.block + TotalBlocks(cs) < U32 && At(buf, r.offset, EncodeChunks(cs))
    ensures var r1 := Behind(buf, bs, r, cs[0], crc);
      && Standing(st, bs, r1) && r1.block + TotalBlocks(cs[1..]) < U32
      && At(buf, r1.offset, EncodeChunks(cs[1..]))
      && (Representable(cs[0]) ==>
        ReadChunks(buf, bs, 12, |cs| + more, r, crc) == ReadChunks(buf, bs, 12, |cs[1..]| + more, r1, crc))
      && (!Representable(cs[0]) ==> ReadChunks(buf, bs, 12, |cs| + more, r, crc) == Err(Invalid))
  {
    hide Standing, At, EncodeChunks, ReadChunks, ReadChunk, Behind, Representable, Solid, Denote, ChunkMap, Payload;
    var c := cs[0];
    SolidBlocks(bs, c);
    AtCons(buf, r.offset, cs);
    StandingIsFree(st, bs, r);
    ReadOne(buf, bs, r, c, crc);
    RawPayload(c);
    BehindStands(st, buf, bs, r, c, crc);
    BehindOffset(buf, bs, r, c, crc);
    ReadChunksStep(buf, bs, 12, |cs| + more, r, crc, ReadChunk(buf, bs, 12, r, crc));
  }

  lemma NoneRepresentable(cs: seq<Chunk>)
    requires cs == []
    ensures AllRepresentable(cs)
  {
  }

  lemma SolidBlocks(bs: nat, c: Chunk)
    requires Solid(bs, c)
    ensures !c.CrcChunk? && c.blocks == ChunkBlocks(c) > 0
  {
  }

  lemma RawPayload(c: Chunk)
    ensures c.RawChunk? ==> Payload(c) == c.data
  {
  }

  lemma BehindOffset(buf: seq<byte>, bs: nat, r: Reader, c: Chunk, crc: bool)
    requires bs > 0
    ensures Behind(buf, bs, r, c, crc).offset == r.offset + CHUNK_HEADER_LEN + |Payload(c)|
    ensures Behind(buf, bs, r, c, crc).sum == SumAfter(crc, r.sum, Expand(bs, c))
  {
  }

  lemma SumsAppend(crc: bool, sum: bv32, s: seq<byte>, t: seq<byte>)
    ensures SumAfter(crc, SumAfter(crc, sum, s), t) == SumAfter(crc, sum, s + t)
    ensures SumAfter(crc, sum, []) == sum
  {
    Streams(sum, s, t);
    EmptySum(sum);
  }

  lemma RepresentableCons(c: Chunk, t: seq<Chunk>)
    ensures AllRepresentable([c] + t) <==> Representable(c) && AllRepresentable(t)
  {
    var s := [c] + t;
    if AllRepresentable(s) {
      assert s[0] == c;
      forall i | 0 <= i < |t| ensures Representable(t[i]) {
        assert s[i + 1] == t[i];
      }
    }
  }

  /** Where the reader stands behind a run of chunks, and what it has queued and summed. */
  lemma {:induction false} BehindRun(st: Store, buf: seq<byte>, bs: nat, r: Reader, cs: seq<Chunk>, crc: bool)
    requires bs > 0 && bs % 4 == 0 && AllSolid(bs, cs) && Standing(st, bs, r)
    requires r.block + TotalBlocks(cs) < U32 && At(buf, r.offset, EncodeChunks(cs))
    ensures var r1 := BehindAll(buf, bs, r, cs, crc);
      && Standing(st, bs, r1) && r1.block == r.block + TotalBlocks(cs)
      && r1.offset == r.offset + |EncodeChunks(cs)|
      && r1.sum == SumAfter(crc, r.sum, ExpandAll(bs, cs))
      && Denote(st, bs, r1.blocks) == Denote(st, bs, r.blocks) + ChunksMap(bs, r.block, cs)
    decreases |cs|
  {
    hide Ordered, EndOf, AllBacked, Whole, At, Behind, Solid, Denote, ChunkMap, Expand, Crc32, SumAfter;
    if cs == [] {
      UnionEmpty(Denote(st, bs, r.blocks));
      SumsAppend(crc, r.sum, [], []);
    } else {
      var c, t := cs[0], cs[1..];
      var r1 := Behind(buf, bs, r, c, crc);
      SolidBlocks(bs, c);
      assert TotalBlocks(cs) == ChunkBlocks(c) + TotalBlocks(t);
      AtCons(buf, r.offset, cs);
      RawPayload(c);
      BehindStands(st, buf, bs, r, c, crc);
      BehindOffset(buf, bs, r, c, crc);
      BehindRun(st, buf, bs, r1, t, crc);
      SumsAppend(crc, r.sum, Expand(bs, c), ExpandAll(bs, t));
      UnionAssociates(Denote(st, bs, r.blocks), ChunkMap(bs, r.block, c), ChunksMap(bs, r.block + ChunkBlocks(c), t));
    }
  }

  // ---- the end of the file ----

  lemma ReadCrcChunk(buf: seq<byte>, bs: nat, r: Reader, v: u32, crc: bool)
    requires bs > 0 && At(buf, r.offset, EncodeChunk(CrcChunk(v)))
    ensures ReadChunk(buf, bs, 12, r, crc) ==
      if crc && v != r.sum as int then Err(Invalid) else Ok(r.(offset := r.offset + 16))
  {
    hide ReadChunk, Le32, FromLe32;
    ReadHead(buf, bs, r, CrcChunk(v), crc);
    Le32RoundTrip(v);
  }

  /** What is left of a file behind its last image chunk: a checksum, or nothing. */
  function CrcBytes(crc: bool, v: u32): seq<byte> {
    if crc then EncodeChunk(CrcChunk(v)) else []
  }

  /** Behind the image chunks: a wrong sum, or one chunk too many announced, is an error. */
  lemma ReadTail(buf: seq<byte>, bs: nat, r: Reader, wcrc: bool, rcrc: bool, v: u32, extra: bool)
    requires bs > 0 && At(buf, r.offset, CrcBytes(wcrc, v)) && |buf| == r.offset + |CrcBytes(wcrc, v)|
    ensures var got := ReadChunks(buf, bs, 12, (if wcrc then 1 else 0) + (if extra then 1 else 0), r, rcrc);
      if extra || (wcrc && rcrc && v != r.sum as int) then Refused(got) else got == Ok(r.(offset := |buf|))
  {
    hide ReadChunk, At;
    var end := r.(offset := |buf|);
    if wcrc {
      ReadCrcChunk(buf, bs, r, v, rcrc);
      assert end == r.(offset := r.offset + 16);
    } else {
      assert end == r;
    }
    EndOfBuffer(buf, bs, end, rcrc);
  }

  lemma EndOfBuffer(buf: seq<byte>, bs: nat, r: Reader, crc: bool)
    requires bs > 0 && r.offset == |buf|
    ensures ReadChunk(buf, bs, 12, r, crc) == Err(Overflow)
  {
  }

  // ---- the chunks of a file ----

  lemma {:induction false} ChunksOfSolid(st: Store, bs: nat, last: nat, s: seq<Block>)
    requires bs > 0 && AllBacked(st, s) && Ordered(bs, last, s)
    ensures AllSolid(bs, ChunksOf(st, bs, last, s))
    decreases |s|
  {
    if s != [] {
      AlignBounds(s[0].len, bs);
      ChunksOfSolid(st, bs, End(bs, s[0]), s[1..]);
    }
  }

  lemma AllChunksSolid(st: Store, bs: nat, len: nat, s: seq<Block>)
    requires bs > 0 && AllBacked(st, s) && Ordered(bs, 0, s)
    ensures AllSolid(bs, AllChunks(st, bs, len, s))
  {
    ChunksOfSolid(st, bs, 0, s);
    var n := len - EndOf(bs, 0, s) * bs;
    if n > 0 {
      DivMod(n, bs);
    }
  }

  lemma {:induction false} CountIsBounded(bs: nat, cs: seq<Chunk>)
    requires AllSolid(bs, cs)
    ensures |cs| <= TotalBlocks(cs)
  {
    if cs != [] {
      CountIsBounded(bs, cs[1..]);
    }
  }

  /** The announced totals against the chunks emitted, for any length. */
  lemma Announced(st: Store, bs: nat, len: nat, s: seq<Block>)
    requires bs > 0 && AllBacked(st, s) && Ordered(bs, 0, s) && EndOf(bs, 0, s) * bs <= len
    ensures var cs := AllChunks(st, bs, len, s);
      && CountChunks(bs, len, s) == |cs| + (if len % bs == 0 then 0 else 1)
      && TotalBlocks(cs) + (if len % bs == 0 then 0 else 1) <= DivRoundUp(len, bs)
      && (len % bs == 0 ==> TotalBlocks(cs) == DivRoundUp(len, bs))
  {
    hide Ordered, ChunksOf, CountBlocks, TotalBlocks, DivRoundUp;
    var last := EndOf(bs, 0, s);
    CountIsLength(st, bs, 0, s);
    TailOfWhole(bs, len, last);
    AlignBounds(len - last * bs, bs);
    if len % bs == 0 {
      TotalIsAnnounced(st, bs, len, s);
      RoundingAgrees(len - last * bs, bs);
      AnnouncedIsEmitted(st, bs, len, s);
    } else {
      NoRemainder(len - last * bs, bs);
      assert TailChunk(bs, len, last) == [];
      assert AllChunks(st, bs, len, s) == ChunksOf(st, bs, 0, s);
      TotalOfBlocks(st, bs, 0, s);
    }
  }

  lemma NoRemainder(n: nat, bs: nat)
    requires bs > 0 && n % bs != 0
    ensures n > 0
  {
    if n == 0 {
      DivRoundUpOfMultiple(0, bs);
    }
  }

  // ---- the map of the chunks ----

  /** What a list of blocks means once every block is padded out to whole blocks. */
  ghost function PaddedDenote(st: Store, bs: nat, s: seq<Block>): map<nat, byte>
    requires bs > 0 && AllBacked(st, s)
  {
    if s == [] then map[] else Region(s[0].block * bs, Padded(st, bs, s[0])) + PaddedDenote(st, bs, s[1..])
  }

  lemma {:induction false} ChunksMapAppend(bs: nat, at: nat, a: seq<Chunk>, b: seq<Chunk>)
    ensures ChunksMap(bs, at, a + b) == ChunksMap(bs, at, a) + ChunksMap(bs, at + TotalBlocks(a), b)
    decreases |a|
  {
    hide ChunkMap;
    if a == [] {
      assert a + b == b;
      EmptyUnion(ChunksMap(bs, at, b));
    } else {
      assert (a + b)[1..] == a[1..] + b;
      var n := at + ChunkBlocks(a[0]);
      ChunksMapAppend(bs, n, a[1..], b);
      UnionAssociates(ChunkMap(bs, at, a[0]), ChunksMap(bs, n, a[1..]), ChunksMap(bs, n + TotalBlocks(a[1..]), b));
    }
  }

  lemma MapOfChunk(st: Store, bs: nat, b: Block)
    requires bs > 0 && Backed(st, b)
    ensures Expand(bs, ChunkOf(st, bs, b)) == Padded(st, bs, b)
    ensures ChunkMap(bs, b.block, ChunkOf(st, bs, b)) == Region(b.block * bs, Padded(st, bs, b))
  {
    AlignBounds(b.len, bs);
  }

  lemma MapOfOne(bs: nat, at: nat, c: Chunk)
    ensures ChunksMap(bs, at, [c]) == ChunkMap(bs, at, c) && TotalBlocks([c]) == ChunkBlocks(c)
  {
    var one := [c];
    assert one[1..] == [];
    UnionEmpty(ChunkMap(bs, at, c));
  }

  lemma MapOfGap(bs: nat, last: nat, block: nat, c: Chunk)
    requires last <= block
    ensures var cs := GapChunk(last, block) + [c];
      ChunksMap(bs, last, cs) == ChunkMap(bs, block, c) && TotalBlocks(cs) == block - last + ChunkBlocks(c)
  {
    hide ChunkMap;
    MapOfOne(bs, block, c);
    if block > last {
      var cs := GapChunk(last, block) + [c];
      assert cs[0] == DontCareChunk(block - last) && cs[1..] == [c];
      assert ChunkMap(bs, last, cs[0]) == map[] by { MapOfSkip(bs, last, block - last); }
      EmptyUnion(ChunksMap(bs, block, [c]));
    } else {
      assert GapChunk(last, block) + [c] == [c];
    }
  }

  lemma MapOfSkip(bs: nat, at: nat, n: nat)
    ensures ChunkMap(bs, at, DontCareChunk(n)) == map[]
  {
  }

  lemma MapOfBlock(st: Store, bs: nat, last: nat, b: Block)
    requires bs > 0 && Backed(st, b) && last <= b.block
    ensures var cs := GapChunk(last, b.block) + [ChunkOf(st, bs, b)];
      && TotalBlocks(cs) == End(bs, b) - last
      && ChunksMap(bs, last, cs) == Region(b.block * bs, Padded(st, bs, b))
  {
    hide Region, GapChunk, ChunkMap, Padded;
    MapOfGap(bs, last, b.block, ChunkOf(st, bs, b));
    MapOfChunk(st, bs, b);
  }

  lemma {:induction false} MapOfBlocks(st: Store, bs: nat, last: nat, s: seq<Block>)
    requires bs > 0 && AllBacked(st, s) && Ordered(bs, last, s)
    ensures ChunksMap(bs, last, ChunksOf(st, bs, last, s)) == PaddedDenote(st, bs, s)
    decreases |s|
  {
    hide ChunkOf, Padded, Region, ChunksMap, GapChunk, TotalBlocks;
    if s != [] {
      var b, t := s[0], s[1..];
      MapOfBlock(st, bs, last, b);
      MapOfBlocks(st, bs, End(bs, b), t);
      ChunksMapAppend(bs, last, GapChunk(last, b.block) + [ChunkOf(st, bs, b)], ChunksOf(st, bs, End(bs, b), t));
    } else {
      MapOfNothing(bs, last);
    }
  }

  lemma MapOfNothing(bs: nat, at: nat)
    ensures ChunksMap(bs, at, []) == map[]
  {
  }

  lemma MapOfFile(st: Store, bs: nat, len: nat, s: seq<Block>)
    requires bs > 0 && AllBacked(st, s) && Ordered(bs, 0, s)
    ensures ChunksMap(bs, 0, AllChunks(st, bs, len, s)) == PaddedDenote(st, bs, s)
  {
    hide ChunksOf, PaddedDenote, Ordered;
    MapOfBlocks(st, bs, 0, s);
    var last := EndOf(bs, 0, s);
    var tail := TailChunk(bs, len, last);
    TotalOfBlocks(st, bs, 0, s);
    ChunksMapAppend(bs, 0, ChunksOf(st, bs, 0, s), tail);
    assert tail != [] ==> tail[1..] == [];
    assert ChunksMap(bs, last, tail) == map[];
    UnionEmpty(PaddedDenote(st, bs, s));
  }

  // ---- writing, then reading ----

  /** The condition under which a written file can be read back. */
  ghost predicate ReadsBack(st: Store, bs: nat, len: nat, s: seq<Block>, wcrc: bool, rcrc: bool)
    requires bs > 0 && AllBacked(st, s)
  {
    var cs := AllChunks(st, bs, len, s);
    && bs % 4 == 0 && len > 0 && len % bs == 0 && AllRepresentable(cs)
    && (wcrc && rcrc ==> WriterSum(bs, cs) == Crc32(0, ExpandAll(bs, cs)))
  }

  lemma Layout(st: Store, bs: nat, len: nat, s: seq<Block>, crc: bool)
    requires bs > 0 && AllBacked(st, s)
    ensures var cs := AllChunks(st, bs, len, s);
      var buf, v := SparseBytes(st, bs, len, s, crc), WriterSum(bs, cs) as int;
      && |buf| == SPARSE_HEADER_LEN + |EncodeChunks(cs)| + |CrcBytes(crc, v)|
      && buf[0..SPARSE_HEADER_LEN] ==
           SparseHeader(bs, DivRoundUp(len, bs), CountChunks(bs, len, s) + if crc then 1 else 0)
      && At(buf, SPARSE_HEADER_LEN, EncodeChunks(cs))
      && At(buf, SPARSE_HEADER_LEN + |EncodeChunks(cs)|, CrcBytes(crc, v))
  {
    hide SparseHeader, EncodeChunks, EncodeChunk, AllChunks, WriterSum, CountChunks;
    var cs := AllChunks(st, bs, len, s);
    var v := WriterSum(bs, cs) as int;
    var h := SparseHeader(bs, DivRoundUp(len, bs), CountChunks(bs, len, s) + if crc then 1 else 0);
    var buf, body, tail := SparseBytes(st, bs, len, s, crc), EncodeChunks(cs), CrcBytes(crc, v);
    EncodeAppend(cs, CrcTail(bs, cs, crc));
    EncodeOne(CrcChunk(v));
    EncodeNothing();
    assert EncodeChunks(CrcTail(bs, cs, crc)) == tail;
    assert buf == h + (body + tail);
    AtAll(buf);
    AtParts(buf, 0, h, body + tail);
    AtParts(buf, SPARSE_HEADER_LEN, body, tail);
  }

  lemma AtAll(buf: seq<byte>)
    ensures At(buf, 0, buf)
  {
  }

  /** Chunks laid out behind a header, with or without a checksum, and perhaps one too many announced. */
  lemma ReadAllOf(st: Store, buf: seq<byte>, bs: nat, cs: seq<Chunk>, wcrc: bool, rcrc: bool, v: u32, extra: bool)
    requires bs > 0 && bs % 4 == 0 && AllSolid(bs, cs) && TotalBlocks(cs) < U32
    requires At(buf, SPARSE_HEADER_LEN, EncodeChunks(cs))
    requires At(buf, SPARSE_HEADER_LEN + |EncodeChunks(cs)|, CrcBytes(wcrc, v))
    requires |buf| == SPARSE_HEADER_LEN + |EncodeChunks(cs)| + |CrcBytes(wcrc, v)|
    ensures var more := (if wcrc then 1 else 0) + (if extra then 1 else 0);
      var got := ReadChunks(buf, bs, 12, |cs| + more, Reader(SPARSE_HEADER_LEN, 0, [], 0), rcrc);
      && (got.Ok? || Refused(got))
      && (got.Ok? <==> (!extra && AllRepresentable(cs) && (wcrc && rcrc ==> v == Crc32(0, ExpandAll(bs, cs)) as int)))
      && (got.Ok? ==>
        && got.value.block == TotalBlocks(cs) && Standing(st, bs, got.value)
        && Denote(st, bs, got.value.blocks) == ChunksMap(bs, 0, cs))
  {
    hide ReadChunks, EncodeChunks, At, AllSolid, BehindAll, AllRepresentable, CrcBytes, ChunksMap, Crc32, ExpandAll,
      TotalBlocks, Denote, Ordered, EndOf, AllBacked, Whole;
    var r := Reader(SPARSE_HEADER_LEN, 0, [], 0);
    var more := (if wcrc then 1 else 0) + (if extra then 1 else 0);
    NothingStands(st, bs, r);
    ReadRun(st, buf, bs, r, cs, more, rcrc);
    BehindRun(st, buf, bs, r, cs, rcrc);
    var r1 := BehindAll(buf, bs, r, cs, rcrc);
    ReadTail(buf, bs, r1, wcrc, rcrc, v, extra);
    EmptyUnion(ChunksMap(bs, 0, cs));
  }

  /** All the chunks of a written file, read from behind the header. */
  lemma ReadAllChunks(st: Store, bs: nat, len: nat, s: seq<Block>, wcrc: bool, rcrc: bool)
    requires bs > 0 && bs % 4 == 0 && AllBacked(st, s) && Ordered(bs, 0, s) && EndOf(bs, 0, s) * bs <= len
    requires DivRoundUp(len, bs) < U32
    ensures var buf := SparseBytes(st, bs, len, s, wcrc);
      var cs := AllChunks(st, bs, len, s);
      var got := ReadChunks(buf, bs, 12, CountChunks(bs, len, s) + if wcrc then 1 else 0, Reader(SPARSE_HEADER_LEN, 0, [], 0), rcrc);
      && (got.Ok? || Refused(got))
      && (got.Ok? <==> (len % bs == 0 && AllRepresentable(cs) &&
            (wcrc && rcrc ==> WriterSum(bs, cs) == Crc32(0, ExpandAll(bs, cs)))))
      && (got.Ok? ==>
        && got.value.block == DivRoundUp(len, bs) && Standing(st, bs, got.value)
        && Denote(st, bs, got.value.blocks) == PaddedDenote(st, bs, s))
  {
    hide ReadChunks, SparseBytes, EncodeChunks, At, AllChunks, Ordered, EndOf, WriterSum, AllSolid, BehindAll,
      AllRepresentable, CountChunks, CrcBytes, PaddedDenote, ChunksMap, Crc32, ExpandAll, AllBacked, TotalBlocks, DivRoundUp, Denote;
    var buf := SparseBytes(st, bs, len, s, wcrc);
    var cs := AllChunks(st, bs, len, s);
    Layout(st, bs, len, s, wcrc);
    AllChunksSolid(st, bs, len, s);
    Announced(st, bs, len, s);
    ReadAllOf(st, buf, bs, cs, wcrc, rcrc, WriterSum(bs, cs) as int, len % bs != 0);
    SameSum(WriterSum(bs, cs), Crc32(0, ExpandAll(bs, cs)));
    MapOfFile(st, bs, len, s);
  }

  lemma SameSum(a: bv32, b: bv32)
    ensures a as int == b as int <==> a == b
  {
    assert (a as int) as bv32 == a && (b as int) as bv32 == b;
  }

  lemma NothingStands(st: Store, bs: nat, r: Reader)
    requires bs > 0 && r.blocks == []
    ensures Standing(st, bs, r) && Denote(st, bs, r.blocks) == map[]
  {
  }

  lemma WholeHasBlocks(bs: nat, len: nat)
    requires bs > 0
    ensures len > 0 <==> DivRoundUp(len, bs) > 0
  {
    AlignBounds(len, bs);
    DivRoundUpOfMultiple(0, bs);
  }

  /**
   * Writing a file and importing the bytes: the import never ends in an assert, succeeds exactly when
   * `ReadsBack` says so, and then gives back block size, length and, up to the padding of partial blocks, the same image.
   */
  lemma ImportOfWrite(st: Store, bs: u32, len: nat, s: seq<Block>, wcrc: bool, rcrc: bool)
    requires bs > 0 && AllBacked(st, s) && Ordered(bs, 0, s) && EndOf(bs, 0, s) * bs <= len
    requires DivRoundUp(len, bs) + 1 < U32
    ensures var got := Import(SparseBytes(st, bs, len, s, wcrc), rcrc);
      && (got.Ok? <==> ReadsBack(st, bs, len, s, wcrc, rcrc)) && (got.Ok? || Refused(got))
      && (got.Ok? ==>
        && got.value.blockSize == bs && got.value.len == len
        && Ordered(bs, 0, got.value.blocks) && EndOf(bs, 0, got.value.blocks) * bs <= len
        && AllBacked(st, got.value.blocks) && Whole(bs, got.value.blocks)
        && Denote(st, bs, got.value.blocks) == PaddedDenote(st, bs, s))
  {
    hide ReadChunks, SparseBytes, AllChunks, Ordered, EndOf, WriterSum, CountChunks, AllRepresentable,
      PaddedDenote, Crc32, ExpandAll, AllBacked, DivRoundUp, SparseHeader, DecodeHeader, EncodeChunks, At, CrcBytes, AllSolid, TotalBlocks;
    var buf := SparseBytes(st, bs, len, s, wcrc);
    var chunks := CountChunks(bs, len, s) + if wcrc then 1 else 0;
    Layout(st, bs, len, s, wcrc);
    Announced(st, bs, len, s);
    AllChunksSolid(st, bs, len, s);
    CountIsBounded(bs, AllChunks(st, bs, len, s));
    WholeHasBlocks(bs, len);
    HeaderDecodes(bs, DivRoundUp(len, bs), chunks);
    if bs % 4 == 0 && len > 0 {
      ReadAllChunks(st, bs, len, s, wcrc, rcrc);
      if len % bs == 0 {
        RoundingAgrees(len, bs);
        var got := ReadChunks(buf, bs, 12, chunks, Reader(SPARSE_HEADER_LEN, 0, [], 0), rcrc);
        if got.Ok? {
          MulMono(EndOf(bs, 0, got.value.blocks), got.value.block, bs);
        }
      }
    }
  }

  // ---- a file that ends the process ----

  /** A fill of no blocks, and another fill behind it at the same block. */
  function TwiceAtBlockZero(bs: u32, total: u32, v: u32, n: u32, w: u32): (buf: seq<byte>)
  {
    SparseHeader(bs, total, 2) + EncodeChunk(FillChunk(0, v)) + EncodeChunk(FillChunk(n, w))
  }

  lemma FillHead(buf: seq<byte>, bs: nat, r: Reader, n: u32, v: u32, crc: bool)
    requires bs > 0 && At(buf, r.offset, EncodeChunk(FillChunk(n, v)))
    ensures var at := r.offset + CHUNK_HEADER_LEN;
      ReadChunk(buf, bs, 12, r, crc) ==
        if HasStart(r.blocks, r.block) then Err(Aborted)
        else if n >= I32 then Err(Invalid)
        else Ok(Reader(at + 4, Trunc32(r.block + n), Insert(bs, r.blocks, Block(r.block, n * bs, Fill(v))),
                       FillSum(crc, r.sum, v, n * bs)))
  {
    hide ReadChunk, Insert, HasStart, FillSum, Le32, FromLe32, EncodeChunk;
    ReadHead(buf, bs, r, FillChunk(n, v), crc);
    Le32RoundTrip(v);
  }

  /** The importer takes the first fill and ends in the assert of the block list at the second. */
  lemma ImportCanAbort(bs: u32, total: u32, v: u32, n: u32, w: u32, crc: bool)
    requires bs > 0 && bs % 4 == 0 && total > 0
    ensures |TwiceAtBlockZero(bs, total, v, n, w)| == 60
    ensures Import(TwiceAtBlockZero(bs, total, v, n, w), crc) == Err(Aborted)
  {
    hide ReadChunks, ReadChunk, SparseHeader, DecodeHeader, EncodeChunk, At, FillSum;
    var buf := TwiceAtBlockZero(bs, total, v, n, w);
    var h, a, b := SparseHeader(bs, total, 2), EncodeChunk(FillChunk(0, v)), EncodeChunk(FillChunk(n, w));
    assert |a| == 16 && |b| == 16 by { FillIsShort(0, v); FillIsShort(n, w); }
    assert buf == h + (a + b);
    AtAll(buf);
    AtParts(buf, 0, h, a + b);
    AtParts(buf, 28, a, b);
    HeaderDecodes(bs, total, 2);
    assert buf[0..28] == h by { AtMeans(buf, 0, h); }
    var r := Reader(28, 0, [], 0);
    FillHead(buf, bs, r, 0, v, crc);
    ReadChunksStep(buf, bs, 12, 2, r, crc, ReadChunk(buf, bs, 12, r, crc));
    var r1 := ReadChunk(buf, bs, 12, r, crc).value;
    assert r1.blocks == [Block(0, 0, Fill(v))];
    assert HasStart(r1.blocks, 0) by { assert r1.blocks[0].block == 0; }
    FillHead(buf, bs, r1, n, w, crc);
    ReadChunksStep(buf, bs, 12, 1, r1, crc, ReadChunk(buf, bs, 12, r1, crc));
  }

  lemma FillIsShort(n: nat, v: u32)
    ensures |EncodeChunk(FillChunk(n, v))| == 16
  {
  }

  lemma AtMeans(buf: seq<byte>, offset: nat, s: seq<byte>)
    requires At(buf, offset, s)
    ensures offset + |s| <= |buf| && buf[offset..offset + |s|] == s
  {
  }

  // ---- what padding adds ----

  /** The bytes between the end of a block and the next block boundary. */
  function Padding(st: Store, bs: nat, b: Block): seq<byte>
    requires bs > 0 && Backed(st, b)
  {
    AlignBounds(b.len, bs);
    if b.backing.Fill? then FillPattern(b.backing.val, Align(b.len, bs))[b.len..] else Zeros(Align(b.len, bs) - b.len)
  }

  lemma PaddedBlock(st: Store, bs: nat, b: Block)
    requires bs > 0 && Backed(st, b)
    ensures Region(b.block * bs, Padded(st, bs, b)) == BlockMap(st, bs, b) + Region(b.block * bs + b.len, Padding(st, bs, b))
    ensures b.len % bs == 0 ==> Padding(st, bs, b) == []
  {
    hide Region;
    AlignBounds(b.len, bs);
    RoundingAgrees(b.len, bs);
    assert Padded(st, bs, b) == Content(st, b) + Padding(st, bs, b);
    RegionAppend(b.block * bs, Content(st, b), Padding(st, bs, b));
  }

  lemma {:induction false} PaddedDomain(st: Store, bs: nat, from: nat, s: seq<Block>, i: nat)
    requires bs > 0 && AllBacked(st, s) && Ordered(bs, from, s) && i in PaddedDenote(st, bs, s)
    ensures i >= from * bs
    decreases |s|
  {
    MulMono(from, s[0].block, bs);
    if i in PaddedDenote(st, bs, s[1..]) {
      AlignBounds(s[0].len, bs);
      MulMono(from, End(bs, s[0]), bs);
      PaddedDomain(st, bs, End(bs, s[0]), s[1..], i);
    }
  }

  /** Offset `i` lies in the padding of some block of `s`, and `v` is what is there. */
  ghost predicate InPadding(st: Store, bs: nat, s: seq<Block>, i: nat, v: byte)
    requires bs > 0 && AllBacked(st, s)
  {
    exists k :: 0 <= k < |s| && PadHolds(st, bs, s[k], i, v)
  }

  ghost predicate PadHolds(st: Store, bs: nat, b: Block, i: nat, v: byte)
    requires bs > 0 && Backed(st, b)
  {
    var at := b.block * bs + b.len;
    at <= i < at + |Padding(st, bs, b)| && v == Padding(st, bs, b)[i - at]
  }

  lemma PaddedCase(st: Store, bs: nat, from: nat, b: Block, t: seq<Block>, i: nat)
    requires bs > 0 && Backed(st, b) && AllBacked(st, t) && Ordered(bs, End(bs, b), t)
    ensures var p := Region(b.block * bs, Padded(st, bs, b)) + PaddedDenote(st, bs, t);
      var d := BlockMap(st, bs, b) + Denote(st, bs, t);
      i in BlockMap(st, bs, b) ==> i in p && i in d && d[i] == p[i]
  {
    hide Region, Denote, PaddedDenote, Padding, Padded, Content, Ordered;
    PaddedBlock(st, bs, b);
    if i in BlockMap(st, bs, b) {
      BlockMapDomain(st, bs, b, i);
      if i in PaddedDenote(st, bs, t) {
        PaddedDomain(st, bs, End(bs, b), t, i);
      }
      if i in Denote(st, bs, t) {
        DenoteDomain(st, bs, End(bs, b), t, i);
      }
      var pad := Region(b.block * bs + b.len, Padding(st, bs, b));
      PadIsBehind(st, bs, b, i);
      assert i !in pad;
    }
  }

  lemma PadIsBehind(st: Store, bs: nat, b: Block, i: nat)
    requires Backed(st, b) && bs > 0 && i in BlockMap(st, bs, b)
    ensures i !in Region(b.block * bs + b.len, Padding(st, bs, b))
  {
  }

  lemma PaddedHead(st: Store, bs: nat, b: Block, i: nat)
    requires Backed(st, b) && bs > 0 && i in Region(b.block * bs, Padded(st, bs, b)) && i !in BlockMap(st, bs, b)
    ensures PadHolds(st, bs, b, i, Region(b.block * bs, Padded(st, bs, b))[i])
  {
    PaddedBlock(st, bs, b);
  }

  /** Padding changes no byte of the image, and everything it adds lies behind the end of a partial block. */
  lemma {:induction false} PaddedAt(st: Store, bs: nat, from: nat, s: seq<Block>, i: nat)
    requires bs > 0 && AllBacked(st, s) && Ordered(bs, from, s)
    ensures i in Denote(st, bs, s) ==> i in PaddedDenote(st, bs, s) && PaddedDenote(st, bs, s)[i] == Denote(st, bs, s)[i]
    ensures i in PaddedDenote(st, bs, s) && i !in Denote(st, bs, s) ==>
      InPadding(st, bs, s, i, PaddedDenote(st, bs, s)[i])
    decreases |s|
  {
    hide Region, BlockMap, Padded, PadHolds;
    if s != [] {
      var b, t := s[0], s[1..];
      var e := End(bs, b);
      PaddedAt(st, bs, e, t, i);
      PaddedCase(st, bs, from, b, t, i);
      if i in PaddedDenote(st, bs, t) && i !in Denote(st, bs, t) {
        var k :| 0 <= k < |t| && PadHolds(st, bs, t[k], i, PaddedDenote(st, bs, t)[i]);
        assert s[k + 1] == t[k];
      } else if i !in PaddedDenote(st, bs, t) && i in PaddedDenote(st, bs, s) && i !in BlockMap(st, bs, b) {
        PaddedHead(st, bs, b, i);
      }
    }
  }

  /** Whole blocks are not padded. */
  lemma {:induction false} PaddedWhole(st: Store, bs: nat, s: seq<Block>)
    requires bs > 0 && AllBacked(st, s) && Whole(bs, s)
    ensures PaddedDenote(st, bs, s) == Denote(st, bs, s)
  {
    hide BlockMap, Padded;
    if s != [] {
      PaddedBlock(st, bs, s[0]);
      EmptyRegion(s[0].block * bs + s[0].len);
      UnionEmpty(BlockMap(st, bs, s[0]));
      PaddedWhole(st, bs, s[1..]);
    }
  }

  lemma EmptyRegion(at: nat)
    ensures Region(at, []) == map[]
  {
  }

  /** With whole blocks and no checksum, writing and importing is the identity on images. */
  lemma ImportIsIdentity(st: Store, bs: u32, len: nat, s: seq<Block>)
    requires bs > 0 && bs % 4 == 0 && AllBacked(st, s) && Ordered(bs, 0, s) && EndOf(bs, 0, s) * bs <= len
    requires len > 0 && len % bs == 0 && DivRoundUp(len, bs) < I32
    requires Whole(bs, s) && forall k :: 0 <= k < |s| ==> s[k].backing.Fill? || s[k].len < U32
    ensures var got := Import(SparseBytes(st, bs, len, s, false), false);
      && got.Ok? && got.value.blockSize == bs && got.value.len == len
      && Ordered(bs, 0, got.value.blocks) && EndOf(bs, 0, got.value.blocks) * bs <= len
      && AllBacked(st, got.value.blocks) && Whole(bs, got.value.blocks)
      && Denote(st, bs, got.value.blocks) == Denote(st, bs, s)
  {
    hide Import, SparseBytes, Ordered, EndOf, AllBacked, Denote, PaddedDenote, AllChunks, WriterSum, ExpandAll, Crc32, AllRepresentable;
    ImportOfWrite(st, bs, len, s, false, false);
    PaddedWhole(st, bs, s);
    FileRepresentable(st, bs, len, s);
  }

  lemma {:induction false} ChunksRepresentable(st: Store, bs: nat, last: nat, s: seq<Block>)
    requires bs > 0 && AllBacked(st, s) && Ordered(bs, last, s) && EndOf(bs, last, s) < I32
    requires Whole(bs, s) && forall k :: 0 <= k < |s| ==> s[k].backing.Fill? || s[k].len < U32
    ensures AllRepresentable(ChunksOf(st, bs, last, s))
    decreases |s|
  {
    if s != [] {
      var b, t := s[0], s[1..];
      OrderedEndOf(bs, End(bs, b), t);
      ChunksRepresentable(st, bs, End(bs, b), t);
      RoundingAgrees(b.len, bs);
      AlignBounds(b.len, bs);
      assert |Payload(ChunkOf(st, bs, b))| < U32;
    }
  }

  lemma FileRepresentable(st: Store, bs: nat, len: nat, s: seq<Block>)
    requires bs > 0 && AllBacked(st, s) && Ordered(bs, 0, s) && EndOf(bs, 0, s) * bs <= len
    requires len % bs == 0 && DivRoundUp(len, bs) < I32
    requires Whole(bs, s) && forall k :: 0 <= k < |s| ==> s[k].backing.Fill? || s[k].len < U32
    ensures AllRepresentable(AllChunks(st, bs, len, s))
  {
    hide Ordered, ChunksOf, EndOf, DivRoundUp, Representable, AllRepresentable;
    var last := EndOf(bs, 0, s);
    TailOfWhole(bs, len, last);
    ChunksRepresentable(st, bs, 0, s);
    RoundingAgrees(len - last * bs, bs);
    TailRepresentable(ChunksOf(st, bs, 0, s), TailChunk(bs, len, last));
  }

  lemma TailRepresentable(a: seq<Chunk>, b: seq<Chunk>)
    requires AllRepresentable(a) && |b| <= 1 && (b != [] ==> b[0].DontCareChunk? && b[0].blocks < I32)
    ensures AllRepresentable(a + b)
  {
  }
}
