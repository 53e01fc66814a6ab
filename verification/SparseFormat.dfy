/** The Android sparse format as bytes, and the chunks that stand for a list of backed blocks. */
module SparseFormat {
  import opened Wire
  import opened Arith
  import opened Blocks
  import opened Crc

  const SPARSE_HEADER_MAGIC: u32 := 0xed26ff3a
  const SPARSE_HEADER_LEN: nat := 28
  const CHUNK_HEADER_LEN: nat := 12
  const CHUNK_TYPE_RAW: u16 := 0xCAC1
  const CHUNK_TYPE_FILL: u16 := 0xCAC2
  const CHUNK_TYPE_DONT_CARE: u16 := 0xCAC3
  const CHUNK_TYPE_CRC32: u16 := 0xCAC4

  datatype Chunk =
    | RawChunk(blocks: nat, data: seq<byte>)
    | FillChunk(blocks: nat, fillVal: u32)
    | DontCareChunk(blocks: nat)
    | CrcChunk(sum: u32)

  function ChunkType(c: Chunk): u16 {
    match c
    case RawChunk(_, _) => CHUNK_TYPE_RAW
    case FillChunk(_, _) => CHUNK_TYPE_FILL
    case DontCareChunk(_) => CHUNK_TYPE_DONT_CARE
    case CrcChunk(_) => CHUNK_TYPE_CRC32
  }

  function ChunkBlocks(c: Chunk): nat {
    if c.CrcChunk? then 0 else c.blocks
  }

  function Payload(c: Chunk): seq<byte> {
    match c
    case RawChunk(_, data) => data
    case FillChunk(_, v) => Le32(v)
    case DontCareChunk(_) => []
    case CrcChunk(v) => Le32(v)
  }

  /** A chunk header; both sizes are 32-bit fields and lose their high bits. */
  function ChunkHeader(kind: u16, blocks: nat, payload: nat): (s: seq<byte>)
    ensures |s| == CHUNK_HEADER_LEN
  {
    Le16(kind) + Le16(0) + Le32(Trunc32(blocks)) + Le32(Trunc32(CHUNK_HEADER_LEN + payload))
  }

  function EncodeChunk(c: Chunk): (s: seq<byte>)
    ensures |s| == CHUNK_HEADER_LEN + |Payload(c)|
  {
    ChunkHeader(ChunkType(c), ChunkBlocks(c), |Payload(c)|) + Payload(c)
  }

  function EncodeChunks(cs: seq<Chunk>): seq<byte> {
    if cs == [] then [] else EncodeChunk(cs[0]) + EncodeChunks(cs[1..])
  }

  function SparseHeader(bs: nat, totalBlks: nat, totalChunks: nat): (s: seq<byte>)
    ensures |s| == SPARSE_HEADER_LEN
  {
    Le32(SPARSE_HEADER_MAGIC) + Le16(1) + Le16(0) + Le16(28) + Le16(12) +
    Le32(Trunc32(bs)) + Le32(Trunc32(totalBlks)) + Le32(Trunc32(totalChunks)) + Le32(0)
  }

  lemma EncodeCons(c: Chunk, cs: seq<Chunk>)
    ensures EncodeChunks([c] + cs) == EncodeChunk(c) + EncodeChunks(cs)
  {
    assert ([c] + cs)[1..] == cs;
  }

  lemma {:induction false} EncodeAppend(a: seq<Chunk>, b: seq<Chunk>)
    ensures EncodeChunks(a + b) == EncodeChunks(a) + EncodeChunks(b)
    decreases |a|
  {
    if a == [] {
      assert a + b == b;
    } else {
      var c, r := a[0], a[1..];
      assert a == [c] + r && a + b == [c] + (r + b);
      EncodeAppend(r, b);
      EncodeCons(c, r);
      EncodeCons(c, r + b);
      Associates(EncodeChunk(c), EncodeChunks(r), EncodeChunks(b));
    }
  }

  lemma Associates(a: seq<byte>, b: seq<byte>, c: seq<byte>)
    ensures (a + b) + c == a + (b + c)
  {
  }

  lemma EncodeNothing()
    ensures EncodeChunks([]) == []
  {
  }

  lemma EncodeOne(c: Chunk)
    ensures EncodeChunks([c]) == EncodeChunk(c)
  {
    assert [c][1..] == [];
  }

  // ---- the chunks of a block list ----

  /** A block's bytes rounded up to whole blocks: zeros after data, more of the word after a fill. */
  function Padded(st: Store, bs: nat, b: Block): (s: seq<byte>)
    requires bs > 0 && Backed(st, b)
    ensures |s| == Align(b.len, bs)
  {
    AlignBounds(b.len, bs);
    if b.backing.Fill? then FillPattern(b.backing.val, Align(b.len, bs))
    else Content(st, b) + Zeros(Align(b.len, bs) - b.len)
  }

  function ChunkOf(st: Store, bs: nat, b: Block): Chunk
    requires bs > 0 && Backed(st, b)
  {
    if b.backing.Fill? then FillChunk(DivRoundUp(b.len, bs), b.backing.val)
    else RawChunk(DivRoundUp(b.len, bs), Padded(st, bs, b))
  }

  function GapChunk(last: nat, block: nat): seq<Chunk> {
    if block > last then [DontCareChunk(block - last)] else []
  }

  /** The chunks written for `s` when `last_block` is `last` before it. */
  function ChunksOf(st: Store, bs: nat, last: nat, s: seq<Block>): seq<Chunk>
    requires bs > 0 && AllBacked(st, s)
    decreases |s|
  {
    if s == [] then []
    else GapChunk(last, s[0].block) + [ChunkOf(st, bs, s[0])] + ChunksOf(st, bs, End(bs, s[0]), s[1..])
  }

  /** The trailing skip; a length that is no whole number of blocks makes the writer drop it. */
  function TailChunk(bs: nat, len: nat, last: nat): seq<Chunk>
    requires bs > 0
  {
    if len > last * bs && (len - last * bs) % bs == 0 then [DontCareChunk((len - last * bs) / bs)] else []
  }

  function AllChunks(st: Store, bs: nat, len: nat, s: seq<Block>): seq<Chunk>
    requires bs > 0 && AllBacked(st, s)
  {
    ChunksOf(st, bs, 0, s) + TailChunk(bs, len, EndOf(bs, 0, s))
  }

  /** What `sparse_count_chunks` adds up over `s` from `last` on, without the trailing skip. */
  function CountBlocks(bs: nat, last: nat, s: seq<Block>): nat
    requires bs > 0
    decreases |s|
  {
    if s == [] then 0
    else (if s[0].block > last then 2 else 1) + CountBlocks(bs, End(bs, s[0]), s[1..])
  }

  function CountChunks(bs: nat, len: nat, s: seq<Block>): nat
    requires bs > 0
  {
    CountBlocks(bs, 0, s) + if EndOf(bs, 0, s) < DivRoundUp(len, bs) then 1 else 0
  }

  // ---- the writer's checksum ----

  /** One chunk's share of the writer's sum: one block of a fill, and nothing for a skip. */
  function WriterCrc(bs: nat, c: bv32, ch: Chunk): bv32 {
    match ch
    case RawChunk(_, data) => Crc32(c, data)
    case FillChunk(_, v) => Crc32(c, FillPattern(v, 4 * (bs / 4)))
    case DontCareChunk(_) => c
    case CrcChunk(_) => c
  }

  function WriterSum(bs: nat, cs: seq<Chunk>): bv32 {
    if cs == [] then 0 else WriterCrc(bs, WriterSum(bs, cs[..|cs| - 1]), cs[|cs| - 1])
  }

  function CrcTail(bs: nat, cs: seq<Chunk>, crc: bool): seq<Chunk> {
    if crc then [CrcChunk(WriterSum(bs, cs) as int)] else []
  }

  /** Everything `sparse_file_callback` emits in sparse mode for the file `(bs, len, s)`. */
  function SparseBytes(st: Store, bs: nat, len: nat, s: seq<Block>, crc: bool): seq<byte>
    requires bs > 0 && AllBacked(st, s)
  {
    var cs := AllChunks(st, bs, len, s);
    SparseHeader(bs, DivRoundUp(len, bs), CountChunks(bs, len, s) + if crc then 1 else 0) +
    EncodeChunks(cs + CrcTail(bs, cs, crc))
  }

  // ---- appending lists ----

  lemma ChunksCons(st: Store, bs: nat, last: nat, b: Block, s: seq<Block>)
    requires bs > 0 && AllBacked(st, s) && Backed(st, b)
    ensures AllBacked(st, [b] + s)
    ensures ChunksOf(st, bs, last, [b] + s) ==
      GapChunk(last, b.block) + [ChunkOf(st, bs, b)] + ChunksOf(st, bs, End(bs, b), s)
    ensures EndOf(bs, last, [b] + s) == EndOf(bs, End(bs, b), s)
  {
    assert ([b] + s)[1..] == s;
  }

  lemma {:induction false} ChunksAppend(st: Store, bs: nat, last: nat, s: seq<Block>, t: seq<Block>)
    requires bs > 0 && AllBacked(st, s) && AllBacked(st, t)
    ensures AllBacked(st, s + t)
    ensures ChunksOf(st, bs, last, s + t) ==
      ChunksOf(st, bs, last, s) + ChunksOf(st, bs, EndOf(bs, last, s), t)
    decreases |s|
  {
    if s == [] {
      assert s + t == t;
    } else {
      var b, r := s[0], s[1..];
      assert s == [b] + r && s + t == [b] + (r + t);
      ChunksAppend(st, bs, End(bs, b), r, t);
      ChunksCons(st, bs, last, b, r);
      ChunksCons(st, bs, last, b, r + t);
    }
  }

  lemma ChunksSnoc(st: Store, bs: nat, s: seq<Block>, b: Block)
    requires bs > 0 && AllBacked(st, s) && Backed(st, b)
    ensures AllBacked(st, s + [b])
    ensures ChunksOf(st, bs, 0, s + [b]) ==
      ChunksOf(st, bs, 0, s) + GapChunk(EndOf(bs, 0, s), b.block) + [ChunkOf(st, bs, b)]
    ensures EndOf(bs, 0, s + [b]) == End(bs, b)
  {
    ChunksAppend(st, bs, 0, s, [b]);
    EndOfAppend(bs, 0, s, [b]);
    assert [b][1..] == [];
    assert ChunksOf(st, bs, End(bs, b), []) == [];
  }

  // ---- what the header announces ----

  lemma {:induction false} CountIsLength(st: Store, bs: nat, last: nat, s: seq<Block>)
    requires bs > 0 && AllBacked(st, s)
    ensures |ChunksOf(st, bs, last, s)| == CountBlocks(bs, last, s)
    decreases |s|
  {
    if s != [] {
      CountIsLength(st, bs, End(bs, s[0]), s[1..]);
    }
  }

  lemma TailOfWhole(bs: nat, len: nat, last: nat)
    requires bs > 0 && last * bs <= len
    ensures (len - last * bs) % bs == len % bs
    ensures DivRoundUp(len, bs) == last + DivRoundUp(len - last * bs, bs)
  {
    DivRoundUpSplit(len, last, bs);
    var r := len - last * bs;
    DivMod(r, bs);
    Distribute(last, r / bs, bs);
    QuotientUnique(len, bs, last + r / bs);
    DivMod(len, bs);
  }

  /**
   * The announced chunk count is the count emitted exactly when the length is a whole number of blocks:
   * otherwise the trailing skip is counted but never written.
   */
  lemma AnnouncedIsEmitted(st: Store, bs: nat, len: nat, s: seq<Block>)
    requires bs > 0 && AllBacked(st, s) && EndOf(bs, 0, s) * bs <= len
    ensures CountChunks(bs, len, s) == |AllChunks(st, bs, len, s)| <==> len % bs == 0
  {
    var last := EndOf(bs, 0, s);
    CountIsLength(st, bs, 0, s);
    TailOfWhole(bs, len, last);
    AlignBounds(len - last * bs, bs);
    if len == last * bs {
      DivRoundUpOfMultiple(last, bs);
    }
  }

  /** The blocks of the chunks add up to the announced total. */
  function TotalBlocks(cs: seq<Chunk>): nat {
    if cs == [] then 0 else ChunkBlocks(cs[0]) + TotalBlocks(cs[1..])
  }

  lemma {:induction false} TotalAppend(a: seq<Chunk>, b: seq<Chunk>)
    ensures TotalBlocks(a + b) == TotalBlocks(a) + TotalBlocks(b)
    decreases |a|
  {
    if a == [] {
      assert a + b == b;
    } else {
      TotalAppend(a[1..], b);
      assert (a + b)[1..] == a[1..] + b;
    }
  }

  lemma {:induction false} TotalOfBlocks(st: Store, bs: nat, last: nat, s: seq<Block>)
    requires bs > 0 && AllBacked(st, s) && Ordered(bs, last, s)
    ensures last + TotalBlocks(ChunksOf(st, bs, last, s)) == EndOf(bs, last, s)
    decreases |s|
  {
    if s != [] {
      var b := s[0];
      var g, c := GapChunk(last, b.block), ChunkOf(st, bs, b);
      TotalOfBlocks(st, bs, End(bs, b), s[1..]);
      TotalAppend(g + [c], ChunksOf(st, bs, End(bs, b), s[1..]));
      TotalAppend(g, [c]);
      assert TotalBlocks([c]) == ChunkBlocks(c);
      assert g != [] ==> g[1..] == [];
    }
  }

  /** The emitted chunks cover exactly the blocks that the header announces. */
  lemma TotalIsAnnounced(st: Store, bs: nat, len: nat, s: seq<Block>)
    requires bs > 0 && AllBacked(st, s) && Ordered(bs, 0, s)
    requires len % bs == 0 && EndOf(bs, 0, s) * bs <= len
    ensures TotalBlocks(AllChunks(st, bs, len, s)) == DivRoundUp(len, bs)
  {
    var last := EndOf(bs, 0, s);
    TotalOfBlocks(st, bs, 0, s);
    TotalAppend(ChunksOf(st, bs, 0, s), TailChunk(bs, len, last));
    TailOfWhole(bs, len, last);
    RoundingAgrees(len - last * bs, bs);
    AlignBounds(len - last * bs, bs);
    var t := TailChunk(bs, len, last);
    assert t != [] ==> t[1..] == [];
  }
}
