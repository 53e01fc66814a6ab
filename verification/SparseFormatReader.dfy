/** What the sparse reader makes of a buffer: every check of the parser, in its order. */
module SparseFormatReader {
  import opened Wire
  import opened Arith
  import opened Blocks
  import opened Insertion
  import opened Crc
  import opened SparseFormat

  /** Out of bounds, a malformed field, or the process ending in an assert of the block list. */
  datatype ReadError = Overflow | Invalid | Aborted

  datatype Result<+T> = Ok(value: T) | Err(error: ReadError) {
    predicate IsFailure() {
      Err?
    }

    function PropagateFailure<U>(): Result<U>
      requires Err?
    {
      Err(error)
    }

    function Extract(): T
      requires Ok?
    {
      value
    }
  }

  /** The reader returns an error of its own; the process does not end. */
  predicate Refused<T>(r: Result<T>) {
    r.Err? && r.error != Aborted
  }

  datatype Header = Header(magic: u32, major: u16, fileHdrSz: u16, chunkHdrSz: u16, blkSz: u32,
                           totalBlks: u32, totalChunks: u32)

  function DecodeHeader(s: seq<byte>): Header
    requires |s| == SPARSE_HEADER_LEN
  {
    Header(FromLe32(s[0..4]), FromLe16(s[4..6]), FromLe16(s[8..10]), FromLe16(s[10..12]), FromLe32(s[12..16]),
           FromLe32(s[16..20]), FromLe32(s[20..24]))
  }

  datatype ChunkHead = ChunkHead(kind: u16, chunkSz: u32, totalSz: u32)

  function DecodeChunkHead(s: seq<byte>): ChunkHead
    requires |s| == CHUNK_HEADER_LEN
  {
    ChunkHead(FromLe16(s[0..2]), FromLe32(s[4..8]), FromLe32(s[8..12]))
  }

  /** `AccessOkay`: a positive length that ends inside the buffer. */
  function Access(buf: seq<byte>, offset: nat, len: nat): Result<()> {
    if len == 0 then Err(Invalid)
    else if offset >= |buf| || len > |buf| - offset then Err(Overflow)
    else Ok(())
  }

  /** Where the parser stands: source offset, next block, blocks queued so far, running sum. */
  datatype Reader = Reader(offset: nat, block: u32, blocks: seq<Block>, sum: bv32)

  function AddBlock(bs: nat, s: seq<Block>, b: Block): Result<seq<Block>>
    requires bs > 0
  {
    if HasStart(s, b.block) then Err(Aborted) else Ok(Insert(bs, s, b))
  }

  function DataSum(crc: bool, sum: bv32, buf: seq<byte>, offset: nat, len: nat): bv32
    requires offset + len <= |buf|
  {
    if crc then Crc32(sum, buf[offset..offset + len]) else sum
  }

  function FillSum(crc: bool, sum: bv32, v: u32, len: nat): bv32 {
    if crc then Crc32(sum, FillPattern(v, len)) else sum
  }

  function ZeroSum(crc: bool, sum: bv32, len: nat): bv32 {
    if crc then Crc32(sum, Zeros(len)) else sum
  }

  /** `AddToSparseFile`: bounds first, then the block list. */
  function AddData(buf: seq<byte>, offset: nat, bs: nat, s: seq<Block>, len: nat, block: u32): Result<seq<Block>>
    requires bs > 0
  {
    var _ :- Access(buf, offset, len);
    AddBlock(bs, s, Block(block, len, Data(buf, offset)))
  }

  function ReadRaw(buf: seq<byte>, bs: nat, dataSize: u32, n: u32, r: Reader, crc: bool): Result<Reader>
    requires bs > 0
  {
    if dataSize % bs != 0 || dataSize / bs != n then Err(Invalid)
    else
      var blocks :- AddData(buf, r.offset, bs, r.blocks, n * bs, r.block);
      Ok(r.(offset := r.offset + n * bs, blocks := blocks,
            sum := DataSum(crc, r.sum, buf, r.offset, n * bs)))
  }

  function ReadFill(buf: seq<byte>, bs: nat, dataSize: u32, n: u32, r: Reader, crc: bool): Result<Reader>
    requires bs > 0
  {
    if dataSize != 4 then Err(Invalid)
    else
      var _ :- Access(buf, r.offset, 4);
      var v := FromLe32(buf[r.offset..r.offset + 4]);
      var blocks :- AddBlock(bs, r.blocks, Block(r.block, n * bs, Fill(v)));
      Ok(r.(offset := r.offset + 4, blocks := blocks,
            sum := FillSum(crc, r.sum, v, n * bs)))
  }

  function ReadSkip(bs: nat, dataSize: u32, n: u32, r: Reader, crc: bool): Result<Reader> {
    if dataSize != 0 then Err(Invalid)
    else Ok(r.(sum := ZeroSum(crc, r.sum, n * bs)))
  }

  function ReadCrc(buf: seq<byte>, dataSize: u32, r: Reader, crc: bool): Result<Reader> {
    if dataSize != 4 then Err(Invalid)
    else
      var _ :- Access(buf, r.offset, 4);
      if crc && FromLe32(buf[r.offset..r.offset + 4]) != r.sum as int then Err(Invalid)
      else Ok(r.(offset := r.offset + 4))
  }

  /**
   * `process_chunk` and the addition to `cur_block`: the block count comes back as an int, so a count of
   * 2^31 or more reads as an error, and a chunk of unknown type counts for nothing.
   */
  function ProcessChunk(buf: seq<byte>, bs: nat, hdrSz: u16, h: ChunkHead, r: Reader, crc: bool): Result<Reader>
    requires bs > 0
  {
    var dataSize := Trunc32(h.totalSz - hdrSz);
    if h.kind == CHUNK_TYPE_CRC32 then ReadCrc(buf, dataSize, r, crc)
    else if h.kind != CHUNK_TYPE_RAW && h.kind != CHUNK_TYPE_FILL && h.kind != CHUNK_TYPE_DONT_CARE then Ok(r)
    else
      var r1 :- ChunkBody(buf, bs, dataSize, h.kind, h.chunkSz, r, crc);
      Advance(r1, h.chunkSz)
  }

  function ChunkBody(buf: seq<byte>, bs: nat, dataSize: u32, kind: u16, n: u32, r: Reader, crc: bool): Result<Reader>
    requires bs > 0
  {
    if kind == CHUNK_TYPE_RAW then ReadRaw(buf, bs, dataSize, n, r, crc)
    else if kind == CHUNK_TYPE_FILL then ReadFill(buf, bs, dataSize, n, r, crc)
    else ReadSkip(bs, dataSize, n, r, crc)
  }

  function Advance(r: Reader, n: u32): Result<Reader> {
    if n >= I32 then Err(Invalid) else Ok(r.(block := Trunc32(r.block + n)))
  }

  /** One turn of the loop: the header, the rest of a longer header, the chunk. */
  function ReadChunk(buf: seq<byte>, bs: nat, hdrSz: u16, r: Reader, crc: bool): Result<Reader>
    requires bs > 0 && hdrSz >= 12
  {
    var _ :- Access(buf, r.offset, CHUNK_HEADER_LEN);
    var h := DecodeChunkHead(buf[r.offset..r.offset + CHUNK_HEADER_LEN]);
    var r1 := r.(offset := r.offset + CHUNK_HEADER_LEN);
    if hdrSz > 12 then
      var _ :- Access(buf, r1.offset, hdrSz - CHUNK_HEADER_LEN);
      ProcessChunk(buf, bs, hdrSz, h, r1.(offset := r1.offset + (hdrSz - CHUNK_HEADER_LEN)), crc)
    else
      ProcessChunk(buf, bs, hdrSz, h, r1, crc)
  }

  function ReadChunks(buf: seq<byte>, bs: nat, hdrSz: u16, n: nat, r: Reader, crc: bool): Result<Reader>
    requires bs > 0 && hdrSz >= 12
    decreases n
  {
    if n == 0 then Ok(r)
    else
      var r1 :- ReadChunk(buf, bs, hdrSz, r, crc);
      ReadChunks(buf, bs, hdrSz, n - 1, r1, crc)
  }

  lemma ReadChunksStep(buf: seq<byte>, bs: nat, hdrSz: u16, n: nat, r: Reader, crc: bool, one: Result<Reader>)
    requires bs > 0 && hdrSz >= 12 && n > 0 && one == ReadChunk(buf, bs, hdrSz, r, crc)
    ensures one.Err? ==> ReadChunks(buf, bs, hdrSz, n, r, crc) == Err(one.error)
    ensures one.Ok? ==> ReadChunks(buf, bs, hdrSz, n, r, crc) == ReadChunks(buf, bs, hdrSz, n - 1, one.value, crc)
  {
  }

  lemma ReadNoChunks(buf: seq<byte>, bs: nat, hdrSz: u16, r: Reader, crc: bool)
    requires bs > 0 && hdrSz >= 12
    ensures ReadChunks(buf, bs, hdrSz, 0, r, crc) == Ok(r)
  {
  }

  function CheckHeader(h: Header): Result<()> {
    if h.magic != SPARSE_HEADER_MAGIC || h.major != 1 || h.fileHdrSz < 28 || h.chunkHdrSz < 12 then Err(Invalid)
    else Ok(())
  }

  /** `sparse_file_read_sparse` into an empty file, from the start of the buffer. */
  function ReadSparse(buf: seq<byte>, bs: nat, crc: bool): Result<seq<Block>>
    requires bs > 0
  {
    var _ :- Access(buf, 0, SPARSE_HEADER_LEN);
    var h := DecodeHeader(buf[0..SPARSE_HEADER_LEN]);
    var _ :- CheckHeader(h);
    var r := Reader(SPARSE_HEADER_LEN, 0, [], 0);
    var r1 :- SkipLongHeader(buf, h, r);
    var r2 :- ReadChunks(buf, bs, h.chunkHdrSz, h.totalChunks, r1, crc);
    if h.totalBlks != r2.block then Err(Invalid) else Ok(r2.blocks)
  }

  function SkipLongHeader(buf: seq<byte>, h: Header, r: Reader): Result<Reader>
    requires h.fileHdrSz >= 28
  {
    if h.fileHdrSz > 28 then
      var _ :- Access(buf, r.offset, h.fileHdrSz - SPARSE_HEADER_LEN);
      Ok(r.(offset := r.offset + (h.fileHdrSz - SPARSE_HEADER_LEN)))
    else Ok(r)
  }

  /** The file that `sparse_file_import_buf` returns. */
  datatype Imported = Imported(blockSize: nat, len: nat, blocks: seq<Block>)

  function ImageLen(totalBlks: nat, blkSz: nat): nat {
    totalBlks * blkSz
  }

  function Import(buf: seq<byte>, crc: bool): Result<Imported> {
    var _ :- Access(buf, 0, SPARSE_HEADER_LEN);
    var h := DecodeHeader(buf[0..SPARSE_HEADER_LEN]);
    var _ :- CheckHeader(h);
    if h.blkSz == 0 || h.blkSz % 4 != 0 || h.totalBlks == 0 then Err(Invalid)
    else
      var blocks :- ReadSparse(buf, h.blkSz, crc);
      Ok(Imported(h.blkSz, ImageLen(h.totalBlks, h.blkSz), blocks))
  }

  // ---- the parser can always queue the next block ----

  lemma MergeAtSorted(bs: nat, s: seq<Block>, i: nat)
    requires bs > 0 && Sorted(s)
    ensures Sorted(MergeAt(bs, s, i))
  {
  }

  /** A queued block with a new start keeps the list strictly sorted, even when blocks overlap. */
  lemma InsertSorted(bs: nat, s: seq<Block>, b: Block)
    requires bs > 0 && Sorted(s) && !HasStart(s, b.block)
    ensures Sorted(Insert(bs, s, b))
  {
    var k := Position(s, b.block);
    var r := s[..k] + [b] + s[k..];
    assert Sorted(r) by {
      forall i, j | 0 <= i < j < |r| ensures r[i].block < r[j].block {
        if i < k && j == k { assert r[i] == s[i]; }
        if i == k {
          assert r[j] == s[j - 1] && s[k].block <= s[j - 1].block;
          assert s[k].block != b.block;
        }
        if i < k && j > k { assert r[i] == s[i] && r[j] == s[j - 1]; }
        if i > k { assert r[i] == s[i - 1] && r[j] == s[j - 1]; }
      }
    }
    if k == 0 {
      assert r == [b] + s;
    } else {
      MergeAtSorted(bs, r, k);
      MergeAtSorted(bs, MergeAt(bs, r, k), k - 1);
    }
  }

  // ---- when the importer can end in the assert ----

  /** Every block queued so far starts before the next one. */
  predicate StartsBefore(s: seq<Block>, block: nat) {
    forall i :: 0 <= i < |s| ==> s[i].block < block
  }

  lemma MergeAtBefore(bs: nat, s: seq<Block>, i: nat, block: nat)
    requires bs > 0 && StartsBefore(s, block)
    ensures StartsBefore(MergeAt(bs, s, i), block)
  {
  }

  lemma InsertBefore(bs: nat, s: seq<Block>, b: Block, block: nat)
    requires bs > 0 && StartsBefore(s, block) && b.block < block
    ensures StartsBefore(Insert(bs, s, b), block)
  {
    hide MergeAt;
    var k := Position(s, b.block);
    var r := s[..k] + [b] + s[k..];
    assert StartsBefore(r, block);
    if k > 0 {
      MergeAtBefore(bs, r, k, block);
      MergeAtBefore(bs, MergeAt(bs, r, k), k - 1, block);
    }
  }

  lemma BeforeIsFree(s: seq<Block>, block: nat)
    requires StartsBefore(s, block)
    ensures !HasStart(s, block)
  {
  }

  /** The chunk at the reader takes block numbers of its own: a fill of some blocks, and no wrap-around. */
  predicate ChunkMoves(buf: seq<byte>, r: Reader) {
    r.offset + CHUNK_HEADER_LEN <= |buf| ==>
      var h := DecodeChunkHead(buf[r.offset..r.offset + CHUNK_HEADER_LEN]);
      (h.kind == CHUNK_TYPE_FILL ==> h.chunkSz > 0) && r.block + h.chunkSz < U32
  }

  lemma BeforeLater(s: seq<Block>, a: nat, b: nat)
    requires StartsBefore(s, a) && a <= b
    ensures StartsBefore(s, b)
  {
  }

  lemma BodyMoves(buf: seq<byte>, bs: nat, dataSize: u32, kind: u16, n: u32, r: Reader, crc: bool)
    requires bs > 0 && StartsBefore(r.blocks, r.block) && (kind == CHUNK_TYPE_FILL ==> n > 0)
    ensures var got := ChunkBody(buf, bs, dataSize, kind, n, r, crc);
      && got != Err(Aborted)
      && (got.Ok? ==> got.value.block == r.block && StartsBefore(got.value.blocks, r.block + n))
  {
    hide Insert, HasStart, StartsBefore, Crc32, FillPattern, FromLe32;
    BeforeIsFree(r.blocks, r.block);
    BeforeLater(r.blocks, r.block, r.block + n);
    if n > 0 {
      InsertBefore(bs, r.blocks, Block(r.block, n * bs, Data(buf, r.offset)), r.block + n);
      if r.offset + 4 <= |buf| {
        InsertBefore(bs, r.blocks, Block(r.block, n * bs, Fill(FromLe32(buf[r.offset..r.offset + 4]))), r.block + n);
      }
    }
  }

  lemma ReadChunkMoves(buf: seq<byte>, bs: nat, hdrSz: u16, r: Reader, crc: bool)
    requires bs > 0 && hdrSz >= 12 && StartsBefore(r.blocks, r.block) && ChunkMoves(buf, r)
    ensures var got := ReadChunk(buf, bs, hdrSz, r, crc);
      got != Err(Aborted) && (got.Ok? ==> StartsBefore(got.value.blocks, got.value.block))
  {
    hide StartsBefore, ChunkBody, DecodeChunkHead, FromLe32;
    if r.offset + CHUNK_HEADER_LEN <= |buf| {
      var h := DecodeChunkHead(buf[r.offset..r.offset + CHUNK_HEADER_LEN]);
      BodyMoves(buf, bs, Trunc32(h.totalSz - hdrSz), h.kind, h.chunkSz, r.(offset := r.offset + hdrSz), crc);
    }
  }

  /** So do all chunks that are read. */
  predicate AllMove(buf: seq<byte>, bs: nat, hdrSz: u16, n: nat, r: Reader, crc: bool)
    requires bs > 0 && hdrSz >= 12
    decreases n
  {
    n == 0 ||
    (ChunkMoves(buf, r) &&
     (ReadChunk(buf, bs, hdrSz, r, crc).Ok? ==> AllMove(buf, bs, hdrSz, n - 1, ReadChunk(buf, bs, hdrSz, r, crc).value, crc)))
  }

  lemma {:induction false} ChunksMove(buf: seq<byte>, bs: nat, hdrSz: u16, n: nat, r: Reader, crc: bool)
    requires bs > 0 && hdrSz >= 12 && StartsBefore(r.blocks, r.block) && AllMove(buf, bs, hdrSz, n, r, crc)
    ensures ReadChunks(buf, bs, hdrSz, n, r, crc) != Err(Aborted)
    decreases n
  {
    hide StartsBefore, ReadChunk, ChunkMoves;
    if n > 0 {
      ReadChunkMoves(buf, bs, hdrSz, r, crc);
      var one := ReadChunk(buf, bs, hdrSz, r, crc);
      if one.Ok? {
        ChunksMove(buf, bs, hdrSz, n - 1, one.value, crc);
      }
    }
  }

  /** The importer ends in the assert only behind a fill of no blocks, or when block numbers wrap around. */
  lemma AbortNeedsRepeat(buf: seq<byte>, crc: bool)
    requires Import(buf, crc) == Err(Aborted)
    ensures |buf| >= SPARSE_HEADER_LEN
    ensures var h := DecodeHeader(buf[0..SPARSE_HEADER_LEN]);
      && h.blkSz > 0 && h.fileHdrSz >= 28 && h.chunkHdrSz >= 12
      && !AllMove(buf, h.blkSz, h.chunkHdrSz, h.totalChunks, Reader(h.fileHdrSz, 0, [], 0), crc)
  {
    hide ReadChunks, AllMove, DecodeHeader;
    var h := DecodeHeader(buf[0..SPARSE_HEADER_LEN]);
    var r := Reader(h.fileHdrSz, 0, [], 0);
    if AllMove(buf, h.blkSz, h.chunkHdrSz, h.totalChunks, r, crc) {
      ChunksMove(buf, h.blkSz, h.chunkHdrSz, h.totalChunks, r, crc);
    }
  }

  // ---- where imported blocks get their bytes ----

  /** Blocks that lie inside a buffer in memory, or are fills. */
  predicate InMemory(s: seq<Block>) {
    forall i :: 0 <= i < |s| ==>
      match s[i].backing
      case Data(b, at) => at + s[i].len <= |b|
      case Fill(_) => true
      case _ => false
  }

  lemma MergeAtInMemory(bs: nat, s: seq<Block>, i: nat)
    requires bs > 0 && InMemory(s)
    ensures InMemory(MergeAt(bs, s, i))
  {
  }

  lemma InsertInMemory(bs: nat, s: seq<Block>, b: Block)
    requires bs > 0 && InMemory(s) && InMemory([b])
    ensures InMemory(Insert(bs, s, b))
  {
    hide MergeAt;
    assert [b][0] == b;
    var k := Position(s, b.block);
    var r := s[..k] + [b] + s[k..];
    assert InMemory(r);
    if k > 0 {
      MergeAtInMemory(bs, r, k);
      MergeAtInMemory(bs, MergeAt(bs, r, k), k - 1);
    }
  }

  lemma ReadChunkInMemory(buf: seq<byte>, bs: nat, hdrSz: u16, r: Reader, crc: bool)
    requires bs > 0 && hdrSz >= 12 && InMemory(r.blocks)
    ensures var got := ReadChunk(buf, bs, hdrSz, r, crc); got.Ok? ==> InMemory(got.value.blocks)
  {
    hide Insert, InMemory, HasStart, Crc32, DecodeChunkHead, FromLe32;
    var got := ReadChunk(buf, bs, hdrSz, r, crc);
    if got.Ok? {
      var h := DecodeChunkHead(buf[r.offset..r.offset + CHUNK_HEADER_LEN]);
      var at := r.offset + hdrSz;
      var n := h.chunkSz * bs;
      if h.kind == CHUNK_TYPE_RAW {
        DataInMemory(buf, at, r.block, n);
        InsertInMemory(bs, r.blocks, Block(r.block, n, Data(buf, at)));
      } else if h.kind == CHUNK_TYPE_FILL {
        var v := FromLe32(buf[at..at + 4]);
        FillInMemory(r.block, n, v);
        InsertInMemory(bs, r.blocks, Block(r.block, n, Fill(v)));
      }
    }
  }

  lemma DataInMemory(buf: seq<byte>, at: nat, block: nat, n: nat)
    requires at + n <= |buf|
    ensures InMemory([Block(block, n, Data(buf, at))])
  {
  }

  lemma FillInMemory(block: nat, n: nat, v: u32)
    ensures InMemory([Block(block, n, Fill(v))])
  {
  }

  lemma {:induction false} ReadChunksInMemory(buf: seq<byte>, bs: nat, hdrSz: u16, n: nat, r: Reader, crc: bool)
    requires bs > 0 && hdrSz >= 12 && InMemory(r.blocks)
    ensures var got := ReadChunks(buf, bs, hdrSz, n, r, crc); got.Ok? ==> InMemory(got.value.blocks)
    decreases n
  {
    hide InMemory, ReadChunk;
    if n > 0 {
      ReadChunkInMemory(buf, bs, hdrSz, r, crc);
      var one := ReadChunk(buf, bs, hdrSz, r, crc);
      if one.Ok? {
        ReadChunksInMemory(buf, bs, hdrSz, n - 1, one.value, crc);
      }
    }
  }

  /** Whatever buffer is imported, every byte the imported file refers to is there. */
  lemma ImportInMemory(st: Store, buf: seq<byte>, crc: bool)
    ensures var got := Import(buf, crc);
      got.Ok? ==> got.value.blockSize > 0 && got.value.blockSize % 4 == 0 && got.value.len > 0 && AllBacked(st, got.value.blocks)
  {
    hide ReadChunks, DecodeHeader;
    var got := Import(buf, crc);
    if got.Ok? {
      var h := DecodeHeader(buf[0..SPARSE_HEADER_LEN]);
      var r := SkipLongHeader(buf, h, Reader(SPARSE_HEADER_LEN, 0, [], 0)).value;
      ReadChunksInMemory(buf, h.blkSz, h.chunkHdrSz, h.totalChunks, r, crc);
      MulMono(1, h.totalBlks, h.blkSz);
      MemoryIsBacked(st, got.value.blocks);
    }
  }

  lemma MemoryIsBacked(st: Store, s: seq<Block>)
    requires InMemory(s)
    ensures AllBacked(st, s)
  {
  }
}
