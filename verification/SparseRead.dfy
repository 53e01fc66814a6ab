/** The sparse reader itself: a source with a moving position, and the loops that fill a sparse file. */
module SparseRead {
  import opened Wire
  import opened Arith
  import opened Blocks
  import opened Insertion
  import opened BackedBlockList
  import opened Crc
  import opened SparseFormat
  import opened SparseFormatReader
  import opened OutputFile
  import opened SparseFile

  const COPY_BUF_SIZE: nat := 0x10_0000

  /** The source of `sparse_file_import_buf`: a buffer and an offset into it. */
  class SparseFileBufSource {
    const buf: seq<byte>
    var offset: nat

    constructor (buf: seq<byte>)
      ensures this.buf == buf && offset == 0
    {
      this.buf := buf;
      offset := 0;
    }

    method AccessOkay(len: nat) returns (r: Result<()>)
      ensures r.Ok? <==> 0 < len && offset + len <= |buf|
      ensures r == Err(Invalid) <==> len == 0
      ensures r == Access(buf, offset, len)
    {
      if len == 0 {
        return Err(Invalid);
      }
      if offset >= |buf| {
        return Err(Overflow);
      }
      if len > |buf| - offset {
        return Err(Overflow);
      }
      return Ok(());
    }

    method Seek(off: nat) returns (r: Result<()>)
      modifies this
      ensures r == Access(buf, old(offset), off)
      ensures offset == old(offset) + if r.Ok? then off else 0
    {
      r := AccessOkay(off);
      if r.Ok? {
        offset := offset + off;
      }
    }

    method Rewind()
      modifies this
      ensures offset == 0
    {
      offset := 0;
    }

    method ReadValue(len: nat) returns (r: Result<seq<byte>>)
      modifies this
      ensures r.Ok? <==> Access(buf, old(offset), len).Ok?
      ensures r.Err? ==> Access(buf, old(offset), len) == Err(r.error)
      ensures r.Ok? ==> old(offset) + len <= |buf| && r.value == buf[old(offset)..old(offset) + len]
      ensures offset == old(offset) + if r.Ok? then len else 0
    {
      var ok := AccessOkay(len);
      if ok.Err? {
        return Err(ok.error);
      }
      r := Ok(buf[offset..offset + len]);
      offset := offset + len;
    }

    method GetCrc32(sum: bv32, len: nat) returns (r: Result<bv32>)
      modifies this
      ensures r.Ok? <==> Access(buf, old(offset), len).Ok?
      ensures r.Err? ==> Access(buf, old(offset), len) == Err(r.error)
      ensures r.Ok? ==> old(offset) + len <= |buf| && r.value == Crc32(sum, buf[old(offset)..old(offset) + len])
      ensures offset == old(offset) + if r.Ok? then len else 0
    {
      var ok := AccessOkay(len);
      if ok.Err? {
        return Err(ok.error);
      }
      var c := SparseCrc32(sum, buf[offset..offset + len]);
      offset := offset + len;
      return Ok(c);
    }

    method AddToSparseFile(s: SparseFile, len: nat, block: u32) returns (r: Result<()>)
      requires s.Valid() && Sorted(s.list.contents)
      modifies s.list, s.list.repr
      ensures var want := AddData(buf, offset, s.blockSize, old(s.list.contents), len, block);
        && (r.Ok? <==> want.Ok?) && (r.Err? ==> want == Err(r.error))
        && (r.Ok? ==> s.Valid() && s.list.contents == want.value)
      ensures r.Ok? ==> fresh(s.list.repr - old(s.list.repr))
    {
      r := AccessOkay(len);
      if r.Ok? {
        var added := s.Add(Block(block, len, Data(buf, offset)));
        if !added {
          return Err(ReadError.Aborted);
        }
      }
    }
  }

  /** The state the reader is in, as a value. */
  ghost predicate Reached(s: SparseFile, source: SparseFileBufSource, block: u32, sum: bv32,
                          got: Result<()>, want: Result<Reader>)
    reads s, s.list, s.list.repr, source
  {
    && (got.Ok? <==> want.Ok?)
    && (got.Err? ==> want == Err(got.error))
    && (got.Ok? ==>
      && s.Valid() && Sorted(s.list.contents)
      && want.value == Reader(source.offset, block, s.list.contents, sum))
  }

  method ProcessRawChunk(s: SparseFile, dataSize: u32, source: SparseFileBufSource, blocks: u32, block: u32,
                         crc: bool, sumIn: bv32, ghost want: Result<Reader>) returns (r: Result<()>, sum: bv32)
    requires s.Valid() && Sorted(s.list.contents)
    requires want == ReadRaw(source.buf, s.blockSize, dataSize, blocks,
      Reader(source.offset, block, s.list.contents, sumIn), crc)
    modifies s.list, s.list.repr, source
    ensures Reached(s, source, block, sum, r, want)
    ensures r.Ok? ==> fresh(s.list.repr - old(s.list.repr))
  {
    sum := sumIn;
    var len := blocks * s.blockSize;
    if dataSize % s.blockSize != 0 {
      return Err(Invalid), sum;
    }
    if dataSize / s.blockSize != blocks {
      return Err(Invalid), sum;
    }
    AddSorted(s.blockSize, s.list.contents, Block(block, len, Data(source.buf, source.offset)));
    r := source.AddToSparseFile(s, len, block);
    if r.Err? {
      return;
    }
    sum := PassData(source, len, crc, sumIn);
  }

  /** The bytes just queued are either summed or skipped. */
  method PassData(source: SparseFileBufSource, len: nat, crc: bool, sumIn: bv32) returns (sum: bv32)
    requires Access(source.buf, source.offset, len).Ok?
    modifies source
    ensures source.offset == old(source.offset) + len
    ensures sum == DataSum(crc, sumIn, source.buf, old(source.offset), len)
  {
    sum := sumIn;
    if crc {
      var c := source.GetCrc32(sum, len);
      sum := c.value;
    } else {
      var _ := source.Seek(len);
    }
  }

  /** The sum of a fill of `len` bytes, taken in pieces of the copy buffer. */
  method SumOfFill(sumIn: bv32, v: u32, len: nat) returns (sum: bv32)
    ensures sum == Crc32(sumIn, FillPattern(v, len))
  {
    hide Crc32, FillPattern;
    sum := sumIn;
    var done := 0;
    ghost var words := 0;
    EmptySum(sumIn);
    assert FillPattern(v, 0) == [];
    while done < len
      invariant 0 <= done <= len && (done < len ==> done == 4 * words)
      invariant sum == Crc32(sumIn, FillPattern(v, done))
    {
      var chunk := Min(len - done, COPY_BUF_SIZE);
      PatternAppend(v, words, chunk);
      Streams(sumIn, FillPattern(v, 4 * words), FillPattern(v, chunk));
      sum := SparseCrc32(sum, FillPattern(v, chunk));
      done := done + chunk;
      words := words + COPY_BUF_SIZE / 4;
    }
  }

  method SumFillIf(crc: bool, sumIn: bv32, v: u32, len: nat) returns (sum: bv32)
    ensures sum == FillSum(crc, sumIn, v, len)
  {
    sum := sumIn;
    if crc {
      sum := SumOfFill(sumIn, v, len);
    }
  }

  method SumZerosIf(crc: bool, sumIn: bv32, len: nat) returns (sum: bv32)
    ensures sum == ZeroSum(crc, sumIn, len)
  {
    sum := sumIn;
    if crc {
      sum := SumOfZeros(sumIn, len);
    }
  }

  method SumOfZeros(sumIn: bv32, len: nat) returns (sum: bv32)
    ensures sum == Crc32(sumIn, Zeros(len))
  {
    sum := sumIn;
    var done := 0;
    EmptySum(sumIn);
    assert Zeros(0) == [];
    while done < len
      invariant 0 <= done <= len
      invariant sum == Crc32(sumIn, Zeros(done))
    {
      var chunk := Min(len - done, COPY_BUF_SIZE);
      ZerosAppend(done, chunk);
      Streams(sumIn, Zeros(done), Zeros(chunk));
      sum := SparseCrc32(sum, Zeros(chunk));
      done := done + chunk;
    }
  }

  method ProcessFillChunk(s: SparseFile, dataSize: u32, source: SparseFileBufSource, blocks: u32, block: u32,
                          crc: bool, sumIn: bv32, ghost want: Result<Reader>) returns (r: Result<()>, sum: bv32)
    requires s.Valid() && Sorted(s.list.contents)
    requires want == ReadFill(source.buf, s.blockSize, dataSize, blocks,
      Reader(source.offset, block, s.list.contents, sumIn), crc)
    modifies s.list, s.list.repr, source
    ensures Reached(s, source, block, sum, r, want)
    ensures r.Ok? ==> fresh(s.list.repr - old(s.list.repr))
  {
    sum := sumIn;
    var len := blocks * s.blockSize;
    if dataSize != 4 {
      return Err(Invalid), sum;
    }
    var word := source.ReadValue(4);
    if word.Err? {
      return Err(word.error), sum;
    }
    var v := FromLe32(word.value);
    AddSorted(s.blockSize, s.list.contents, Block(block, len, Fill(v)));
    var added := s.Add(Block(block, len, Fill(v)));
    if !added {
      return Err(ReadError.Aborted), sum;
    }
    sum := SumFillIf(crc, sumIn, v, len);
    r := Ok(());
  }

  method ProcessSkipChunk(s: SparseFile, dataSize: u32, source: SparseFileBufSource, blocks: u32, block: u32,
                          crc: bool, sumIn: bv32, ghost want: Result<Reader>) returns (r: Result<()>, sum: bv32)
    requires s.Valid() && Sorted(s.list.contents)
    requires want == ReadSkip(s.blockSize, dataSize, blocks,
      Reader(source.offset, block, s.list.contents, sumIn), crc)
    ensures Reached(s, source, block, sum, r, want)
  {
    sum := sumIn;
    if dataSize != 0 {
      return Err(Invalid), sum;
    }
    sum := SumZerosIf(crc, sumIn, blocks * s.blockSize);
    r := Ok(());
  }

  method ProcessCrc32Chunk(s: SparseFile, source: SparseFileBufSource, dataSize: u32, block: u32,
                           crc: bool, sum: bv32) returns (r: Result<()>)
    requires s.Valid() && Sorted(s.list.contents)
    modifies source
    ensures Reached(s, source, block, sum, r, ReadCrc(source.buf, dataSize,
      Reader(old(source.offset), block, s.list.contents, sum), crc))
  {
    if dataSize != 4 {
      return Err(Invalid);
    }
    var word := source.ReadValue(4);
    if word.Err? {
      return Err(word.error);
    }
    if crc && FromLe32(word.value) != sum as int {
      return Err(Invalid);
    }
    return Ok(());
  }

  method ProcessChunkAt(s: SparseFile, source: SparseFileBufSource, hdrSz: u16, h: ChunkHead, curBlock: u32,
                        crc: bool, sumIn: bv32, ghost want: Result<Reader>)
    returns (r: Result<()>, block: u32, sum: bv32)
    requires s.Valid() && Sorted(s.list.contents)
    requires want == ProcessChunk(source.buf, s.blockSize, hdrSz, h,
      Reader(source.offset, curBlock, s.list.contents, sumIn), crc)
    modifies s.list, s.list.repr, source
    ensures Reached(s, source, block, sum, r, want)
    ensures r.Ok? ==> fresh(s.list.repr - old(s.list.repr))
  {
    hide BackedBlockList.Linked, Sorted;
    sum, block := sumIn, curBlock;
    var dataSize := Trunc32(h.totalSz - hdrSz);
    ghost var from := Reader(source.offset, curBlock, s.list.contents, sumIn);
    if h.kind == CHUNK_TYPE_CRC32 {
      r := ProcessCrc32Chunk(s, source, dataSize, curBlock, crc, sumIn);
      return;
    }
    ghost var body := ChunkBody(source.buf, s.blockSize, dataSize, h.kind, h.chunkSz, from, crc);
    if h.kind == CHUNK_TYPE_RAW {
      r, sum := ProcessRawChunk(s, dataSize, source, h.chunkSz, curBlock, crc, sumIn, body);
    } else if h.kind == CHUNK_TYPE_FILL {
      r, sum := ProcessFillChunk(s, dataSize, source, h.chunkSz, curBlock, crc, sumIn, body);
    } else if h.kind == CHUNK_TYPE_DONT_CARE {
      r, sum := ProcessSkipChunk(s, dataSize, source, h.chunkSz, curBlock, crc, sumIn, body);
    } else {
      return Ok(()), block, sum;
    }
    if r.Ok? {
      if h.chunkSz >= I32 {
        return Err(Invalid), block, sum;
      }
      block := Trunc32(curBlock + h.chunkSz);
    }
  }

  method ReadOneChunk(s: SparseFile, source: SparseFileBufSource, hdrSz: u16, curBlock: u32,
                      crc: bool, sumIn: bv32, ghost want: Result<Reader>)
    returns (r: Result<()>, block: u32, sum: bv32)
    requires s.Valid() && Sorted(s.list.contents) && hdrSz >= 12
    requires want == ReadChunk(source.buf, s.blockSize, hdrSz,
      Reader(source.offset, curBlock, s.list.contents, sumIn), crc)
    modifies s.list, s.list.repr, source
    ensures Reached(s, source, block, sum, r, want)
    ensures r.Ok? ==> fresh(s.list.repr - old(s.list.repr))
  {
    hide BackedBlockList.Linked, Sorted, ProcessChunk;
    sum, block := sumIn, curBlock;
    var head := source.ReadValue(CHUNK_HEADER_LEN);
    if head.Err? {
      return Err(head.error), block, sum;
    }
    if hdrSz > 12 {
      r := source.Seek(hdrSz - CHUNK_HEADER_LEN);
      if r.Err? {
        return;
      }
    }
    r, block, sum := ProcessChunkAt(s, source, hdrSz, DecodeChunkHead(head.value), curBlock, crc, sumIn, want);
  }

  method ReadSparseInto(s: SparseFile, source: SparseFileBufSource, crc: bool) returns (r: Result<()>)
    requires s.Valid() && s.list.contents == [] && source.offset == 0
    modifies s.list, s.list.repr, source
    ensures var want := ReadSparse(source.buf, s.blockSize, crc);
      && (r.Ok? <==> want.Ok?) && (r.Err? ==> want == Err(r.error))
      && (r.Ok? ==> s.Valid() && s.list.contents == want.value)
  {
    var bytes := source.ReadValue(SPARSE_HEADER_LEN);
    if bytes.Err? {
      return Err(bytes.error);
    }
    var h := DecodeHeader(bytes.value);
    if h.magic != SPARSE_HEADER_MAGIC || h.major != 1 || h.fileHdrSz < 28 || h.chunkHdrSz < 12 {
      return Err(Invalid);
    }
    if h.fileHdrSz > 28 {
      r := source.Seek(h.fileHdrSz - SPARSE_HEADER_LEN);
      if r.Err? {
        return;
      }
    }
    var curBlock, sum;
    ghost var want := ReadChunks(source.buf, s.blockSize, h.chunkHdrSz, h.totalChunks, Reader(source.offset, 0, [], 0), crc);
    r, curBlock, sum := ReadChunkLoop(s, source, h, crc, want);
    if r.Ok? && h.totalBlks != curBlock {
      return Err(Invalid);
    }
  }

  /** The loop over `n` chunks still to be read comes to what the whole loop comes to. */
  ghost predicate Remaining(s: SparseFile, source: SparseFileBufSource, block: u32, sum: bv32,
                            hdrSz: u16, n: nat, crc: bool, want: Result<Reader>)
    requires hdrSz >= 12
    reads s, s.list, s.list.repr, source
  {
    && s.Valid() && Sorted(s.list.contents)
    && want == ReadChunks(source.buf, s.blockSize, hdrSz, n, Reader(source.offset, block, s.list.contents, sum), crc)
  }

  method ReadChunkLoop(s: SparseFile, source: SparseFileBufSource, h: Header, crc: bool, ghost want: Result<Reader>)
    returns (r: Result<()>, block: u32, sum: bv32)
    requires h.chunkHdrSz >= 12 && s.list.contents == []
    requires Remaining(s, source, 0, 0, h.chunkHdrSz, h.totalChunks, crc, want)
    modifies s.list, s.list.repr, source
    ensures Reached(s, source, block, sum, r, want)
  {
    hide BackedBlockList.Linked, Sorted, ReadChunks;
    sum, block := 0, 0;
    r := Ok(());
    var i := 0;
    while i < h.totalChunks
      invariant 0 <= i <= h.totalChunks
      invariant fresh(s.list.repr - old(s.list.repr))
      invariant Remaining(s, source, block, sum, h.chunkHdrSz, h.totalChunks - i, crc, want)
    {
      r, block, sum := ReadNextChunk(s, source, h.chunkHdrSz, block, crc, sum, h.totalChunks - i, want);
      if r.Err? {
        return;
      }
      i := i + 1;
    }
    r := Ok(());
    ReadNoChunks(source.buf, s.blockSize, h.chunkHdrSz, Reader(source.offset, block, s.list.contents, sum), crc);
  }

  method ReadNextChunk(s: SparseFile, source: SparseFileBufSource, hdrSz: u16, curBlock: u32, crc: bool,
                       sumIn: bv32, ghost n: nat, ghost want: Result<Reader>)
    returns (r: Result<()>, block: u32, sum: bv32)
    requires hdrSz >= 12 && n > 0
    requires Remaining(s, source, curBlock, sumIn, hdrSz, n, crc, want)
    modifies s.list, s.list.repr, source
    ensures r.Err? ==> want == Err(r.error)
    ensures r.Ok? ==> fresh(s.list.repr - old(s.list.repr))
    ensures r.Ok? ==> Remaining(s, source, block, sum, hdrSz, n - 1, crc, want)
  {
    ghost var at := Reader(source.offset, curBlock, s.list.contents, sumIn);
    ghost var one := ReadChunk(source.buf, s.blockSize, hdrSz, at, crc);
    ReadChunksStep(source.buf, s.blockSize, hdrSz, n, at, crc, one);
    r, block, sum := ReadOneChunk(s, source, hdrSz, curBlock, crc, sumIn, one);
  }

  /**
   * `sparse_file_import_buf`: a check that fails comes back as a null file, but a second block at a
   * block number that is taken ends the process in the assert of the block list.
   */
  method SparseFileImportBuf(buf: seq<byte>, crc: bool) returns (status: Status, s: SparseFile?)
    ensures status == Status.Aborted <==> Import(buf, crc) == Err(ReadError.Aborted)
    ensures status == Done ==> (s == null <==> Import(buf, crc) == Err(Overflow) || Import(buf, crc) == Err(Invalid))
    ensures status == Status.Aborted ==> s == null
    ensures s != null ==> fresh(s) && fresh(s.list) && s.Valid()
    ensures s != null ==> Import(buf, crc) == Ok(Imported(s.blockSize, s.len, s.list.contents))
  {
    var source := new SparseFileBufSource(buf);
    var bytes := source.ReadValue(SPARSE_HEADER_LEN);
    if bytes.Err? {
      return Done, null;
    }
    var h := DecodeHeader(bytes.value);
    if h.magic != SPARSE_HEADER_MAGIC || h.major != 1 || h.fileHdrSz < 28 || h.chunkHdrSz < 12 {
      return Done, null;
    }
    if h.blkSz == 0 || h.blkSz % 4 != 0 {
      return Done, null;
    }
    if h.totalBlks == 0 {
      return Done, null;
    }
    var file := new SparseFile(h.blkSz, ImageLen(h.totalBlks, h.blkSz));
    source.Rewind();
    var r := ReadSparseInto(file, source, crc);
    if r.Err? {
      return if r.error == ReadError.Aborted then Status.Aborted else Done, null;
    }
    return Done, file;
  }

  lemma AddSorted(bs: nat, s: seq<Block>, b: Block)
    requires bs > 0 && Sorted(s)
    ensures AddBlock(bs, s, b).Ok? ==> Sorted(AddBlock(bs, s, b).value)
  {
    if !HasStart(s, b.block) {
      InsertSorted(bs, s, b);
    }
  }
}
