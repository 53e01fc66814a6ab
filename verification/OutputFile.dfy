/** The writer object: chunk writers for the sparse and the plain format over a callback. */
module OutputFile {
  import opened Wire
  import opened Arith
  import opened Blocks
  import opened Crc
  import opened SparseFormat
  import opened OutputCalls

  const FILL_ZERO_BUFSIZE: nat := 0x20_0000
  const MAX_MMAP_SIZE: nat := 0x1000_0000
  const INT_MAX: nat := 0x7fff_ffff

  /** A sparse output holding `before` that has been given one more chunk. */
  lemma ChunkDone(bs: nat, header: seq<byte>, emitted: seq<Chunk>, c: Chunk, before: seq<byte>, after: seq<byte>)
    requires before == header + EncodeChunks(emitted) && after == before + EncodeChunk(c)
    ensures after == header + EncodeChunks(emitted + [c])
    ensures WriterSum(bs, emitted + [c]) == WriterCrc(bs, WriterSum(bs, emitted), c)
  {
    EncodeAppend(emitted, [c]);
    EncodeOne(c);
    Associates(header, EncodeChunks(emitted), EncodeChunk(c));
    assert (emitted + [c])[..|emitted|] == emitted;
  }

  lemma SentOne(h: seq<byte>)
    ensures Sent([Write(h, Checked)]) == h && Sent([]) == []
  {
    SentSnoc([], h, Checked);
    assert [] + [Write(h, Checked)] == [Write(h, Checked)];
  }

  lemma LooseOne(h: seq<byte>)
    ensures Loose([Write(h, Checked)]) == Same(|h|, false) == EmittedLoose(|h|, [])
  {
    hide Same;
    LooseSnoc([], Write(h, Checked));
    assert [] + [Write(h, Checked)] == [Write(h, Checked)];
    assert Loose([]) == [];
    assert [] + Same(|h|, false) == Same(|h|, false);
  }

  lemma ShapedOne(h: seq<byte>)
    ensures Shaped([Write(h, Checked)]) && PlainShaped([]) && Shaped([]) && AllWrites([Write(h, Checked)])
  {
  }

  /** An output that holds its header and nothing else. */
  lemma HeaderAlone(h: seq<byte>)
    ensures var calls := [Write(h, Checked)];
      && Shaped(calls) && AllWrites(calls) && Sent(calls) == h + EncodeChunks([]) && Loose(calls) == EmittedLoose(|h|, [])
    ensures Shaped([]) && PlainShaped([])
  {
    hide Sent, Loose, EmittedLoose, EncodeChunks, Shaped, PlainShaped, AllWrites, Same;
    SentOne(h);
    LooseOne(h);
    ShapedOne(h);
    NothingEncoded(h);
  }

  /** A failure to put out a don't-care or a checksum chunk is passed over. */
  function ChunkLoose(c: Chunk): seq<bool> {
    Same(|EncodeChunk(c)|, c.DontCareChunk? || c.CrcChunk?)
  }

  /** The same for a header of `n` bytes and the chunks behind it. */
  function EmittedLoose(n: nat, cs: seq<Chunk>): seq<bool> {
    if cs == [] then Same(n, false) else EmittedLoose(n, cs[..|cs| - 1]) + ChunkLoose(cs[|cs| - 1])
  }

  lemma EmittedSnoc(n: nat, cs: seq<Chunk>, c: Chunk)
    ensures EmittedLoose(n, cs + [c]) == EmittedLoose(n, cs) + ChunkLoose(c)
  {
    assert (cs + [c])[..|cs|] == cs;
  }

  /** The calls of a checked chunk, all of them checked, are as strict as the chunk. */
  lemma CheckedChunk(was: seq<Call>, now: seq<Call>, c: Chunk)
    requires Adds(was, now) && AllWrites(was) && AllWrites(now) && !c.DontCareChunk? && !c.CrcChunk?
    requires Sent(now) == Sent(was) + EncodeChunk(c)
    ensures Loose(now) == Loose(was) + ChunkLoose(c)
  {
    SentIsCounted(was);
    SentIsCounted(now);
    AddsLoose(was, now);
  }

  lemma WriterSumOfNone(bs: nat)
    ensures WriterSum(bs, []) == 0
  {
  }

  lemma NothingEncoded(h: seq<byte>)
    ensures h + EncodeChunks([]) == h
  {
  }

  lemma ZerosAppend(m: nat, n: nat)
    ensures Zeros(m) + Zeros(n) == Zeros(m + n)
  {
  }

  // ---- the calls that the writers make ----

  function ZeroCalls(n: nat): seq<Call> {
    if n == 0 then []
    else var k := Min(n, FILL_ZERO_BUFSIZE); [Write(Zeros(k), Checked)] + ZeroCalls(n - k)
  }

  /** One call for each mapped piece of a file. */
  function MappedCalls(file: seq<byte>, at: nat, end: nat): seq<Call>
    requires at <= end <= |file|
    decreases end - at
  {
    if at == end then []
    else var k := Min(MAX_MMAP_SIZE, end - at); [Write(file[at..at + k], Checked)] + MappedCalls(file, at + k, end)
  }

  function FillCalls(v: u32, n: nat): seq<Call> {
    if n == 0 then []
    else var k := Min(n, FILL_ZERO_BUFSIZE); [Write(FillPattern(v, k), Checked)] + FillCalls(v, n - k)
  }

  /** A skip in pieces that fit an int; when its failure is passed over, one that fails takes the rest with it. */
  function SkipCalls(off: nat, loose: bool, first: bool): seq<Call>
    decreases off
  {
    if off == 0 then []
    else
      var k := Min(off, INT_MAX);
      [Skip(k, SkipMark(loose, first))] + SkipCalls(off - k, loose, false)
  }

  function SkipMark(loose: bool, first: bool): Mark {
    if !loose then Checked else if first then Dropped else Continued
  }

  function SkipChunkCalls(blocks: nat): seq<Call> {
    [Write(ChunkHeader(CHUNK_TYPE_DONT_CARE, blocks, 0), Dropped)]
  }

  function FillChunkCalls(bs: nat, length: nat, v: u32): seq<Call>
    requires bs > 0
  {
    [Write(ChunkHeader(CHUNK_TYPE_FILL, DivRoundUp(length, bs), 4), Checked), Write(Le32(v), Checked)]
  }

  function DataChunkCalls(bs: nat, data: seq<byte>): seq<Call>
    requires bs > 0
  {
    AlignBounds(|data|, bs);
    [Write(RawHeader(bs, |data|), Checked), Write(data, Checked)] + ZeroCalls(Align(|data|, bs) - |data|)
  }

  function FdChunkCalls(bs: nat, file: seq<byte>, offset: nat, length: nat): seq<Call>
    requires bs > 0 && offset + length <= |file|
  {
    AlignBounds(length, bs);
    [Write(RawHeader(bs, length), Checked)] + MappedCalls(file, offset, offset + length) + ZeroCalls(Align(length, bs) - length)
  }

  function EndCalls(bs: nat, cs: seq<Chunk>, crc: bool): seq<Call> {
    if crc then [Write(ChunkHeader(CHUNK_TYPE_CRC32, 0, 4), Dropped), Write(Le32(WriterSum(bs, cs) as int), Continued)]
    else []
  }

  function PlainDataCalls(bs: nat, data: seq<byte>): seq<Call>
    requires bs > 0
  {
    AlignBounds(|data|, bs);
    [Write(data, Checked)] + SkipCalls(Align(|data|, bs) - |data|, false, true)
  }

  function PlainFdCalls(bs: nat, file: seq<byte>, offset: nat, length: nat): seq<Call>
    requires bs > 0 && offset + length <= |file|
  {
    AlignBounds(length, bs);
    MappedCalls(file, offset, offset + length) + SkipCalls(Align(length, bs) - length, false, true)
  }

  /** One more call of a row that is `done` and still to `come`. */
  lemma OneMoreCall(before: seq<Call>, done: seq<Call>, c: Call, come: seq<Call>)
    requires done + ([c] + come) == before
    ensures (done + [c]) + come == before
  {
  }

  lemma JoinCalls(a: seq<Call>, b: seq<Call>, c: seq<Call>)
    ensures (a + b) + c == a + (b + c)
  {
  }

  lemma NoMoreCalls(done: seq<Call>)
    ensures done + [] == done
  {
  }

  class OutputFile {
    const blockSize: nat
    const len: nat
    const sparse: bool
    const useCrc: bool
    var chunkCnt: nat
    var crc32: bv32
    var calls: seq<Call>
    /** The header and the chunks written so far, in sparse mode. */
    ghost var header: seq<byte>
    ghost var emitted: seq<Chunk>

    /** In sparse mode the output so far is the header and the encoded chunks, and the sum is theirs. */
    ghost predicate Valid()
      reads this
    {
      && blockSize > 0 && Shaped(calls) && (!sparse ==> PlainShaped(calls))
      && (sparse ==>
        && AllWrites(calls)
        && Sent(calls) == header + EncodeChunks(emitted)
        && Loose(calls) == EmittedLoose(|header|, emitted)
        && chunkCnt == |emitted|
        && crc32 == (if useCrc then WriterSum(blockSize, emitted) else 0))
    }

    /** `output_file_init` behind `output_file_open_callback`. */
    constructor (blockSize: nat, len: nat, sparse: bool, chunks: nat, crc: bool)
      requires blockSize > 0
      ensures Valid() && emitted == []
      ensures this.blockSize == blockSize && this.len == len && this.sparse == sparse && this.useCrc == crc
      ensures sparse ==> header == SparseHeader(blockSize, DivRoundUp(len, blockSize), chunks + if crc then 1 else 0)
      ensures calls == if sparse then [Write(header, Checked)] else []
    {
      this.blockSize, this.len, this.sparse, this.useCrc := blockSize, len, sparse, crc;
      chunkCnt, crc32 := 0, 0;
      emitted := [];
      var totalChunks := chunks;
      if crc {
        totalChunks := totalChunks + 1;
      }
      var h := SparseHeader(blockSize, DivRoundUp(len, blockSize), totalChunks);
      header := h;
      calls := if sparse then [Write(h, Checked)] else [];
      new;
      hide Sent, Loose, EmittedLoose, EncodeChunks, Shaped, PlainShaped, AllWrites, Same, SparseHeader, WriterSum, DivRoundUp;
      WriterSumOfNone(blockSize);
      HeaderAlone(h);
    }

    method Put(data: seq<byte>, mark: Mark)
      modifies this`calls
      ensures calls == old(calls) + [Write(data, mark)]
    {
      calls := calls + [Write(data, mark)];
    }

    method PutSparse(data: seq<byte>)
      requires AllWrites(calls)
      modifies this`calls
      ensures AllWrites(calls) && Sent(calls) == old(Sent(calls)) + data
      ensures Adds(old(calls), calls) && calls == old(calls) + [Write(data, Checked)]
    {
      SentSnoc(calls, data, Checked);
      Put(data, Checked);
    }

    /** The same for bytes whose failure is passed over. */
    method PutLoose(data: seq<byte>, mark: Mark)
      requires AllWrites(calls) && Shaped(calls) && mark != Checked && |data| <= 12
      requires mark == Continued ==> calls != [] && calls[|calls| - 1].mark != Checked
      modifies this`calls
      ensures AllWrites(calls) && Shaped(calls) && Sent(calls) == old(Sent(calls)) + data
      ensures Loose(calls) == old(Loose(calls)) + Same(|data|, true)
      ensures calls == old(calls) + [Write(data, mark)]
    {
      SentSnoc(calls, data, mark);
      LooseSnoc(calls, Write(data, mark));
      ShapedSnoc(calls, Write(data, mark));
      Put(data, mark);
    }

    method PutZeros(zeroLen: nat)
      requires AllWrites(calls)
      modifies this`calls
      ensures AllWrites(calls) && Sent(calls) == old(Sent(calls)) + Zeros(zeroLen)
      ensures Adds(old(calls), calls) && calls == old(calls) + ZeroCalls(zeroLen)
    {
      hide Sent, AllWrites;
      var rest := zeroLen;
      while rest > 0
        invariant 0 <= rest <= zeroLen && AllWrites(calls)
        invariant Adds(old(calls), calls) && calls + ZeroCalls(rest) == old(calls) + ZeroCalls(zeroLen)
        invariant Sent(calls) == old(Sent(calls)) + Zeros(zeroLen - rest)
      {
        var n := Min(rest, FILL_ZERO_BUFSIZE);
        Associates(old(Sent(calls)), Zeros(zeroLen - rest), Zeros(n));
        ZerosAppend(zeroLen - rest, n);
        OneMoreCall(old(calls) + ZeroCalls(zeroLen), calls, Write(Zeros(n), Checked), ZeroCalls(rest - n));
        PutSparse(Zeros(n));
        rest := rest - n;
      }
      NoMoreCalls(calls);
    }

    method SumZeros(zeroLen: nat)
      modifies this`crc32
      ensures crc32 == Crc32(old(crc32), Zeros(zeroLen))
    {
      hide Crc32;
      var rest := zeroLen;
      EmptySum(crc32);
      assert Zeros(0) == [];
      while rest > 0
        invariant 0 <= rest <= zeroLen
        invariant crc32 == Crc32(old(crc32), Zeros(zeroLen - rest))
      {
        var n := Min(rest, FILL_ZERO_BUFSIZE);
        Streams(old(crc32), Zeros(zeroLen - rest), Zeros(n));
        ZerosAppend(zeroLen - rest, n);
        crc32 := SparseCrc32(crc32, Zeros(n));
        rest := rest - n;
      }
    }

    /** Counts a chunk whose bytes have just been put out. */
    method Finish(ghost c: Chunk, ghost before: seq<byte>)
      requires sparse && blockSize > 0 && AllWrites(calls) && Shaped(calls) && chunkCnt == |emitted|
      requires Loose(calls) == EmittedLoose(|header|, emitted) + ChunkLoose(c)
      requires before == header + EncodeChunks(emitted) && Sent(calls) == before + EncodeChunk(c)
      requires crc32 == if useCrc then WriterCrc(blockSize, WriterSum(blockSize, emitted), c) else 0
      modifies this`chunkCnt, this`emitted
      ensures Valid() && emitted == old(emitted) + [c]
    {
      hide EncodeChunk, EncodeChunks, Sent, Shaped, AllWrites, ChunkLoose;
      chunkCnt := chunkCnt + 1;
      ChunkDone(blockSize, header, emitted, c, before, Sent(calls));
      EmittedSnoc(|header|, emitted, c);
      emitted := emitted + [c];
    }

    method SumData(data: seq<byte>, zeroLen: nat)
      modifies this`crc32
      ensures crc32 == if useCrc then Crc32(old(crc32), data + Zeros(zeroLen)) else old(crc32)
    {
      if useCrc {
        Streams(crc32, data, Zeros(zeroLen));
        crc32 := SparseCrc32(crc32, data);
        SumZeros(zeroLen);
      }
    }

    /** The header of a raw chunk of `length` bytes rounded up to whole blocks. */
    method PutRawHeader(length: nat)
      requires blockSize > 0 && AllWrites(calls)
      modifies this`calls
      ensures AllWrites(calls) && calls == old(calls) + [Write(RawHeader(blockSize, length), Checked)]
      ensures Sent(calls) == old(Sent(calls)) + RawHeader(blockSize, length)
    {
      var rndUpLen := Align(length, blockSize);
      AlignBounds(length, blockSize);
      DivRoundUpOfMultiple(DivRoundUp(length, blockSize), blockSize);
      PutSparse(ChunkHeader(CHUNK_TYPE_RAW, rndUpLen / blockSize, rndUpLen));
    }

    /** Skips a whole number of blocks; any other length is refused and nothing is written. */
    method WriteSparseSkipChunk(skipLen: nat) returns (ok: bool)
      requires Valid() && sparse
      modifies this
      ensures Valid() && header == old(header)
      ensures ok <==> skipLen % blockSize == 0
      ensures emitted == old(emitted) + if ok then [DontCareChunk(skipLen / blockSize)] else []
      ensures calls == old(calls) + if ok then SkipChunkCalls(skipLen / blockSize) else []
    {
      hide Sent, EncodeChunk, EncodeChunks, Crc32, AllWrites, ChunkHeader, Shaped, Same, EmittedLoose;
      if skipLen % blockSize != 0 {
        return false;
      }
      ghost var before, c := Sent(calls), DontCareChunk(skipLen / blockSize);
      PutLoose(ChunkHeader(CHUNK_TYPE_DONT_CARE, skipLen / blockSize, 0), Dropped);
      BareChunk(c);
      Finish(c, before);
      return true;
    }

    method WriteSparseFillChunk(length: nat, fillVal: u32, ghost c: Chunk)
      requires Valid() && sparse && c == FillChunk(DivRoundUp(length, blockSize), fillVal)
      modifies this
      ensures Valid() && header == old(header)
      ensures emitted == old(emitted) + [c] && calls == old(calls) + FillChunkCalls(blockSize, length, fillVal)
    {
      hide Sent, EncodeChunk, EncodeChunks, Crc32, AllWrites, WriterSum, Shaped, Same, EmittedLoose, FillPattern, FillChunkCalls;
      ghost var before, was := Sent(calls), calls;
      PutFill(length, fillVal);
      if useCrc {
        SumFill(fillVal);
      }
      CheckedChunk(was, calls, c);
      AddsShaped(was, calls);
      Finish(c, before);
    }

    method PutFill(length: nat, fillVal: u32)
      requires blockSize > 0 && AllWrites(calls)
      modifies this`calls
      ensures AllWrites(calls) && Adds(old(calls), calls)
      ensures Sent(calls) == old(Sent(calls)) + EncodeChunk(FillChunk(DivRoundUp(length, blockSize), fillVal))
      ensures calls == old(calls) + FillChunkCalls(blockSize, length, fillVal)
    {
      var rndUpLen := Align(length, blockSize);
      AlignBounds(length, blockSize);
      DivRoundUpOfMultiple(DivRoundUp(length, blockSize), blockSize);
      var h := ChunkHeader(CHUNK_TYPE_FILL, rndUpLen / blockSize, 4);
      Associates(Sent(calls), h, Le32(fillVal));
      PutSparse(h);
      PutSparse(Le32(fillVal));
    }

    /** The sum takes in one block of the fill word, however many blocks the fill covers. */
    method SumFill(fillVal: u32)
      requires blockSize > 0
      modifies this`crc32
      ensures crc32 == Crc32(old(crc32), FillPattern(fillVal, 4 * (blockSize / 4)))
    {
      var n := blockSize / 4;
      var done := 0;
      EmptySum(crc32);
      assert FillPattern(fillVal, 0) == [];
      while done < n
        invariant 0 <= done <= n
        invariant crc32 == Crc32(old(crc32), FillPattern(fillVal, 4 * done))
      {
        Streams(old(crc32), FillPattern(fillVal, 4 * done), Le32(fillVal));
        FillWord(fillVal, done);
        crc32 := SparseCrc32(crc32, Le32(fillVal));
        done := done + 1;
      }
    }

    /** Data and file chunks: header, bytes, zeros up to the block. */
    method WriteSparseDataChunk(data: seq<byte>, ghost c: Chunk)
      requires Valid() && sparse && c == DataChunk(blockSize, data)
      modifies this
      ensures Valid() && header == old(header)
      ensures emitted == old(emitted) + [c] && calls == old(calls) + DataChunkCalls(blockSize, data)
    {
      hide Sent, EncodeChunk, EncodeChunks, Crc32, AllWrites, WriterSum, Shaped, Same, EmittedLoose, DataChunkCalls;
      AlignBounds(|data|, blockSize);
      var zeroLen := Align(|data|, blockSize) - |data|;
      ghost var before, was := Sent(calls), calls;
      PutData(data, zeroLen);
      SumData(data, zeroLen);
      CheckedChunk(was, calls, c);
      AddsShaped(was, calls);
      Finish(c, before);
    }

    method PutData(data: seq<byte>, zeroLen: nat)
      requires blockSize > 0 && AllWrites(calls) && |data| + zeroLen == Align(|data|, blockSize)
      modifies this`calls
      ensures AllWrites(calls) && Adds(old(calls), calls)
      ensures Sent(calls) == old(Sent(calls)) + EncodeChunk(DataChunk(blockSize, data))
      ensures calls == old(calls) + DataChunkCalls(blockSize, data)
    {
      hide AllWrites, Sent, EncodeChunk, ZeroCalls;
      DataChunkBytes(Sent(calls), blockSize, data);
      PutRawHeader(|data|);
      PutSparse(data);
      PutZeros(zeroLen);
    }

    /** A chunk read from a file arrives in mapped pieces; each is written and summed in turn. */
    method WriteSparseFdChunk(file: seq<byte>, offset: nat, length: nat, ghost c: Chunk)
      requires Valid() && sparse && offset + length <= |file|
      requires c == DataChunk(blockSize, file[offset..offset + length])
      modifies this
      ensures Valid() && header == old(header)
      ensures emitted == old(emitted) + [c] && calls == old(calls) + FdChunkCalls(blockSize, file, offset, length)
    {
      hide FdChunkCalls, Sent, EncodeChunk, EncodeChunks, Crc32, AllWrites, WriterSum, Shaped, Same, EmittedLoose;
      ghost var before, was := Sent(calls), calls;
      PutFd(file, offset, length);
      CheckedChunk(was, calls, c);
      AddsShaped(was, calls);
      Finish(c, before);
    }

    method PutFd(file: seq<byte>, offset: nat, length: nat)
      requires blockSize > 0 && AllWrites(calls) && offset + length <= |file|
      modifies this`calls, this`crc32
      ensures AllWrites(calls) && Adds(old(calls), calls)
      ensures var c := DataChunk(blockSize, file[offset..offset + length]);
        && Sent(calls) == old(Sent(calls)) + EncodeChunk(c)
        && crc32 == if useCrc then WriterCrc(blockSize, old(crc32), c) else old(crc32)
      ensures calls == old(calls) + FdChunkCalls(blockSize, file, offset, length)
    {
      hide Sent, EncodeChunk, AllWrites, Crc32, MappedCalls, ZeroCalls;
      ghost var data := file[offset..offset + length];
      AlignBounds(length, blockSize);
      var zeroLen := Align(length, blockSize) - length;
      DataChunkBytes(Sent(calls), blockSize, data);
      Streams(crc32, data, Zeros(zeroLen));
      ghost var h, m := [Write(RawHeader(blockSize, length), Checked)], MappedCalls(file, offset, offset + length);
      JoinCalls(calls, h, m);
      JoinCalls(calls, h + m, ZeroCalls(zeroLen));
      PutRawHeader(length);
      WriteFdChunkRange(file, offset, length);
      PutZeros(zeroLen);
      if useCrc {
        SumZeros(zeroLen);
      }
    }

    method WriteFdChunkRange(file: seq<byte>, offset: nat, length: nat)
      requires offset + length <= |file| && AllWrites(calls)
      modifies this`calls, this`crc32
      ensures AllWrites(calls) && Sent(calls) == old(Sent(calls)) + file[offset..offset + length]
      ensures Adds(old(calls), calls) && calls == old(calls) + MappedCalls(file, offset, offset + length)
      ensures crc32 == if useCrc then Crc32(old(crc32), file[offset..offset + length]) else old(crc32)
    {
      hide Sent, Crc32, AllWrites;
      ghost var before, sum := Sent(calls), crc32;
      var current := offset;
      EmptySum(crc32);
      assert file[offset..offset] == [];
      while current < offset + length
        invariant offset <= current <= offset + length && AllWrites(calls) && Adds(old(calls), calls)
        invariant calls + MappedCalls(file, current, offset + length) == old(calls) + MappedCalls(file, offset, offset + length)
        invariant Sent(calls) == before + file[offset..current]
        invariant crc32 == if useCrc then Crc32(sum, file[offset..current]) else sum
      {
        var n := Min(MAX_MMAP_SIZE, offset + length - current);
        OneMoreCall(old(calls) + MappedCalls(file, offset, offset + length), calls, Write(file[current..current + n], Checked),
                    MappedCalls(file, current + n, offset + length));
        WriteMapped(file, offset, current, current + n, before, sum);
        current := current + n;
      }
      NoMoreCalls(calls);
    }

    method WriteMapped(file: seq<byte>, ghost from: nat, at: nat, end: nat, ghost before: seq<byte>, ghost sum: bv32)
      requires from <= at <= end <= |file| && AllWrites(calls)
      requires Sent(calls) == before + file[from..at]
      requires crc32 == if useCrc then Crc32(sum, file[from..at]) else sum
      modifies this`calls, this`crc32
      ensures AllWrites(calls) && Sent(calls) == before + file[from..end] && Adds(old(calls), calls)
      ensures calls == old(calls) + [Write(file[at..end], Checked)]
      ensures crc32 == if useCrc then Crc32(sum, file[from..end]) else sum
    {
      var piece := file[at..end];
      assert file[from..at] + piece == file[from..end];
      Associates(before, file[from..at], piece);
      PutSparse(piece);
      if useCrc {
        Streams(sum, file[from..at], piece);
        crc32 := SparseCrc32(crc32, piece);
      }
    }

    /** `write_sparse_end_chunk`: the checksum chunk, when one was asked for. */
    method WriteSparseEndChunk()
      requires Valid() && sparse
      modifies this
      ensures Valid() && header == old(header)
      ensures emitted == old(emitted) + CrcTail(blockSize, old(emitted), useCrc)
      ensures calls == old(calls) + EndCalls(blockSize, old(emitted), useCrc)
    {
      hide Sent, EncodeChunk, EncodeChunks, Shaped, Same, EmittedLoose, AllWrites, Crc32, WriterSum, ChunkHeader, Le32, ChunkLoose, Loose;
      if useCrc {
        ghost var before := Sent(calls);
        PutCrc(crc32 as int);
        Finish(CrcChunk(crc32 as int), before);
      }
    }

    method PutCrc(sum: u32)
      requires AllWrites(calls) && Shaped(calls)
      modifies this`calls
      ensures AllWrites(calls) && Shaped(calls)
      ensures Sent(calls) == old(Sent(calls)) + EncodeChunk(CrcChunk(sum))
      ensures Loose(calls) == old(Loose(calls)) + ChunkLoose(CrcChunk(sum))
      ensures calls == old(calls) + [Write(ChunkHeader(CHUNK_TYPE_CRC32, 0, 4), Dropped), Write(Le32(sum), Continued)]
    {
      hide Sent, EncodeChunk, Shaped, Same, AllWrites, ChunkHeader, Le32, ChunkLoose, Loose;
      ghost var was := Loose(calls);
      var h := ChunkHeader(CHUNK_TYPE_CRC32, 0, 4);
      Associates(Sent(calls), h, Le32(sum));
      PutLoose(h, Dropped);
      PutLoose(Le32(sum), Continued);
      SameAppend(12, 4, true);
      JoinLoose(was, Same(12, true), Same(4, true));
      CrcBytes(sum);
    }

    // ---- the plain format ----

    method PutNormal(data: seq<byte>)
      modifies this`calls
      ensures Output(calls) == old(Output(calls)) + Cells(data)
      ensures Adds(old(calls), calls) && calls == old(calls) + [Write(data, Checked)]
    {
      OutputSnoc(calls, Write(data, Checked));
      Put(data, Checked);
    }

    /**
     * `callback_file_skip`: the callback sees a null pointer and a length that fits an int. Up to a block
     * boundary the result is looked at; for a skip chunk it is passed over, and a piece that fails takes
     * the rest of the skip with it.
     */
    method SkipOver(off: nat, loose: bool)
      requires PlainShaped(calls)
      modifies this`calls
      ensures PlainShaped(calls) && Output(calls) == old(Output(calls)) + Holes(off)
      ensures Loose(calls) == old(Loose(calls)) + Same(off, loose)
      ensures !loose ==> Adds(old(calls), calls)
      ensures calls == old(calls) + SkipCalls(off, loose, true)
    {
      hide Output, Holes, Same, Loose, PlainShaped;
      ghost var before, was := Output(calls), Loose(calls);
      var done := 0;
      CellsOfNothing(before);
      NothingLoose(was, loose);
      while done < off
        invariant 0 <= done <= off && PlainShaped(calls)
        invariant Output(calls) == before + Holes(done) && Loose(calls) == was + Same(done, loose)
        invariant loose && done > 0 ==> calls != [] && calls[|calls| - 1].mark != Checked
        invariant !loose ==> Adds(old(calls), calls)
        invariant calls + SkipCalls(off - done, loose, done == 0) == old(calls) + SkipCalls(off, loose, true)
      {
        var toWrite := Min(off - done, INT_MAX);
        var mark := SkipMark(loose, done == 0);
        OneMoreCall(old(calls) + SkipCalls(off, loose, true), calls, Skip(toWrite, mark), SkipCalls(off - done - toWrite, loose, false));
        SkipPart(done, toWrite, mark, before, was);
        done := done + toWrite;
      }
      NoMoreCalls(calls);
    }

    method SkipPart(ghost done: nat, n: nat, mark: Mark, ghost before: seq<Cell>, ghost was: seq<bool>)
      requires PlainShaped(calls) && Output(calls) == before + Holes(done) && Loose(calls) == was + Same(done, mark != Checked)
      requires mark == Continued ==> calls != [] && calls[|calls| - 1].mark != Checked
      modifies this`calls
      ensures PlainShaped(calls) && calls == old(calls) + [Skip(n, mark)]
      ensures Output(calls) == before + Holes(done + n) && Loose(calls) == was + Same(done + n, mark != Checked)
    {
      hide Output, Holes, Same, Loose, PlainShaped;
      OutputSnoc(calls, Skip(n, mark));
      HolesAppend(done, n);
      CellsAssociate(before, Holes(done), Holes(n));
      LooseSnoc(calls, Skip(n, mark));
      SameAppend(done, n, mark != Checked);
      JoinLoose(was, Same(done, mark != Checked), Same(n, mark != Checked));
      PlainSnoc(calls, n, mark);
      calls := calls + [Skip(n, mark)];
    }

    method WriteNormalDataChunk(data: seq<byte>, ghost image: seq<Cell>)
      requires blockSize > 0 && image == DataCells(blockSize, data) && PlainShaped(calls)
      modifies this`calls
      ensures Output(calls) == old(Output(calls)) + image && Adds(old(calls), calls)
      ensures calls == old(calls) + PlainDataCalls(blockSize, data)
    {
      hide SkipCalls, Output, Cells, Holes, PlainShaped, Loose;
      AlignBounds(|data|, blockSize);
      var skip := Align(|data|, blockSize) - |data|;
      JoinCalls(calls, [Write(data, Checked)], SkipCalls(skip, false, true));
      CellsAssociate(Output(calls), Cells(data), Holes(skip));
      ghost var was := calls;
      PutNormal(data);
      AddsPlain(was, calls);
      SkipOver(skip, false);
    }

    method WriteNormalFillChunk(length: nat, fillVal: u32, ghost image: seq<Cell>)
      requires image == Cells(FillPattern(fillVal, length))
      modifies this`calls
      ensures Output(calls) == old(Output(calls)) + image && Adds(old(calls), calls)
      ensures calls == old(calls) + FillCalls(fillVal, length)
    {
      hide Output, Cells, FillPattern;
      ghost var before := Output(calls);
      var written := 0;
      ghost var words := 0;
      CellsOfNothing(before);
      while written < length
        invariant 0 <= written <= length && (written < length ==> written == 4 * words)
        invariant Output(calls) == before + Cells(FillPattern(fillVal, written)) && Adds(old(calls), calls)
        invariant calls + FillCalls(fillVal, length - written) == old(calls) + FillCalls(fillVal, length)
      {
        var n := Min(length - written, FILL_ZERO_BUFSIZE);
        OneMoreCall(old(calls) + FillCalls(fillVal, length), calls, Write(FillPattern(fillVal, n), Checked),
                    FillCalls(fillVal, length - written - n));
        NormalFillPart(fillVal, words, n, before);
        written := written + n;
        words := words + FILL_ZERO_BUFSIZE / 4;
      }
      NoMoreCalls(calls);
    }

    method NormalFillPart(fillVal: u32, ghost words: nat, n: nat, ghost before: seq<Cell>)
      requires Output(calls) == before + Cells(FillPattern(fillVal, 4 * words))
      modifies this`calls
      ensures Output(calls) == before + Cells(FillPattern(fillVal, 4 * words + n)) && Adds(old(calls), calls)
      ensures calls == old(calls) + [Write(FillPattern(fillVal, n), Checked)]
    {
      ghost var done, part := FillPattern(fillVal, 4 * words), FillPattern(fillVal, n);
      PatternAppend(fillVal, words, n);
      CellsAppend(done, part);
      CellsAssociate(before, Cells(done), Cells(part));
      PutNormal(FillPattern(fillVal, n));
    }

    method WriteNormalFdChunk(file: seq<byte>, offset: nat, length: nat, ghost image: seq<Cell>)
      requires blockSize > 0 && offset + length <= |file| && PlainShaped(calls)
      requires image == DataCells(blockSize, file[offset..offset + length])
      modifies this`calls
      ensures Output(calls) == old(Output(calls)) + image && Adds(old(calls), calls)
      ensures calls == old(calls) + PlainFdCalls(blockSize, file, offset, length)
    {
      hide SkipCalls, MappedCalls, Output, Cells, Holes, PlainShaped, Loose;
      AlignBounds(length, blockSize);
      var skip := Align(length, blockSize) - length;
      JoinCalls(calls, MappedCalls(file, offset, offset + length), SkipCalls(skip, false, true));
      CellsAssociate(Output(calls), Cells(file[offset..offset + length]), Holes(skip));
      ghost var was := calls;
      NormalFdRange(file, offset, length);
      AddsPlain(was, calls);
      SkipOver(skip, false);
    }

    method NormalFdRange(file: seq<byte>, offset: nat, length: nat)
      requires offset + length <= |file|
      modifies this`calls
      ensures Output(calls) == old(Output(calls)) + Cells(file[offset..offset + length]) && Adds(old(calls), calls)
      ensures calls == old(calls) + MappedCalls(file, offset, offset + length)
    {
      hide Output, Cells;
      ghost var before := Output(calls);
      var current := offset;
      assert file[offset..offset] == [];
      CellsOfNothing(before);
      while current < offset + length
        invariant offset <= current <= offset + length
        invariant Output(calls) == before + Cells(file[offset..current]) && Adds(old(calls), calls)
        invariant calls + MappedCalls(file, current, offset + length) == old(calls) + MappedCalls(file, offset, offset + length)
      {
        var n := Min(MAX_MMAP_SIZE, offset + length - current);
        OneMoreCall(old(calls) + MappedCalls(file, offset, offset + length), calls, Write(file[current..current + n], Checked),
                    MappedCalls(file, current + n, offset + length));
        NormalMapped(file, offset, current, current + n, before);
        current := current + n;
      }
      NoMoreCalls(calls);
    }

    method NormalMapped(file: seq<byte>, ghost from: nat, at: nat, end: nat, ghost before: seq<Cell>)
      requires from <= at <= end <= |file|
      requires Output(calls) == before + Cells(file[from..at])
      modifies this`calls
      ensures Output(calls) == before + Cells(file[from..end]) && Adds(old(calls), calls)
      ensures calls == old(calls) + [Write(file[at..end], Checked)]
    {
      ghost var done := file[from..at];
      var piece := file[at..end];
      assert done + piece == file[from..end];
      CellsAppend(done, piece);
      CellsAssociate(before, Cells(done), Cells(piece));
      PutNormal(piece);
    }
  }

  lemma HasBlockSize(out: OutputFile)
    requires out.Valid()
    ensures out.blockSize > 0
  {
  }

  lemma NothingLoose(s: seq<bool>, v: bool)
    ensures s + Same(0, v) == s
  {
  }

  lemma PatternAppend(v: u32, words: nat, n: nat)
    ensures FillPattern(v, 4 * words) + FillPattern(v, n) == FillPattern(v, 4 * words + n)
  {
    forall i | 0 <= i < n ensures FillPattern(v, 4 * words + n)[4 * words + i] == FillPattern(v, n)[i] {
      ModShift(words, i);
    }
  }

  function DataChunk(bs: nat, data: seq<byte>): Chunk
    requires bs > 0
  {
    AlignBounds(|data|, bs);
    RawChunk(DivRoundUp(|data|, bs), data + Zeros(Align(|data|, bs) - |data|))
  }

  /** The chunk of a block is the chunk of its bytes, wherever they come from. */
  lemma ChunkCases(st: Store, bs: nat, b: Block)
    requires bs > 0 && Backed(st, b)
    ensures match b.backing
      case Data(buf, at) => ChunkOf(st, bs, b) == DataChunk(bs, buf[at..at + b.len])
      case File(name, offset) => ChunkOf(st, bs, b) == DataChunk(bs, st.files[name][offset..offset + b.len])
      case Fd(fd, offset) => ChunkOf(st, bs, b) == DataChunk(bs, st.fds[fd][offset..offset + b.len])
      case Fill(v) => ChunkOf(st, bs, b) == FillChunk(DivRoundUp(b.len, bs), v)
  {
  }

  lemma CellCases(st: Store, bs: nat, b: Block)
    requires bs > 0 && Backed(st, b)
    ensures match b.backing
      case Data(buf, at) => BlockCells(st, bs, b) == DataCells(bs, buf[at..at + b.len])
      case File(name, offset) => BlockCells(st, bs, b) == DataCells(bs, st.files[name][offset..offset + b.len])
      case Fd(fd, offset) => BlockCells(st, bs, b) == DataCells(bs, st.fds[fd][offset..offset + b.len])
      case Fill(v) => BlockCells(st, bs, b) == Cells(FillPattern(v, b.len))
  {
  }

  lemma CrcBytes(v: u32)
    ensures EncodeChunk(CrcChunk(v)) == ChunkHeader(CHUNK_TYPE_CRC32, 0, 4) + Le32(v)
    ensures ChunkLoose(CrcChunk(v)) == Same(16, true)
  {
  }

  lemma BareChunk(c: Chunk)
    requires c.DontCareChunk?
    ensures EncodeChunk(c) == ChunkHeader(CHUNK_TYPE_DONT_CARE, c.blocks, 0)
  {
  }

  function RawHeader(bs: nat, length: nat): seq<byte>
    requires bs > 0
  {
    ChunkHeader(CHUNK_TYPE_RAW, DivRoundUp(length, bs), Align(length, bs))
  }

  lemma DataChunkBytes(before: seq<byte>, bs: nat, data: seq<byte>)
    requires bs > 0
    ensures |data| <= Align(|data|, bs)
    ensures before + RawHeader(bs, |data|) + data + Zeros(Align(|data|, bs) - |data|)
      == before + EncodeChunk(DataChunk(bs, data))
  {
    AlignBounds(|data|, bs);
    FourParts(before, RawHeader(bs, |data|), data, Zeros(Align(|data|, bs) - |data|));
  }

  lemma FourParts(b: seq<byte>, h: seq<byte>, d: seq<byte>, z: seq<byte>)
    ensures b + h + d + z == b + (h + (d + z))
  {
  }

  lemma FillWord(v: u32, n: nat)
    ensures FillPattern(v, 4 * n) + Le32(v) == FillPattern(v, 4 * (n + 1))
  {
    var s := FillPattern(v, 4 * n) + Le32(v);
    forall i | 0 <= i < 4 * n + 4 ensures s[i] == FillPattern(v, 4 * (n + 1))[i] {
      if i >= 4 * n { ModShift(n, i - 4 * n); }
    }
  }
}
