/** The sparse file object: adding blocks, counting chunks, writing everything out. */
module SparseFile {
  import opened Wire
  import opened Arith
  import opened Blocks
  import opened Insertion
  import opened BackedBlockList
  import opened SparseFormat
  import opened OutputCalls
  import opened OutputFile

  /** `Aborted` stands for the process ending in an assert, such as `assert(pad >= 0)`. */
  datatype Status = Done | Aborted

  class SparseFile {
    const blockSize: nat
    const len: nat
    const list: BackedBlockList

    ghost predicate Valid()
      reads this, list, list.repr
    {
      list.Valid() && list.blockSize == blockSize && blockSize > 0
    }

    constructor (blockSize: nat, len: nat)
      requires blockSize > 0
      ensures Valid() && fresh(list) && list.contents == [] && list.repr == {}
      ensures this.blockSize == blockSize && this.len == len
    {
      this.blockSize, this.len := blockSize, len;
      list := new BackedBlockList(blockSize);
    }

    /** `sparse_file_add_data`, `_fill`, `_file` and `_fd`. */
    method Add(b: Block) returns (ok: bool)
      requires Valid() && Sorted(list.contents)
      modifies list, list.repr
      ensures ok <==> !HasStart(old(list.contents), b.block)
      ensures ok ==> Valid() && list.contents == Insert(blockSize, old(list.contents), b)
      ensures ok ==> fresh(list.repr - old(list.repr))
    {
      var bb := new BackedBlock(b);
      ok := list.QueueBb(bb);
    }

    /** `sparse_count_chunks`. */
    method CountOfChunks() returns (chunks: nat)
      requires Valid() && EndOf(blockSize, 0, list.contents) < U32
      ensures chunks == CountChunks(blockSize, len, list.contents)
    {
      hide BackedBlockList.Linked;
      FirstNode(list);
      var bb := list.dataBlocks;
      var lastBlock: nat := 0;
      chunks := 0;
      ghost var s, k := list.contents, 0;
      while bb != null
        invariant 0 <= k <= |s| && bb == (if k < |s| then list.nodes[k] else null)
        invariant chunks + CountBlocks(blockSize, lastBlock, s[k..]) == CountBlocks(blockSize, 0, s)
        invariant EndOf(blockSize, lastBlock, s[k..]) == EndOf(blockSize, 0, s)
        decreases |s| - k
      {
        NextNode(list, k);
        assert bb.Value() == s[k] && s[k..][0] == s[k] && s[k..][1..] == s[k + 1..];
        if bb.block > lastBlock {
          chunks := chunks + 1;
        }
        chunks := chunks + 1;
        lastBlock := bb.block + DivRoundUp(bb.len, blockSize);
        bb := bb.next;
        k := k + 1;
      }
      if lastBlock < DivRoundUp(len, blockSize) {
        chunks := chunks + 1;
      }
    }

    /** `sparse_file_write_block` on a sparse output. */
    method WriteBlockSparse(out: OutputFile, bb: BackedBlock, st: Store)
      requires out.Valid() && out.sparse && out.blockSize == blockSize && Backed(st, bb.Value())
      modifies out
      ensures out.Valid() && out.header == old(out.header)
      ensures out.emitted == old(out.emitted) + [ChunkOf(st, blockSize, bb.Value())]
      ensures out.calls == old(out.calls) + BlockCalls(st, blockSize, bb.Value())
    {
      hide ChunkOf, EncodeChunks, WriterSum, OutputFile.Valid, DataChunkCalls, FdChunkCalls, FillChunkCalls;
      HasBlockSize(out);
      ghost var c := ChunkOf(st, blockSize, bb.Value());
      ChunkCases(st, blockSize, bb.Value());
      match bb.backing {
        case Data(buf, at) => out.WriteSparseDataChunk(buf[at..at + bb.len], c);
        case File(name, offset) => out.WriteSparseFdChunk(st.files[name], offset, bb.len, c);
        case Fd(fd, offset) => out.WriteSparseFdChunk(st.fds[fd], offset, bb.len, c);
        case Fill(v) => out.WriteSparseFillChunk(bb.len, v, c);
      }
    }

    /** `sparse_file_write_block` on a plain output. */
    method WriteBlockNormal(out: OutputFile, bb: BackedBlock, st: Store)
      requires out.Valid() && !out.sparse && out.blockSize == blockSize && Backed(st, bb.Value())
      modifies out
      ensures out.Valid() && Adds(old(out.calls), out.calls)
      ensures Output(out.calls) == old(Output(out.calls)) + BlockCells(st, blockSize, bb.Value())
      ensures out.calls == old(out.calls) + PlainBlockCalls(st, blockSize, bb.Value())
    {
      hide Output, BlockCells, PlainShaped, PlainDataCalls, PlainFdCalls, FillCalls;
      ghost var was := out.calls;
      ghost var image := BlockCells(st, blockSize, bb.Value());
      CellCases(st, blockSize, bb.Value());
      match bb.backing {
        case Data(buf, at) => out.WriteNormalDataChunk(buf[at..at + bb.len], image);
        case File(name, offset) => out.WriteNormalFdChunk(st.files[name], offset, bb.len, image);
        case Fd(fd, offset) => out.WriteNormalFdChunk(st.fds[fd], offset, bb.len, image);
        case Fill(v) => out.WriteNormalFillChunk(bb.len, v, image);
      }
      AddsPlain(was, out.calls);
    }

    method WriteGapAndBlockSparse(out: OutputFile, bb: BackedBlock, lastBlock: nat, st: Store)
      requires out.Valid() && out.sparse && out.blockSize == blockSize && Backed(st, bb.Value())
      modifies out
      ensures out.Valid() && out.header == old(out.header)
      ensures out.emitted == old(out.emitted) + GapChunk(lastBlock, bb.block) + [ChunkOf(st, blockSize, bb.Value())]
      ensures out.calls == old(out.calls) + GapChunkCalls(lastBlock, bb.block) + BlockCalls(st, blockSize, bb.Value())
    {
      hide EncodeChunks, EmittedLoose, Shaped, Sent, ChunkOf, WriterSum, OutputFile.Valid, SkipChunkCalls, BlockCalls;
      HasBlockSize(out);
      NoMoreCalls(out.calls);
      if bb.block > lastBlock {
        var blocks := bb.block - lastBlock;
        DivRoundUpOfMultiple(blocks, blockSize);
        var _ := out.WriteSparseSkipChunk(blocks * blockSize);
      }
      WriteBlockSparse(out, bb, st);
    }

    method SkipGapNormal(out: OutputFile, block: nat, lastBlock: nat)
      requires !out.sparse && PlainShaped(out.calls)
      modifies out`calls
      ensures PlainShaped(out.calls)
      ensures Output(out.calls) == old(Output(out.calls)) + GapCells(blockSize, lastBlock, block)
      ensures Loose(out.calls) == old(Loose(out.calls)) + Same(|GapCells(blockSize, lastBlock, block)|, true)
      ensures out.calls == old(out.calls) + PlainGapCalls(blockSize, lastBlock, block)
    {
      hide Output, Loose, PlainShaped, SkipCalls, Same;
      NoMoreCalls(out.calls);
      CellsOfNothing(Output(out.calls));
      NothingLoose(Loose(out.calls), true);
      if block > lastBlock {
        out.SkipOver((block - lastBlock) * blockSize, true);
      }
    }

    /** One turn of the writer's loop on a plain output. */
    method WriteNextNormal(out: OutputFile, bb: BackedBlock, lastBlock: nat, ghost done: seq<Block>, st: Store)
      requires out.Valid() && !out.sparse && out.blockSize == blockSize && Backed(st, bb.Value())
      requires AllBacked(st, done) && lastBlock == EndOf(blockSize, 0, done)
      requires Output(out.calls) == ImageCells(st, blockSize, 0, done)
      requires Loose(out.calls) == ImageLoose(st, blockSize, done)
      requires out.calls == PlainCallsOf(st, blockSize, done)
      modifies out
      ensures out.Valid() && AllBacked(st, done + [bb.Value()])
      ensures Output(out.calls) == ImageCells(st, blockSize, 0, done + [bb.Value()])
      ensures Loose(out.calls) == ImageLoose(st, blockSize, done + [bb.Value()])
      ensures out.calls == PlainCallsOf(st, blockSize, done + [bb.Value()])
    {
      hide Output, Loose, PlainShaped, BlockCells, GapCells, ImageCells, ImageLoose, Same, PlainGapCalls, PlainBlockCalls, PlainCallsOf;
      PlainCallsSnoc(st, blockSize, done, bb.Value());
      ImageSnoc(st, blockSize, done, bb.Value());
      SkipGapNormal(out, bb.block, lastBlock);
      PlainIsShaped(out.calls);
      ghost var was := out.calls;
      WriteBlockNormal(out, bb, st);
      AddsLoose(was, out.calls);
      ImageLooseSnoc(st, blockSize, done, bb.Value());
      assert CountedBytes(was) == |Output(was)| && CountedBytes(out.calls) == |Output(out.calls)|;
    }

    /**
     * `write_all_blocks` on a sparse output. The result of a skip is never looked at; that is what makes
     * its call a loose one.
     */
    method WriteAllSparse(out: OutputFile, st: Store) returns (status: Status)
      requires Valid() && AllBacked(st, list.contents) && EndOf(blockSize, 0, list.contents) < U32
      requires out.Valid() && out.sparse && out.blockSize == blockSize && out.emitted == []
      modifies out
      ensures status == Done <==> EndOf(blockSize, 0, list.contents) * blockSize <= len
      ensures out.Valid() && out.header == old(out.header)
      ensures status == Done ==> out.emitted == AllChunks(st, blockSize, len, list.contents)
      ensures status == Done ==> out.calls == old(out.calls) + AllCalls(st, blockSize, len, list.contents)
    {
      hide EncodeChunks, ChunkOf, EmittedLoose, Shaped, Sent, WriterSum, BackedBlockList.Linked, OutputFile.Valid, GapChunkCalls,
        BlockCalls, CallsOf, SkipChunkCalls;
      NoMoreCalls(out.calls);
      NoCallsYet(st, blockSize);
      ghost var start := out.calls;
      FirstNode(list);
      var bb := list.dataBlocks;
      var lastBlock: nat := 0;
      ghost var s, k := list.contents, 0;
      assert s[..0] == [];
      while bb != null
        invariant 0 <= k <= |s| && bb == (if k < |s| then list.nodes[k] else null)
        invariant out.Valid() && out.header == old(out.header)
        invariant lastBlock == EndOf(blockSize, 0, s[..k])
        invariant AllBacked(st, s[..k]) && out.emitted == ChunksOf(st, blockSize, 0, s[..k])
        invariant out.calls == start + CallsOf(st, blockSize, s[..k])
        decreases |s| - k
      {
        NextNode(list, k);
        assert bb.Value() == s[k] && Backed(st, s[k]);
        assert s[..k + 1] == s[..k] + [s[k]];
        ChunksSnoc(st, blockSize, s[..k], s[k]);
        CallsSnoc(st, blockSize, start, s[..k], s[k]);
        WriteGapAndBlockSparse(out, bb, lastBlock, st);
        lastBlock := bb.block + DivRoundUp(bb.len, blockSize);
        bb := bb.next;
        k := k + 1;
      }
      assert s[..k] == s;
      var pad: int := len - lastBlock * blockSize;
      if pad < 0 {
        return Aborted;
      }
      NoMoreCalls(out.calls);
      if pad > 0 {
        var _ := out.WriteSparseSkipChunk(pad);
      }
      JoinCalls(start, CallsOf(st, blockSize, s), TailCalls(blockSize, len, lastBlock));
      return Done;
    }

    /** `write_all_blocks` on a plain output. */
    method WriteAllNormal(out: OutputFile, st: Store) returns (status: Status)
      requires Valid() && AllBacked(st, list.contents) && EndOf(blockSize, 0, list.contents) < U32
      requires out.Valid() && !out.sparse && out.blockSize == blockSize && out.calls == []
      modifies out
      ensures status == Done <==> EndOf(blockSize, 0, list.contents) * blockSize <= len
      ensures out.Valid()
      ensures status == Done ==> Output(out.calls) == WholeImage(st, blockSize, len, list.contents)
      ensures status == Done ==> Loose(out.calls) == WholeLoose(st, blockSize, len, list.contents)
      ensures status == Done ==> out.calls == PlainCalls(st, blockSize, len, list.contents)
    {
      hide Output, Loose, PlainShaped, ImageCells, ImageLoose, Same, Holes, BackedBlockList.Linked, PlainCallsOf, SkipCalls;
      NoCallsYet(st, blockSize);
      FirstNode(list);
      var bb := list.dataBlocks;
      var lastBlock: nat := 0;
      ghost var s, k := list.contents, 0;
      NothingPutOut(st, blockSize);
      assert s[..0] == [];
      while bb != null
        invariant 0 <= k <= |s| && bb == (if k < |s| then list.nodes[k] else null)
        invariant out.Valid()
        invariant lastBlock == EndOf(blockSize, 0, s[..k])
        invariant AllBacked(st, s[..k]) && Output(out.calls) == ImageCells(st, blockSize, 0, s[..k])
        invariant Loose(out.calls) == ImageLoose(st, blockSize, s[..k])
        invariant out.calls == PlainCallsOf(st, blockSize, s[..k])
        decreases |s| - k
      {
        NextNode(list, k);
        assert bb.Value() == s[k] && Backed(st, s[k]);
        assert s[..k + 1] == s[..k] + [s[k]];
        EndOfSnoc(blockSize, s[..k], s[k]);
        WriteNextNormal(out, bb, lastBlock, s[..k], st);
        lastBlock := bb.block + DivRoundUp(bb.len, blockSize);
        bb := bb.next;
        k := k + 1;
      }
      assert s[..k] == s;
      var pad: int := len - lastBlock * blockSize;
      if pad < 0 {
        return Aborted;
      }
      PadNormal(out, pad);
      return Done;
    }

    method PadNormal(out: OutputFile, pad: nat)
      requires !out.sparse && PlainShaped(out.calls)
      modifies out`calls
      ensures PlainShaped(out.calls) && Output(out.calls) == old(Output(out.calls)) + Holes(pad)
      ensures Loose(out.calls) == old(Loose(out.calls)) + Same(pad, true)
      ensures out.calls == old(out.calls) + SkipCalls(pad, true, true)
    {
      if pad > 0 {
        out.SkipOver(pad, true);
      } else {
        NoMoreCalls(out.calls);
        CellsOfNothing(Output(out.calls));
        NothingLoose(Loose(out.calls), true);
      }
    }

    /**
     * `sparse_file_callback` in sparse mode: the very calls it makes when none fails, the bytes they are
     * given in order, and which of them are passed over when they do fail.
     */
    method CallbackSparse(crc: bool, st: Store) returns (status: Status, calls: seq<Call>)
      requires Valid() && AllBacked(st, list.contents) && EndOf(blockSize, 0, list.contents) < U32
      ensures status == Done <==> EndOf(blockSize, 0, list.contents) * blockSize <= len
      ensures status == Done ==> AllWrites(calls) && Sent(calls) == SparseBytes(st, blockSize, len, list.contents, crc)
      ensures status == Done ==> Shaped(calls) && Loose(calls) == SparseLoose(st, blockSize, len, list.contents, crc)
      ensures status == Done ==> calls == SparseCalls(st, blockSize, len, list.contents, crc)
    {
      hide AllCalls, EndCalls, Loose, Shaped, EmittedLoose, EncodeChunks, AllChunks, WriterSum, Sent, AllWrites, SparseHeader, CountChunks, AllBacked;
      var chunks := CountOfChunks();
      var out := new OutputFile(blockSize, len, true, chunks, crc);
      status := WriteAllSparse(out, st);
      if status == Done {
        out.WriteSparseEndChunk();
      }
      calls := out.calls;
    }

    /** `sparse_file_callback` in plain mode, in the same way; the failing `pad` at the end makes no call. */
    method CallbackNormal(st: Store) returns (status: Status, calls: seq<Call>)
      requires Valid() && AllBacked(st, list.contents) && EndOf(blockSize, 0, list.contents) < U32
      ensures status == Done <==> EndOf(blockSize, 0, list.contents) * blockSize <= len
      ensures status == Done ==> Output(calls) == WholeImage(st, blockSize, len, list.contents)
      ensures status == Done ==> PlainShaped(calls) && Loose(calls) == WholeLoose(st, blockSize, len, list.contents)
      ensures status == Done ==> calls == PlainCalls(st, blockSize, len, list.contents)
    {
      hide Output, Loose, PlainShaped, WholeImage, WholeLoose, PlainCalls;
      var chunks := CountOfChunks();
      var out := new OutputFile(blockSize, len, false, chunks, false);
      status := WriteAllNormal(out, st);
      calls := out.calls;
    }

    /** `sparse_file_len`: the same writers with a callback that only counts. */
    method Len(sparse: bool, crc: bool, st: Store) returns (status: Status, count: nat)
      requires Valid() && AllBacked(st, list.contents) && EndOf(blockSize, 0, list.contents) < U32
      ensures status == Done <==> EndOf(blockSize, 0, list.contents) * blockSize <= len
      ensures status == Done && sparse ==> count == |SparseBytes(st, blockSize, len, list.contents, crc)|
      ensures status == Done && !sparse ==> count == |WholeImage(st, blockSize, len, list.contents)|
    {
      var calls;
      if sparse {
        status, calls := CallbackSparse(crc, st);
        if status == Done {
          SentIsCounted(calls);
        }
      } else {
        status, calls := CallbackNormal(st);
      }
      count := CountedBytes(calls);
    }
  }

  // ---- the calls of a whole file ----

  function BlockCalls(st: Store, bs: nat, b: Block): seq<Call>
    requires bs > 0 && Backed(st, b)
  {
    match b.backing
    case Data(buf, at) => DataChunkCalls(bs, buf[at..at + b.len])
    case File(name, offset) => FdChunkCalls(bs, st.files[name], offset, b.len)
    case Fd(fd, offset) => FdChunkCalls(bs, st.fds[fd], offset, b.len)
    case Fill(v) => FillChunkCalls(bs, b.len, v)
  }

  function GapChunkCalls(last: nat, block: nat): seq<Call> {
    if block > last then SkipChunkCalls(block - last) else []
  }

  function CallsOf(st: Store, bs: nat, s: seq<Block>): seq<Call>
    requires bs > 0 && AllBacked(st, s)
  {
    if s == [] then []
    else
      var p, b := s[..|s| - 1], s[|s| - 1];
      CallsOf(st, bs, p) + GapChunkCalls(EndOf(bs, 0, p), b.block) + BlockCalls(st, bs, b)
  }

  /** The skip at the end, unless it is refused. */
  function TailCalls(bs: nat, len: nat, last: nat): seq<Call>
    requires bs > 0
  {
    var pad := len - last * bs;
    if pad > 0 && pad % bs == 0 then SkipChunkCalls(pad / bs) else []
  }

  function AllCalls(st: Store, bs: nat, len: nat, s: seq<Block>): seq<Call>
    requires bs > 0 && AllBacked(st, s)
  {
    CallsOf(st, bs, s) + TailCalls(bs, len, EndOf(bs, 0, s))
  }

  /** Every call of `sparse_file_callback` in sparse mode. */
  function SparseCalls(st: Store, bs: nat, len: nat, s: seq<Block>, crc: bool): seq<Call>
    requires bs > 0 && AllBacked(st, s)
  {
    var h := SparseHeader(bs, DivRoundUp(len, bs), CountChunks(bs, len, s) + if crc then 1 else 0);
    [Write(h, Checked)] + AllCalls(st, bs, len, s) + EndCalls(bs, AllChunks(st, bs, len, s), crc)
  }

  function PlainBlockCalls(st: Store, bs: nat, b: Block): seq<Call>
    requires bs > 0 && Backed(st, b)
  {
    match b.backing
    case Data(buf, at) => PlainDataCalls(bs, buf[at..at + b.len])
    case File(name, offset) => PlainFdCalls(bs, st.files[name], offset, b.len)
    case Fd(fd, offset) => PlainFdCalls(bs, st.fds[fd], offset, b.len)
    case Fill(v) => FillCalls(v, b.len)
  }

  function PlainGapCalls(bs: nat, last: nat, block: nat): seq<Call> {
    if block > last then SkipCalls((block - last) * bs, true, true) else []
  }

  function PlainCallsOf(st: Store, bs: nat, s: seq<Block>): seq<Call>
    requires bs > 0 && AllBacked(st, s)
  {
    if s == [] then []
    else
      var p, b := s[..|s| - 1], s[|s| - 1];
      PlainCallsOf(st, bs, p) + PlainGapCalls(bs, EndOf(bs, 0, p), b.block) + PlainBlockCalls(st, bs, b)
  }

  /** Every call of `sparse_file_callback` in plain mode. */
  function PlainCalls(st: Store, bs: nat, len: nat, s: seq<Block>): seq<Call>
    requires bs > 0 && AllBacked(st, s)
  {
    var last := EndOf(bs, 0, s);
    PlainCallsOf(st, bs, s) + SkipCalls(if last * bs <= len then len - last * bs else 0, true, true)
  }

  lemma NoCallsYet(st: Store, bs: nat)
    requires bs > 0
    ensures CallsOf(st, bs, []) == [] && PlainCallsOf(st, bs, []) == []
  {
  }

  lemma CallsSnoc(st: Store, bs: nat, start: seq<Call>, s: seq<Block>, b: Block)
    requires bs > 0 && AllBacked(st, s) && AllBacked(st, s + [b]) && Backed(st, b)
    ensures start + CallsOf(st, bs, s + [b]) ==
      start + CallsOf(st, bs, s) + GapChunkCalls(EndOf(bs, 0, s), b.block) + BlockCalls(st, bs, b)
  {
    hide GapChunkCalls, BlockCalls;
    assert (s + [b])[..|s|] == s;
    var c, g := CallsOf(st, bs, s), GapChunkCalls(EndOf(bs, 0, s), b.block);
    JoinCalls(start, c, g);
    JoinCalls(start, c + g, BlockCalls(st, bs, b));
  }

  lemma PlainCallsSnoc(st: Store, bs: nat, s: seq<Block>, b: Block)
    requires bs > 0 && AllBacked(st, s) && Backed(st, b)
    ensures AllBacked(st, s + [b])
    ensures PlainCallsOf(st, bs, s + [b]) ==
      PlainCallsOf(st, bs, s) + PlainGapCalls(bs, EndOf(bs, 0, s), b.block) + PlainBlockCalls(st, bs, b)
  {
    hide PlainGapCalls, PlainBlockCalls;
    assert (s + [b])[..|s|] == s;
  }

  /** In a sparse file only the bytes of don't-care and checksum chunks can be lost without notice. */
  function SparseLoose(st: Store, bs: nat, len: nat, s: seq<Block>, crc: bool): seq<bool>
    requires bs > 0 && AllBacked(st, s)
  {
    var cs := AllChunks(st, bs, len, s);
    EmittedLoose(SPARSE_HEADER_LEN, cs + CrcTail(bs, cs, crc))
  }

  /** In a plain image only the skips over gaps can. */
  function ImageLoose(st: Store, bs: nat, s: seq<Block>): seq<bool>
    requires bs > 0 && AllBacked(st, s)
  {
    if s == [] then []
    else
      var p, b := s[..|s| - 1], s[|s| - 1];
      ImageLoose(st, bs, p) + Same(|GapCells(bs, EndOf(bs, 0, p), b.block)|, true) + Same(|BlockCells(st, bs, b)|, false)
  }

  function WholeLoose(st: Store, bs: nat, len: nat, s: seq<Block>): seq<bool>
    requires bs > 0 && AllBacked(st, s)
  {
    ImageLoose(st, bs, s) + Same(if EndOf(bs, 0, s) * bs <= len then len - EndOf(bs, 0, s) * bs else 0, true)
  }

  lemma ImageLooseSnoc(st: Store, bs: nat, s: seq<Block>, b: Block)
    requires bs > 0 && AllBacked(st, s) && AllBacked(st, s + [b]) && Backed(st, b)
    ensures ImageLoose(st, bs, s + [b]) ==
      ImageLoose(st, bs, s) + Same(|GapCells(bs, EndOf(bs, 0, s), b.block)|, true) + Same(|BlockCells(st, bs, b)|, false)
  {
    assert (s + [b])[..|s|] == s;
  }

  lemma NothingPutOut(st: Store, bs: nat)
    requires bs > 0
    ensures Output([]) == ImageCells(st, bs, 0, []) && Loose([]) == ImageLoose(st, bs, [])
  {
  }

  /** What `sparse_file_callback` puts out in plain mode. */
  function WholeImage(st: Store, bs: nat, len: nat, s: seq<Block>): seq<Cell>
    requires bs > 0 && AllBacked(st, s)
  {
    ImageCells(st, bs, 0, s) + Holes(if EndOf(bs, 0, s) * bs <= len then len - EndOf(bs, 0, s) * bs else 0)
  }
}
