/** Which bytes the writer's checksum covers, which the reader's covers, and when they are the same. */
module CrcAgreement {
  import opened Wire
  import opened Arith
  import opened Blocks
  import opened Crc
  import opened CrcTable
  import opened SparseFormat
  import opened SparseFormatReader
  import opened RoundTrip

  /** The bytes that the writer sums for a chunk. */
  function Hashed(bs: nat, c: Chunk): seq<byte> {
    match c
    case RawChunk(_, data) => data
    case FillChunk(_, v) => FillPattern(v, 4 * (bs / 4))
    case DontCareChunk(_) => []
    case CrcChunk(_) => []
  }

  function HashedAll(bs: nat, cs: seq<Chunk>): seq<byte> {
    if cs == [] then [] else Hashed(bs, cs[0]) + HashedAll(bs, cs[1..])
  }

  lemma {:induction false} HashedAppend(bs: nat, a: seq<Chunk>, b: seq<Chunk>)
    ensures HashedAll(bs, a + b) == HashedAll(bs, a) + HashedAll(bs, b)
    decreases |a|
  {
    hide Hashed;
    if a == [] {
      assert a + b == b;
    } else {
      assert (a + b)[1..] == a[1..] + b;
      HashedAppend(bs, a[1..], b);
      Associates(Hashed(bs, a[0]), HashedAll(bs, a[1..]), HashedAll(bs, b));
    }
  }

  /** The writer's sum is the CRC of the bytes it hashed, over every list of chunks. */
  lemma {:induction false} WriterSumIs(bs: nat, cs: seq<Chunk>)
    ensures WriterSum(bs, cs) == Crc32(0, HashedAll(bs, cs))
    decreases |cs|
  {
    if cs == [] {
      EmptySum(0);
    } else {
      var p, c := cs[..|cs| - 1], cs[|cs| - 1];
      WriterSumIs(bs, p);
      assert cs == p + [c];
      HashedAppend(bs, p, [c]);
      HashedOne(bs, c);
      WriterStep(bs, Crc32(0, HashedAll(bs, p)), c);
      Streams(0, HashedAll(bs, p), Hashed(bs, c));
    }
  }

  lemma WriterStep(bs: nat, sum: bv32, c: Chunk)
    ensures WriterCrc(bs, sum, c) == Crc32(sum, Hashed(bs, c))
  {
    EmptySum(sum);
  }

  lemma HashedOne(bs: nat, c: Chunk)
    ensures HashedAll(bs, [c]) == Hashed(bs, c)
  {
    assert [c][1..] == [];
  }

  /** A chunk that the writer hashes in full: raw data, or a fill of a single block. */
  predicate Plain(c: Chunk) {
    c.RawChunk? || (c.FillChunk? && c.blocks == 1)
  }

  predicate AllPlain(cs: seq<Chunk>) {
    forall i :: 0 <= i < |cs| ==> Plain(cs[i])
  }

  lemma PlainIsHashed(bs: nat, c: Chunk)
    requires bs > 0 && bs % 4 == 0 && Solid(bs, c)
    ensures |Hashed(bs, c)| <= |Expand(bs, c)|
    ensures |Hashed(bs, c)| == |Expand(bs, c)| <==> Plain(c)
    ensures Plain(c) ==> Hashed(bs, c) == Expand(bs, c)
  {
    MulMono(1, c.blocks, bs);
    if c.blocks > 1 {
      MulMono(2, c.blocks, bs);
    }
  }

  /** The writer hashes what the reader hashes exactly when every chunk is plain. */
  lemma {:induction false} SameBytes(bs: nat, cs: seq<Chunk>)
    requires bs > 0 && bs % 4 == 0 && AllSolid(bs, cs)
    ensures |HashedAll(bs, cs)| <= |ExpandAll(bs, cs)|
    ensures HashedAll(bs, cs) == ExpandAll(bs, cs) <==> AllPlain(cs)
    ensures |HashedAll(bs, cs)| == |ExpandAll(bs, cs)| <==> AllPlain(cs)
    decreases |cs|
  {
    hide Hashed, Expand, Plain, Solid;
    if cs != [] {
      PlainIsHashed(bs, cs[0]);
      SameBytes(bs, cs[1..]);
      assert cs == [cs[0]] + cs[1..];
      PlainCons(cs[0], cs[1..]);
    }
  }

  lemma PlainCons(c: Chunk, t: seq<Chunk>)
    ensures AllPlain([c] + t) <==> Plain(c) && AllPlain(t)
  {
    var s := [c] + t;
    if AllPlain(s) {
      assert s[0] == c;
      forall i | 0 <= i < |t| ensures Plain(t[i]) {
        assert s[i + 1] == t[i];
      }
    }
  }

  // ---- what the reader sums ----

  lemma {:induction false} ExpandSize(bs: nat, cs: seq<Chunk>)
    requires AllSolid(bs, cs)
    ensures |ExpandAll(bs, cs)| == TotalBlocks(cs) * bs
  {
    if cs != [] {
      ExpandSize(bs, cs[1..]);
      Distribute(ChunkBlocks(cs[0]), TotalBlocks(cs[1..]), bs);
    }
  }

  lemma {:induction false} MapFloor(bs: nat, at: nat, cs: seq<Chunk>, j: nat)
    requires j in ChunksMap(bs, at, cs)
    ensures j >= at * bs
    decreases |cs|
  {
    if j in ChunksMap(bs, at + ChunkBlocks(cs[0]), cs[1..]) {
      MapFloor(bs, at + ChunkBlocks(cs[0]), cs[1..], j);
      MulMono(at, at + ChunkBlocks(cs[0]), bs);
    }
  }

  ghost function ByteAt(m: map<nat, byte>, j: nat): byte {
    if j in m then m[j] else 0
  }

  lemma ExpandedChunk(bs: nat, at: nat, c: Chunk, i: nat)
    requires i < |Expand(bs, c)|
    ensures Expand(bs, c)[i] == ByteAt(ChunkMap(bs, at, c), at * bs + i)
  {
  }

  lemma ChunkCeiling(bs: nat, at: nat, c: Chunk, j: nat)
    requires Solid(bs, c) && j in ChunkMap(bs, at, c)
    ensures j < (at + c.blocks) * bs
  {
    Distribute(at, c.blocks, bs);
  }

  /** The expansion holds the bytes of the chunks where they say something and zeros elsewhere. */
  lemma {:induction false} ExpansionAt(bs: nat, at: nat, cs: seq<Chunk>, i: nat)
    requires AllSolid(bs, cs) && i < |ExpandAll(bs, cs)|
    ensures ExpandAll(bs, cs)[i] == ByteAt(ChunksMap(bs, at, cs), at * bs + i)
    decreases |cs|
  {
    hide ChunkMap, Expand;
    var c, t := cs[0], cs[1..];
    var next := at + c.blocks;
    ExpandedSize(bs, c);
    Distribute(at, c.blocks, bs);
    if i < |Expand(bs, c)| {
      ExpandedChunk(bs, at, c, i);
      if at * bs + i in ChunksMap(bs, next, t) {
        MapFloor(bs, next, t, at * bs + i);
      }
    } else {
      ExpansionAt(bs, next, t, i - |Expand(bs, c)|);
      if at * bs + i in ChunkMap(bs, at, c) {
        ChunkCeiling(bs, at, c, at * bs + i);
      }
    }
  }

  lemma ExpandedSize(bs: nat, c: Chunk)
    requires Solid(bs, c)
    ensures |Expand(bs, c)| == c.blocks * bs
  {
  }

  /**
   * What the reader sums over a written file: `len` bytes, the padded image with zeros in its gaps.
   */
  lemma ReaderSumsTheImage(st: Store, bs: nat, len: nat, s: seq<Block>, i: nat)
    requires bs > 0 && AllBacked(st, s) && Ordered(bs, 0, s)
    requires len % bs == 0 && EndOf(bs, 0, s) * bs <= len && i < len
    ensures var x := ExpandAll(bs, AllChunks(st, bs, len, s));
      |x| == len && x[i] == ByteAt(PaddedDenote(st, bs, s), i)
  {
    hide ExpandAll, AllChunks, Ordered, EndOf, AllSolid, PaddedDenote, ChunksMap, DivRoundUp, TotalBlocks;
    var cs := AllChunks(st, bs, len, s);
    AllChunksSolid(st, bs, len, s);
    ExpandSize(bs, cs);
    TotalIsAnnounced(st, bs, len, s);
    RoundingAgrees(len, bs);
    ExpansionAt(bs, 0, cs, i);
    MapOfFile(st, bs, len, s);
  }

  // ---- in terms of the image ----

  /** No gap in front of any block, and every fill exactly one block long. */
  predicate Gapless(bs: nat, last: nat, s: seq<Block>)
    requires bs > 0
    decreases |s|
  {
    s == [] ||
    (s[0].block == last && (s[0].backing.Fill? ==> DivRoundUp(s[0].len, bs) == 1) &&
     Gapless(bs, End(bs, s[0]), s[1..]))
  }

  lemma {:induction false} GaplessIsPlain(st: Store, bs: nat, last: nat, s: seq<Block>)
    requires bs > 0 && AllBacked(st, s) && Ordered(bs, last, s)
    ensures AllPlain(ChunksOf(st, bs, last, s)) <==> Gapless(bs, last, s)
    decreases |s|
  {
    hide Plain, AllPlain, DivRoundUp;
    if s != [] {
      var b, t := s[0], s[1..];
      GaplessIsPlain(st, bs, End(bs, b), t);
      var c, rest := ChunkOf(st, bs, b), ChunksOf(st, bs, End(bs, b), t);
      assert Plain(c) <==> (b.backing.Fill? ==> DivRoundUp(b.len, bs) == 1) by { PlainBlock(st, bs, b); }
      PlainCons(c, rest);
      var g := GapChunk(last, b.block);
      if g == [] {
        assert g + [c] + rest == [c] + rest;
      } else {
        SkipIsNotPlain(b.block - last, [c] + rest);
        assert g + [c] + rest == [DontCareChunk(b.block - last)] + ([c] + rest);
      }
    } else {
      assert AllPlain([]) by { NoneIsPlain(); }
    }
  }

  lemma NoneIsPlain()
    ensures AllPlain([])
  {
  }

  lemma PlainBlock(st: Store, bs: nat, b: Block)
    requires bs > 0 && Backed(st, b)
    ensures Plain(ChunkOf(st, bs, b)) <==> (b.backing.Fill? ==> DivRoundUp(b.len, bs) == 1)
  {
  }

  lemma SkipIsNotPlain(n: nat, t: seq<Chunk>)
    ensures !AllPlain([DontCareChunk(n)] + t)
  {
    assert ([DontCareChunk(n)] + t)[0] == DontCareChunk(n);
  }

  /**
   * The two checksums run over the same bytes exactly for images that have no gap, not even at the end,
   * and no fill longer than a block; for those a file written with its sum is read back with it checked.
   */
  lemma SumsAgree(st: Store, bs: nat, len: nat, s: seq<Block>)
    requires bs > 0 && bs % 4 == 0 && AllBacked(st, s) && Ordered(bs, 0, s)
    requires len % bs == 0 && EndOf(bs, 0, s) * bs <= len
    ensures var cs := AllChunks(st, bs, len, s);
      && (HashedAll(bs, cs) == ExpandAll(bs, cs) <==> (Gapless(bs, 0, s) && EndOf(bs, 0, s) * bs == len))
      && WriterSum(bs, cs) == Crc32(0, HashedAll(bs, cs))
      && (Gapless(bs, 0, s) && EndOf(bs, 0, s) * bs == len ==>
            WriterSum(bs, cs) == Crc32(0, ExpandAll(bs, cs)))
  {
    hide AllPlain, AllSolid, ChunksOf, Ordered, EndOf, HashedAll, ExpandAll, WriterSum, Crc32, Gapless, AllBacked;
    var cs, last := AllChunks(st, bs, len, s), EndOf(bs, 0, s);
    AllChunksSolid(st, bs, len, s);
    SameBytes(bs, cs);
    WriterSumIs(bs, cs);
    GaplessIsPlain(st, bs, 0, s);
    TailOfWhole(bs, len, last);
    var tail := TailChunk(bs, len, last);
    if len == last * bs {
      assert cs == ChunksOf(st, bs, 0, s);
    } else {
      LastIsPlain(cs);
    }
  }

  lemma LastIsPlain(cs: seq<Chunk>)
    ensures cs != [] && cs[|cs| - 1].DontCareChunk? ==> !AllPlain(cs)
  {
  }

  // ---- the sums do differ ----

  lemma ZeroByte(c: bv32, s: seq<byte>)
    ensures Register(c, s + [0]) == EightSteps(Register(c, s))
  {
    assert (s + [0])[..|s|] == s;
    XorZero(Register(c, s));
    Unroll(BitStep, Register(c, s));
  }

  lemma XorZero(c: bv32)
    ensures Xor(c, Word(0)) == c
  {
  }

  lemma ZerosSnoc(n: nat)
    ensures Zeros(n + 1) == Zeros(n) + [0]
  {
  }

  lemma FourSteps()
    ensures EightSteps(0xffffffff) == 0x2dfd1072
    ensures EightSteps(0x2dfd1072) == 0xbe26ed00
    ensures EightSteps(0xbe26ed00) == 0x00be26ed
    ensures EightSteps(0x00be26ed) == 0xdebb20e3
  {
  }

  lemma FourMoreSteps()
    ensures EightSteps(0xdebb20e3) == 0x39dd08e2
    ensures EightSteps(0x39dd08e2) == 0x4e3d5e5c
    ensures EightSteps(0x4e3d5e5c) == 0x62932081
    ensures EightSteps(0x62932081) == 0x9add2096
  {
  }

  lemma NextZero(n: nat, a: bv32, b: bv32)
    requires Register(ONES, Zeros(n)) == a && EightSteps(a) == b
    ensures Register(ONES, Zeros(n + 1)) == b
  {
    ZerosSnoc(n);
    ZeroByte(ONES, Zeros(n));
  }

  lemma RegisterOfZeros()
    ensures Register(ONES, Zeros(4)) == 0xdebb20e3
    ensures Register(ONES, Zeros(8)) == 0x9add2096
  {
    hide EightSteps;
    FourSteps();
    FourMoreSteps();
    NextZero(0, 0xffffffff, 0x2dfd1072);
    NextZero(1, 0x2dfd1072, 0xbe26ed00);
    NextZero(2, 0xbe26ed00, 0x00be26ed);
    NextZero(3, 0x00be26ed, 0xdebb20e3);
    NextZero(4, 0xdebb20e3, 0x39dd08e2);
    NextZero(5, 0x39dd08e2, 0x4e3d5e5c);
    NextZero(6, 0x4e3d5e5c, 0x62932081);
    NextZero(7, 0x62932081, 0x9add2096);
  }

  lemma Complements(c: bv32)
    ensures Xor(0, ONES) == ONES
    ensures c == 0xdebb20e3 ==> Xor(c, ONES) == 0x2144df1c
    ensures c == 0x9add2096 ==> Xor(c, ONES) == 0x6522df69
  {
  }

  lemma SumOfFourZeros()
    ensures Crc32(0, Zeros(4)) == 0x2144df1c
    ensures Crc32(0, Zeros(8)) == 0x6522df69
  {
    hide Register;
    RegisterOfZeros();
    Complements(Register(ONES, Zeros(4)));
    Complements(Register(ONES, Zeros(8)));
  }

  lemma ZeroPattern(n: nat)
    ensures FillPattern(0, n) == Zeros(n)
  {
    assert Le32(0) == [0, 0, 0, 0];
  }

  lemma GapChunks(st: Store)
    ensures AllChunks(st, 4, 4, []) == [DontCareChunk(1)]
    ensures HashedAll(4, [DontCareChunk(1)]) == [] && ExpandAll(4, [DontCareChunk(1)]) == Zeros(4)
  {
    assert [DontCareChunk(1)][1..] == [];
  }

  /** A single skipped block: the file is written with sum 0 and read with another one. */
  lemma GapDisagrees(st: Store)
    ensures WriterSum(4, AllChunks(st, 4, 4, [])) == 0
    ensures Import(SparseBytes(st, 4, 4, [], true), true).Err?
    ensures Import(SparseBytes(st, 4, 4, [], true), false).Ok?
  {
    hide Import, SparseBytes, Crc32, AllChunks, WriterSum, HashedAll, ExpandAll;
    GapChunks(st);
    WriterSumIs(4, [DontCareChunk(1)]);
    EmptySum(0);
    SumOfFourZeros();
    RoundsExactly(4, 4);
    ImportOfWrite(st, 4, 4, [], true, true);
    ImportOfWrite(st, 4, 4, [], true, false);
  }

  lemma FillChunks(st: Store)
    ensures Ordered(4, 0, [Block(0, 8, Fill(0))]) && EndOf(4, 0, [Block(0, 8, Fill(0))]) == 2
    ensures AllChunks(st, 4, 8, [Block(0, 8, Fill(0))]) == [FillChunk(2, 0)]
    ensures HashedAll(4, [FillChunk(2, 0)]) == Zeros(4) && ExpandAll(4, [FillChunk(2, 0)]) == Zeros(8)
  {
    var b := Block(0, 8, Fill(0));
    assert [b][1..] == [];
    assert ChunksOf(st, 4, 0, [b]) == [FillChunk(2, 0)];
    assert [FillChunk(2, 0)][1..] == [];
    ZeroPattern(4);
    ZeroPattern(8);
  }

  /** A fill of two blocks: the writer sums one of them, the reader both. */
  lemma LongFillDisagrees(st: Store)
    ensures var s := [Block(0, 8, Fill(0))];
      && WriterSum(4, AllChunks(st, 4, 8, s)) == 0x2144df1c
      && Import(SparseBytes(st, 4, 8, s, true), true).Err?
      && Import(SparseBytes(st, 4, 8, s, true), false).Ok?
  {
    hide Import, SparseBytes, Crc32, AllChunks, WriterSum, HashedAll, ExpandAll, Ordered, EndOf;
    var s := [Block(0, 8, Fill(0))];
    FillChunks(st);
    WriterSumIs(4, [FillChunk(2, 0)]);
    SumOfFourZeros();
    RoundsExactly(8, 4);
    ImportOfWrite(st, 4, 8, s, true, true);
    ImportOfWrite(st, 4, 8, s, true, false);
  }
}
