/** How large the pieces of a resparse come out, and how many there can be. */
module ResparseSizes {
  import opened Wire
  import opened Arith
  import opened Blocks
  import opened SparseFormat
  import Resparse
  import opened ResparseRuns

  lemma EncodedBlock(st: Store, bs: nat, last: nat, b: Block)
    requires bs > 0 && Backed(st, b)
    ensures |EncodeChunks(GapChunk(last, b.block) + [ChunkOf(st, bs, b)])| == Resparse.Cost(bs, last, b)
  {
    hide EncodeChunks;
    var c := ChunkOf(st, bs, b);
    EncodeOne(c);
    if b.block > last {
      EncodeCons(DontCareChunk(b.block - last), [c]);
    } else {
      assert GapChunk(last, b.block) + [c] == [c];
    }
  }

  /** The cost that resparse counts is what the writer writes. */
  lemma {:induction false} EncodedBody(st: Store, bs: nat, last: nat, s: seq<Block>)
    requires bs > 0 && AllBacked(st, s)
    ensures |EncodeChunks(ChunksOf(st, bs, last, s))| == Resparse.Body(bs, last, s)
    decreases |s|
  {
    hide EncodeChunks, ChunkOf, GapChunk, Resparse.Cost;
    if s != [] {
      EncodedBlock(st, bs, last, s[0]);
      EncodedBody(st, bs, End(bs, s[0]), s[1..]);
      EncodeAppend(GapChunk(last, s[0].block) + [ChunkOf(st, bs, s[0])], ChunksOf(st, bs, End(bs, s[0]), s[1..]));
    } else {
      assert EncodeChunks([]) == [] by { EncodeNothing(); }
    }
  }

  /** The exact size of a written file: header, chunks, trailing skip, checksum. */
  lemma FileSize(st: Store, bs: nat, len: nat, s: seq<Block>, crc: bool)
    requires bs > 0 && AllBacked(st, s) && EndOf(bs, 0, s) * bs <= len && len % bs == 0
    ensures |SparseBytes(st, bs, len, s, crc)| ==
      28 + Resparse.Body(bs, 0, s) + (if EndOf(bs, 0, s) * bs < len then 12 else 0) + if crc then 16 else 0
  {
    hide EncodeChunks, ChunksOf, Resparse.Body, EndOf, WriterSum;
    var cs, last := AllChunks(st, bs, len, s), EndOf(bs, 0, s);
    EncodedBody(st, bs, 0, s);
    TailOfWhole(bs, len, last);
    EncodeAppend(cs, CrcTail(bs, cs, crc));
    EncodeOne(CrcChunk(WriterSum(bs, cs) as int));
    EncodeAppend(ChunksOf(st, bs, 0, s), TailChunk(bs, len, last));
    EncodeOne(DontCareChunk((len - last * bs) / bs));
    EncodeNothing();
  }

  predicate FitsLimit(bs: nat, budget: nat, p: seq<Block>)
    requires bs > 0
  {
    Resparse.Body(bs, 0, p) <= budget + 12
  }

  predicate FillsLimit(bs: nat, budget: nat, p: seq<Block>)
    requires bs > 0
  {
    Resparse.Body(bs, 0, p) >= budget - budget / 8 - 12
  }

  /** Every piece of a run is within the budget and one skip header; all but the last nearly fill it. */
  lemma {:induction false} PieceBodies(bs: nat, budget: nat, s: seq<Block>, i: nat)
    requires Cuttable(bs, budget, s) && i < |CutAll(bs, budget, s)|
    ensures var ps := CutAll(bs, budget, s);
      && FitsLimit(bs, budget, ps[i])
      && (i < |ps| - 1 ==> FillsLimit(bs, budget, ps[i]))
    decreases TotalLen(s)
  {
    RoundShrinks(bs, budget, s);
    Resparse.ScanBounds(bs, budget, 0, 0, true, s);
    var c := Resparse.NextCut(bs, budget, s);
    if c.more && i > 0 {
      PieceBodies(bs, budget, Resparse.RestOf(bs, s, c), i - 1);
    }
  }

  /**
   * The announced limit against the real size of the files. Without a checksum every piece is at least
   * four bytes below the limit, even when a gap in front of the cut block went uncounted; with one it may
   * be up to twelve bytes above.
   */
  lemma PiecesFit(st: Store, bs: nat, len: nat, maxLen: u32, s: seq<Block>, i: nat, crc: bool)
    requires maxLen >= Resparse.OVERHEAD && Cuttable(bs, Resparse.Budget(maxLen), s) && AllBacked(st, s)
    requires len % bs == 0 && EndOf(bs, 0, s) * bs <= len
    requires i < |CutAll(bs, Resparse.Budget(maxLen), s)|
    ensures var ps := CutAll(bs, Resparse.Budget(maxLen), s);
      && AllBacked(st, ps[i])
      && |SparseBytes(st, bs, len, ps[i], crc)| <= (if crc then maxLen + 12 else maxLen - 4)
      && (i < |ps| - 1 ==> |SparseBytes(st, bs, len, ps[i], crc)| >= maxLen - 56 - (maxLen - 56) / 8 + 16)
  {
    hide CutAll, SparseBytes, Resparse.Body, AllBacked, Ordered, EndOf;
    var budget := Resparse.Budget(maxLen);
    var ps := CutAll(bs, budget, s);
    PieceBodies(bs, budget, s, i);
    PieceWithin(bs, budget, s, i);
    PiecesDenote(st, bs, budget, s);
    MulMono(EndOf(bs, 0, ps[i]), EndOf(bs, 0, s), bs);
    FileSize(st, bs, len, ps[i], crc);
  }

  /** No piece reaches past the end of the whole list. */
  lemma PieceWithin(bs: nat, budget: nat, s: seq<Block>, i: nat)
    requires Cuttable(bs, budget, s) && i < |CutAll(bs, budget, s)|
    ensures var p := CutAll(bs, budget, s)[i];
      Ordered(bs, 0, p) && EndOf(bs, 0, p) <= EndOf(bs, 0, s)
  {
    PiecesRefine(bs, budget, s);
    EndsWithin(bs, 0, CutAll(bs, budget, s), i);
  }

  lemma {:induction false} EndsWithin(bs: nat, from: nat, ps: seq<seq<Block>>, i: nat)
    requires bs > 0 && i < |ps| && Ordered(bs, from, Concat(ps))
    ensures EndOf(bs, 0, ps[i]) <= EndOf(bs, from, Concat(ps)) || ps[i] == []
    ensures Ordered(bs, 0, ps[i]) && EndOf(bs, 0, ps[i]) <= EndOf(bs, from, Concat(ps))
    decreases |ps|
  {
    var p, r := ps[0], Concat(ps[1..]);
    OrderedAppend(bs, from, p, r);
    EndOfAppend(bs, from, p, r);
    FromZero(bs, from, p);
    OrderedEndOf(bs, EndOf(bs, from, p), r);
    if i > 0 {
      EndsWithin(bs, EndOf(bs, from, p), ps[1..], i - 1);
    }
  }

  // ---- how many pieces ----

  function TotalBody(bs: nat, ps: seq<seq<Block>>): nat
    requires bs > 0
  {
    if ps == [] then 0 else Resparse.Body(bs, 0, ps[0]) + TotalBody(bs, ps[1..])
  }

  lemma {:induction false} BodyAppend(bs: nat, last: nat, a: seq<Block>, b: seq<Block>)
    requires bs > 0
    ensures Resparse.Body(bs, last, a + b) == Resparse.Body(bs, last, a) + Resparse.Body(bs, EndOf(bs, last, a), b)
    decreases |a|
  {
    hide Resparse.Cost;
    if a == [] {
      assert a + b == b;
    } else {
      assert (a + b)[1..] == a[1..] + b;
      BodyAppend(bs, End(bs, a[0]), a[1..], b);
    }
  }

  /** Starting over from block 0 costs at most one more skip header. */
  lemma StartOver(bs: nat, last: nat, s: seq<Block>)
    requires bs > 0
    ensures Resparse.Body(bs, 0, s) <= Resparse.Body(bs, last, s) + 12
  {
  }

  lemma SplitCost(bs: nat, last: nat, b: Block, m: nat)
    requires bs > 0 && m % bs == 0 && m <= b.len
    ensures Resparse.Cost(bs, last, SplitHead(b, m)) + 12 + Resparse.Payload(bs, SplitTail(bs, b, m))
      <= Resparse.Cost(bs, last, b) + 16
  {
    RoundingAgrees(m, bs);
    DivRoundUpSplit(b.len, m / bs, bs);
    AlignBounds(m, bs);
    AlignBounds(b.len, bs);
    AlignBounds(b.len - m, bs);
    Distribute(m / bs, DivRoundUp(b.len - m, bs), bs);
  }

  /** One cut adds at most a chunk header, a skip header and a fill word to what is written in all. */
  lemma RoundCost(bs: nat, s: seq<Block>, c: Resparse.CutPoint)
    requires bs > 0 && Resparse.InRange(s, c)
    requires c.split ==> c.m % bs == 0 && s[c.k].block + c.m / bs < U32
    ensures Resparse.Body(bs, 0, Resparse.PieceOf(s, c)) + Resparse.Body(bs, 0, Resparse.RestOf(bs, s, c))
      <= Resparse.Body(bs, 0, s) + 28
  {
    hide EndOf;
    var a := s[..c.k];
    var last := EndOf(bs, 0, a);
    if c.split {
      var b, z := s[c.k], s[c.k + 1..];
      var h, t := SplitHead(b, c.m), SplitTail(bs, b, c.m);
      assert s == a + ([b] + z);
      BodyAppend(bs, 0, a, [b] + z);
      BodyAppend(bs, 0, a, [h]);
      SplitBody(bs, last, b, c.m, z);
    } else {
      assert s == a + s[c.k..] && a + [] == a;
      BodyAppend(bs, 0, a, s[c.k..]);
      StartOver(bs, last, s[c.k..]);
    }
  }

  lemma SplitBody(bs: nat, last: nat, b: Block, m: nat, z: seq<Block>)
    requires bs > 0 && m % bs == 0 && m <= b.len && b.block + m / bs < U32
    ensures Resparse.Body(bs, last, [SplitHead(b, m)]) + Resparse.Body(bs, 0, [SplitTail(bs, b, m)] + z)
      <= Resparse.Body(bs, last, [b] + z) + 28
  {
    hide Resparse.Body;
    var h, t := SplitHead(b, m), SplitTail(bs, b, m);
    Resparse.BodyOne(bs, last, h);
    Resparse.BodySplit(bs, 0, t, z);
    Resparse.BodySplit(bs, last, b, z);
    SplitCost(bs, last, b, m);
    SplitGeometry(bs, b, m);
  }

  lemma CutRoom(bs: nat, s: seq<Block>, c: Resparse.CutPoint)
    requires bs > 0 && Ordered(bs, 0, s) && EndOf(bs, 0, s) < U32
    requires Resparse.InRange(s, c) && c.split && c.m % bs == 0
    ensures s[c.k].block + c.m / bs < U32
  {
    OrderedEndOf(bs, 0, s);
    Resparse.SplitRoom(bs, s[c.k], c.m);
  }

  /** Cutting adds at most 28 bytes a cut to what is written in all. */
  lemma {:induction false} TotalCost(bs: nat, budget: nat, s: seq<Block>)
    requires Cuttable(bs, budget, s)
    ensures var ps := CutAll(bs, budget, s);
      TotalBody(bs, ps) <= Resparse.Body(bs, 0, s) + 28 * (|ps| - 1)
    decreases TotalLen(s)
  {
    hide Resparse.Body, Resparse.NextCut;
    RoundShrinks(bs, budget, s);
    var c := Resparse.NextCut(bs, budget, s);
    if c.more {
      if c.split {
        CutRoom(bs, s, c);
      }
      RoundCost(bs, s, c);
      TotalCost(bs, budget, Resparse.RestOf(bs, s, c));
      var qs := CutAll(bs, budget, Resparse.RestOf(bs, s, c));
      assert ([Resparse.PieceOf(s, c)] + qs)[1..] == qs;
    } else {
      assert [s][1..] == [];
    }
  }

  lemma {:induction false} FullPieces(bs: nat, budget: nat, ps: seq<seq<Block>>)
    requires bs > 0 && ps != [] && forall i :: 0 <= i < |ps| - 1 ==> FillsLimit(bs, budget, ps[i])
    ensures TotalBody(bs, ps) >= (|ps| - 1) * (budget - budget / 8 - 12)
    decreases |ps|
  {
    if |ps| > 1 {
      FullPieces(bs, budget, ps[1..]);
      Distribute(1, |ps| - 2, budget - budget / 8 - 12);
    }
  }

  /** The image bounds the number of pieces: each one but the last accounts for its share of the file. */
  lemma PieceCount(bs: nat, budget: nat, s: seq<Block>)
    requires Cuttable(bs, budget, s)
    ensures (|CutAll(bs, budget, s)| - 1) * (budget - budget / 8 - 40) <= Resparse.Body(bs, 0, s)
  {
    hide CutAll, Resparse.Body, Ordered, EndOf;
    var ps := CutAll(bs, budget, s);
    forall i | 0 <= i < |ps| - 1 ensures FillsLimit(bs, budget, ps[i]) {
      PieceBodies(bs, budget, s, i);
    }
    FullPieces(bs, budget, ps);
    TotalCost(bs, budget, s);
    ScaledDown(|ps| - 1, budget - budget / 8 - 12);
  }

  lemma ScaledDown(n: nat, x: int)
    ensures n * (x - 28) == n * x - 28 * n
  {
  }

  // ---- a limit that does not hold ----

  /** A raw block behind a gap, whose first eight blocks of 16 bytes fit a budget of 140. */
  function Overrunning(): Block {
    Block(1, 144, Data(Zeros(144), 0))
  }

  lemma OverrunningCut()
    ensures var b := Overrunning();
      && Ordered(16, 0, [b]) && EndOf(16, 0, [b]) == 10
      && Resparse.NextCut(16, 140, [b]) == Resparse.CutPoint(0, true, 128, true)
  {
    hide Zeros;
    var b := Overrunning();
    assert [b][1..] == [];
    assert End(16, b) == 10 && EndOf(16, 10, []) == 10 && Ordered(16, 10, []);
    assert Align(144, 16) == 144 && AlignDown(128, 16) == 128;
  }

  lemma OverrunningHead(st: Store)
    ensures var h := SplitHead(Overrunning(), 128);
      && AllBacked(st, [h]) && EndOf(16, 0, [h]) == 9 && Resparse.Body(16, 0, [h]) == 152
  {
    var h := SplitHead(Overrunning(), 128);
    assert [h][1..] == [];
    assert End(16, h) == 9 && EndOf(16, 9, []) == 9;
    assert Align(128, 16) == 128 && Resparse.Body(16, 9, []) == 0;
  }

  /** With a checksum a piece can be twelve bytes over the limit: a gap, a cut block and a trailing skip. */
  lemma CrcOverrun(st: Store)
    ensures var b := Overrunning();
      && Cuttable(16, Resparse.Budget(196), [b]) && AllBacked(st, [b])
      && CutAll(16, Resparse.Budget(196), [b])[0] == [SplitHead(b, 128)]
      && AllBacked(st, [SplitHead(b, 128)])
      && |SparseBytes(st, 16, 160, [SplitHead(b, 128)], true)| == 196 + 12
  {
    hide SparseBytes, TotalLen, Ordered, EndOf, Resparse.Body, Resparse.NextCut;
    var b := Overrunning();
    OverrunningCut();
    OverrunningHead(st);
    assert [b][..0] + [SplitHead(b, 128)] == [SplitHead(b, 128)];
    FileSize(st, 16, 160, [SplitHead(b, 128)], true);
  }
}
