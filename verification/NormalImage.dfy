/** What the plain (unsparsed) output spells out, against the meaning of the block list. */
module NormalImage {
  import opened Wire
  import opened Arith
  import opened Blocks
  import opened OutputCalls
  import opened SparseFile

  /** What a position of the output should be: the image's byte, or left as it was. */
  ghost function CellAt(m: map<nat, byte>, i: nat): Cell {
    if i in m then Byte(m[i]) else Hole
  }

  predicate FillsAligned(bs: nat, s: seq<Block>)
    requires bs > 0
  {
    forall k :: 0 <= k < |s| && s[k].backing.Fill? ==> s[k].len % bs == 0
  }

  lemma FillsAlignedCons(bs: nat, b: Block, t: seq<Block>)
    requires bs > 0
    ensures FillsAligned(bs, [b] + t) <==> (b.backing.Fill? ==> b.len % bs == 0) && FillsAligned(bs, t)
  {
    var s := [b] + t;
    if FillsAligned(bs, s) {
      assert s[0] == b;
      forall k | 0 <= k < |t| && t[k].backing.Fill? ensures t[k].len % bs == 0 {
        assert s[k + 1] == t[k];
      }
    }
  }

  lemma BlockCellsSize(st: Store, bs: nat, b: Block)
    requires bs > 0 && Backed(st, b)
    ensures |BlockCells(st, bs, b)| <= DivRoundUp(b.len, bs) * bs
    ensures |BlockCells(st, bs, b)| == DivRoundUp(b.len, bs) * bs <==> (b.backing.Fill? ==> b.len % bs == 0)
  {
    AlignBounds(b.len, bs);
    RoundingAgrees(b.len, bs);
    DivRoundUpOfMultiple(DivRoundUp(b.len, bs), bs);
  }

  lemma StepSize(st: Store, bs: nat, last: nat, b: Block)
    requires bs > 0 && Backed(st, b) && last <= b.block
    ensures |StepCells(st, bs, last, b)| <= (End(bs, b) - last) * bs
    ensures |StepCells(st, bs, last, b)| == (End(bs, b) - last) * bs <==> (b.backing.Fill? ==> b.len % bs == 0)
  {
    hide BlockCells, DivRoundUp;
    BlockCellsSize(st, bs, b);
    Distribute(b.block - last, DivRoundUp(b.len, bs), bs);
  }

  /** Each unaligned fill makes the output too short. */
  lemma {:induction false} ImageSize(st: Store, bs: nat, last: nat, s: seq<Block>)
    requires bs > 0 && AllBacked(st, s) && Ordered(bs, last, s)
    ensures last <= EndOf(bs, last, s)
    ensures |ImageCells(st, bs, last, s)| <= (EndOf(bs, last, s) - last) * bs
    ensures |ImageCells(st, bs, last, s)| == (EndOf(bs, last, s) - last) * bs <==> FillsAligned(bs, s)
    decreases |s|
  {
    hide StepCells, FillsAligned, End;
    if s != [] {
      var b, t := s[0], s[1..];
      var e := End(bs, b);
      StepSize(st, bs, last, b);
      ImageSize(st, bs, e, t);
      assert s == [b] + t;
      FillsAlignedCons(bs, b, t);
      assert last <= e by { StartBeforeEnd(bs, b); }
      Distribute(e - last, EndOf(bs, e, t) - e, bs);
    } else {
      assert FillsAligned(bs, s) by { NoFills(bs, s); }
    }
  }

  lemma StartBeforeEnd(bs: nat, b: Block)
    requires bs > 0
    ensures b.block <= End(bs, b)
  {
  }

  lemma NoFills(bs: nat, s: seq<Block>)
    requires bs > 0 && s == []
    ensures FillsAligned(bs, s)
  {
  }

  lemma BlockCellsAt(st: Store, bs: nat, b: Block, i: nat)
    requires bs > 0 && Backed(st, b) && i < |BlockCells(st, bs, b)|
    ensures BlockCells(st, bs, b)[i] == CellAt(BlockMap(st, bs, b), b.block * bs + i)
  {
    AlignBounds(b.len, bs);
    var data := Content(st, b);
    if i < b.len {
      CellsAt(data, i);
    } else {
      HolesAt(Align(b.len, bs) - b.len, i - b.len);
    }
  }

  lemma StepCellsAt(st: Store, bs: nat, last: nat, b: Block, i: nat)
    requires bs > 0 && Backed(st, b) && last <= b.block && i < |StepCells(st, bs, last, b)|
    ensures StepCells(st, bs, last, b)[i] == CellAt(BlockMap(st, bs, b), last * bs + i)
  {
    hide BlockMap, BlockCells, DivRoundUp;
    var gap := (b.block - last) * bs;
    Distribute(b.block, last, bs);
    if i < gap {
      HolesAt(gap, i);
      if last * bs + i in BlockMap(st, bs, b) {
        BlockMapDomain(st, bs, b, last * bs + i);
      }
    } else {
      BlockCellsAt(st, bs, b, i - gap);
    }
  }

  lemma {:induction false} ImageCellsAt(st: Store, bs: nat, last: nat, s: seq<Block>, i: nat)
    requires bs > 0 && AllBacked(st, s) && Ordered(bs, last, s) && FillsAligned(bs, s)
    requires i < |ImageCells(st, bs, last, s)|
    ensures ImageCells(st, bs, last, s)[i] == CellAt(Denote(st, bs, s), last * bs + i)
    decreases |s|
  {
    hide StepCells, BlockMap, FillsAligned, End;
    var b, t := s[0], s[1..];
    var e := End(bs, b);
    assert s == [b] + t;
    FillsAlignedCons(bs, b, t);
    StepSize(st, bs, last, b);
    Distribute(e, last, bs);
    var n := |StepCells(st, bs, last, b)|;
    assert n == e * bs - last * bs;
    if i < n {
      StepCellsAt(st, bs, last, b, i);
      if last * bs + i in Denote(st, bs, t) {
        DenoteDomain(st, bs, e, t, last * bs + i);
      }
    } else {
      ImageCellsAt(st, bs, e, t, i - n);
      if last * bs + i in BlockMap(st, bs, b) {
        BlockMapDomain(st, bs, b, last * bs + i);
      }
    }
  }

  lemma TailCells(st: Store, bs: nat, len: nat, s: seq<Block>, i: nat)
    requires bs > 0 && AllBacked(st, s) && Ordered(bs, 0, s) && FillsAligned(bs, s)
    requires EndOf(bs, 0, s) * bs <= i < len
    ensures |WholeImage(st, bs, len, s)| == len
    ensures WholeImage(st, bs, len, s)[i] == Hole && i !in Denote(st, bs, s)
  {
    hide ImageCells, FillsAligned, Ordered, EndOf, Denote;
    ImageSize(st, bs, 0, s);
    HolesAt(len - EndOf(bs, 0, s) * bs, i - EndOf(bs, 0, s) * bs);
    if i in Denote(st, bs, s) {
      DenoteDomain(st, bs, 0, s, i);
    }
  }

  /** The plain output is the image: `len` positions, each the image's byte or a hole. */
  ghost predicate SpellsOut(w: seq<Cell>, len: nat, m: map<nat, byte>) {
    |w| == len && forall i :: 0 <= i < len ==> w[i] == CellAt(m, i)
  }

  /** The plain output is the image exactly when every fill is a whole number of blocks. */
  lemma NormalIsImage(st: Store, bs: nat, len: nat, s: seq<Block>)
    requires bs > 0 && AllBacked(st, s) && Ordered(bs, 0, s) && EndOf(bs, 0, s) * bs <= len
    ensures SpellsOut(WholeImage(st, bs, len, s), len, Denote(st, bs, s)) <==> FillsAligned(bs, s)
    ensures |WholeImage(st, bs, len, s)| == len <==> FillsAligned(bs, s)
  {
    hide ImageCells, FillsAligned, Ordered, EndOf, Denote;
    ImageSize(st, bs, 0, s);
    var w := WholeImage(st, bs, len, s);
    if FillsAligned(bs, s) {
      forall i | 0 <= i < len ensures w[i] == CellAt(Denote(st, bs, s), i) {
        if i < EndOf(bs, 0, s) * bs {
          ImageCellsAt(st, bs, 0, s, i);
        } else {
          TailCells(st, bs, len, s, i);
        }
      }
    }
  }

  /** A fill of five bytes in four-byte blocks: the next block comes out three positions early. */
  lemma UnalignedFillShifts(st: Store)
    ensures var s := [Block(0, 5, Fill(0)), Block(2, 4, Data([1, 2, 3, 4], 0))];
      && Ordered(4, 0, s) && AllBacked(st, s) && EndOf(4, 0, s) * 4 <= 12
      && |WholeImage(st, 4, 12, s)| == 9
  {
    var a, b := Block(0, 5, Fill(0)), Block(2, 4, Data([1, 2, 3, 4], 0));
    assert [a, b][1..] == [b] && [b][1..] == [];
    assert End(4, a) == 2 && End(4, b) == 3;
    assert EndOf(4, 3, []) == 3 && EndOf(4, 2, [b]) == 3;
    assert EndOf(4, 0, [a, b]) == 3;
    assert |StepCells(st, 4, 0, a)| == 5;
    assert Align(4, 4) == 4;
    assert GapCells(4, 2, 2) == [] && |DataCells(4, Content(st, b))| == 4;
    assert |StepCells(st, 4, 2, b)| == 4;
    assert ImageCells(st, 4, 3, []) == [];
    assert ImageCells(st, 4, 2, [b]) == StepCells(st, 4, 2, b) + ImageCells(st, 4, 3, []);
    assert |ImageCells(st, 4, 2, [b])| == 4;
  }
}
