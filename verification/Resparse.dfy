/** Cutting a list of blocks into pieces that fit a download limit: what one round takes. */
module Resparse {
  import opened Wire
  import opened Arith
  import opened Blocks
  import opened Insertion

  /** Sparse header, end skip and crc chunk: what a piece costs beyond its own chunks. */
  const OVERHEAD: nat := 56

  /** The unsigned budget left for chunks; a limit below the overhead wraps around. */
  function Budget(maxLen: u32): nat {
    Trunc32(maxLen - OVERHEAD)
  }

  function Payload(bs: nat, b: Block): nat
    requires bs > 0
  {
    if b.backing.Fill? then 4 else Align(b.len, bs)
  }

  /** What writing `b` adds to the file, with the skip chunk when there is a gap before it. */
  function Cost(bs: nat, last: nat, b: Block): nat
    requires bs > 0
  {
    (if b.block > last then 12 else 0) + 12 + Payload(bs, b)
  }

  /** The chunk bytes of a whole list. */
  function Body(bs: nat, last: nat, s: seq<Block>): nat
    requires bs > 0
    decreases |s|
  {
    if s == [] then 0 else Cost(bs, last, s[0]) + Body(bs, End(bs, s[0]), s[1..])
  }

  /**
   * Where a round stops: `k` whole blocks, then the first `m` bytes of block `k` when it splits that
   * block; `more` is whether the round handed a block back to its caller.
   */
  datatype CutPoint = CutPoint(k: nat, split: bool, m: nat, more: bool)

  function Later(c: CutPoint): CutPoint {
    c.(k := c.k + 1)
  }

  /** The loop of `move_chunks_up_to_len`; `first` says that no block has been taken yet. */
  function Scan(bs: nat, budget: nat, last: nat, used: nat, first: bool, s: seq<Block>): CutPoint
    requires bs > 0
    decreases |s|
  {
    if s == [] then CutPoint(0, false, 0, false)
    else if used + Cost(bs, last, s[0]) > budget then
      if first || budget - (used + 12) > budget / 8 then
        var m := AlignDown(Trunc32(budget - (used + 12)), bs);
        if s[0].len <= m then CutPoint(1, false, 0, true) else CutPoint(0, true, m, true)
      else CutPoint(0, false, 0, true)
    else Later(Scan(bs, budget, End(bs, s[0]), used + Cost(bs, last, s[0]), false, s[1..]))
  }

  function NextCut(bs: nat, budget: nat, s: seq<Block>): CutPoint
    requires bs > 0
  {
    Scan(bs, budget, 0, 0, true, s)
  }

  predicate InRange(s: seq<Block>, c: CutPoint) {
    c.k <= |s| && (c.split ==> c.k < |s| && c.m < s[c.k].len)
  }

  function PieceOf(s: seq<Block>, c: CutPoint): seq<Block>
    requires InRange(s, c)
  {
    s[..c.k] + if c.split then [SplitHead(s[c.k], c.m)] else []
  }

  function RestOf(bs: nat, s: seq<Block>, c: CutPoint): seq<Block>
    requires bs > 0 && InRange(s, c)
  {
    if c.split then [SplitTail(bs, s[c.k], c.m)] + s[c.k + 1..] else s[c.k..]
  }

  lemma {:induction false} ScanInRange(bs: nat, budget: nat, last: nat, used: nat, first: bool, s: seq<Block>)
    requires bs > 0
    ensures InRange(s, Scan(bs, budget, last, used, first, s))
    ensures var c := Scan(bs, budget, last, used, first, s);
      && (c.split ==> c.m % bs == 0)
      && (!c.more ==> c.k == |s| && !c.split)
    decreases |s|
  {
    if s != [] && used + Cost(bs, last, s[0]) <= budget {
      ScanInRange(bs, budget, End(bs, s[0]), used + Cost(bs, last, s[0]), false, s[1..]);
    } else if s != [] {
      AlignDownIsWhole(Trunc32(budget - (used + 12)), bs);
    }
  }

  /** Big enough that no cut leaves an empty block behind. */
  predicate LimitOk(bs: nat, budget: nat) {
    4 <= bs && bs % 4 == 0 && bs <= budget / 8 + 1 && bs + 12 <= budget < U32
  }

  lemma CutSize(bs: nat, budget: nat, used: nat, first: bool)
    requires LimitOk(bs, budget) && (first ==> used == 0)
    requires first || budget - (used + 12) > budget / 8
    ensures var n := budget - (used + 12);
      && n > 0 && Trunc32(n) == n
      && 0 < AlignDown(n, bs) <= n < AlignDown(n, bs) + bs
  {
    var n := budget - (used + 12);
    AlignDownBounds(n, bs);
    if n / bs > 0 {
      MulMono(1, n / bs, bs);
    }
  }

  /** Every round takes something, and a split always leaves bytes on both sides. */
  lemma {:induction false} ScanProgress(bs: nat, budget: nat, last: nat, used: nat, first: bool, s: seq<Block>)
    requires LimitOk(bs, budget) && (first ==> used == 0)
    ensures var c := Scan(bs, budget, last, used, first, s);
      && (c.split ==> c.m > 0)
      && (first && s != [] ==> c.k > 0 || c.split)
    decreases |s|
  {
    if s != [] {
      if used + Cost(bs, last, s[0]) <= budget {
        ScanProgress(bs, budget, End(bs, s[0]), used + Cost(bs, last, s[0]), false, s[1..]);
      } else if first || budget - (used + 12) > budget / 8 {
        CutSize(bs, budget, used, first);
      }
    }
  }

  // ---- the size of a piece ----

  lemma BodySplit(bs: nat, last: nat, b: Block, r: seq<Block>)
    requires bs > 0
    ensures Body(bs, last, [b] + r) == Cost(bs, last, b) + Body(bs, End(bs, b), r)
  {
    assert ([b] + r)[1..] == r;
  }

  lemma BodyOne(bs: nat, last: nat, b: Block)
    requires bs > 0
    ensures Body(bs, last, [b]) == Cost(bs, last, b)
  {
    BodySplit(bs, last, b, []);
    assert [b] + [] == [b];
  }

  lemma CostOfHead(bs: nat, last: nat, b: Block, m: nat)
    requires bs > 0 && m % bs == 0
    ensures b.backing.Fill? ==> Cost(bs, last, SplitHead(b, m)) == Cost(bs, last, b)
    ensures !b.backing.Fill? ==> Cost(bs, last, SplitHead(b, m)) == (if b.block > last then 24 else 12) + m
  {
    RoundingAgrees(m, bs);
  }

  /** The cut block alone keeps the piece within the budget plus one uncounted skip header. */
  lemma CutBlockBounds(bs: nat, budget: nat, last: nat, used: nat, first: bool, b: Block)
    requires LimitOk(bs, budget) && (first ==> used == 0) && used <= budget
    requires used + Cost(bs, last, b) > budget
    requires first || budget - (used + 12) > budget / 8
    ensures var m := AlignDown(Trunc32(budget - (used + 12)), bs);
      var h := if b.len <= m then b else SplitHead(b, m);
      budget - budget / 8 - 12 <= used + Cost(bs, last, h) <= budget + 12
  {
    CutSize(bs, budget, used, first);
    var m := AlignDown(budget - (used + 12), bs);
    AlignDownIsWhole(budget - (used + 12), bs);
    CostOfHead(bs, last, b, m);
    if b.len <= m {
      AlignWithin(b.len, m, bs);
    }
  }

  lemma AlignDownIsWhole(n: nat, d: nat)
    requires d > 0
    ensures AlignDown(n, d) % d == 0
  {
    AlignDownBounds(n, d);
    DivRoundUpOfMultiple(n / d, d);
  }

  lemma AlignWithin(n: nat, m: nat, d: nat)
    requires d > 0 && n <= m && m % d == 0
    ensures Align(n, d) <= m
  {
    DivRoundUpMono(n, m, d);
    RoundingAgrees(m, d);
    MulMono(DivRoundUp(n, d), DivRoundUp(m, d), d);
    AlignBounds(n, d);
  }

  lemma PieceCons(b: Block, r: seq<Block>, c: CutPoint)
    requires InRange(r, c)
    ensures InRange([b] + r, Later(c))
    ensures PieceOf([b] + r, Later(c)) == [b] + PieceOf(r, c)
  {
    assert ([b] + r)[..c.k + 1] == [b] + r[..c.k];
  }

  lemma RestCons(bs: nat, b: Block, r: seq<Block>, c: CutPoint)
    requires bs > 0 && InRange(r, c)
    ensures InRange([b] + r, Later(c))
    ensures RestOf(bs, [b] + r, Later(c)) == RestOf(bs, r, c)
  {
    assert ([b] + r)[c.k + 1..] == r[c.k..];
    if c.split {
      assert ([b] + r)[c.k + 2..] == r[c.k + 1..];
    }
  }

  /**
   * No piece costs more than the budget plus 12 bytes, and a piece that stopped early is at least seven
   * eighths of the budget less one chunk header.
   */
  lemma {:induction false} ScanBounds(bs: nat, budget: nat, last: nat, used: nat, first: bool, s: seq<Block>)
    requires LimitOk(bs, budget) && (first ==> used == 0) && used <= budget
    ensures var c := Scan(bs, budget, last, used, first, s);
      && InRange(s, c)
      && used + Body(bs, last, PieceOf(s, c)) <= budget + 12
      && (c.more ==> used + Body(bs, last, PieceOf(s, c)) >= budget - budget / 8 - 12)
    decreases |s|
  {
    var c := Scan(bs, budget, last, used, first, s);
    ScanInRange(bs, budget, last, used, first, s);
    if s == [] {
    } else if used + Cost(bs, last, s[0]) > budget {
      if first || budget - (used + 12) > budget / 8 {
        var m := AlignDown(Trunc32(budget - (used + 12)), bs);
        var h := if s[0].len <= m then s[0] else SplitHead(s[0], m);
        CutBlockBounds(bs, budget, last, used, first, s[0]);
        BodyOne(bs, last, h);
        assert PieceOf(s, c) == [h];
      } else {
        assert PieceOf(s, c) == [];
      }
    } else {
      var b, r := s[0], s[1..];
      var c' := Scan(bs, budget, End(bs, b), used + Cost(bs, last, b), false, r);
      ScanBounds(bs, budget, End(bs, b), used + Cost(bs, last, b), false, r);
      assert s == [b] + r;
      PieceCons(b, r, c');
      BodySplit(bs, last, b, PieceOf(r, c'));
    }
  }

  // ---- what a round keeps ----

  /** A split block's parts lie in the place of the whole one. */
  lemma SplitInList(bs: nat, from: nat, a: seq<Block>, b: Block, z: seq<Block>, m: nat)
    requires bs > 0 && Ordered(bs, from, a + [b] + z) && EndOf(bs, from, a + [b] + z) < U32
    requires 0 < m < b.len && m % bs == 0
    ensures var h, t := SplitHead(b, m), SplitTail(bs, b, m);
      && b.block + m / bs < U32 && h.len > 0 && t.len > 0
      && Ordered(bs, from, a + [h, t] + z) && EndOf(bs, from, a + [h, t] + z) == EndOf(bs, from, a + [b] + z)
  {
    var h, t := SplitHead(b, m), SplitTail(bs, b, m);
    var e := EndOf(bs, from, a);
    OrderedTriple(bs, from, a, [b], z);
    OrderedPair(bs, e, b, b);
    OrderedEndOf(bs, End(bs, b), z);
    SplitRoom(bs, b, m);
    SplitGeometry(bs, b, m);
    OrderedPair(bs, e, h, t);
    OrderedTriple(bs, from, a, [h, t], z);
  }

  lemma SplitRoom(bs: nat, b: Block, m: nat)
    requires bs > 0 && m <= b.len && m % bs == 0
    ensures b.block + m / bs <= End(bs, b)
  {
    RoundingAgrees(m, bs);
    DivRoundUpMono(m, b.len, bs);
  }

  /** A cut leaves two lists that still lie end to end in order. */
  lemma CutOrdered(bs: nat, s: seq<Block>, c: CutPoint)
    requires bs > 0 && Ordered(bs, 0, s) && EndOf(bs, 0, s) < U32
    requires InRange(s, c) && (c.split ==> c.m > 0 && c.m % bs == 0)
    ensures var p, r := PieceOf(s, c), RestOf(bs, s, c);
      && Ordered(bs, 0, p + r) && EndOf(bs, 0, p + r) == EndOf(bs, 0, s)
      && Ordered(bs, 0, p) && Ordered(bs, EndOf(bs, 0, p), r)
      && EndOf(bs, EndOf(bs, 0, p), r) == EndOf(bs, 0, s)
  {
    var p, r := PieceOf(s, c), RestOf(bs, s, c);
    CutJoins(bs, s, c);
    if c.split {
      SplitInList(bs, 0, s[..c.k], s[c.k], s[c.k + 1..], c.m);
    }
    OrderedAppend(bs, 0, p, r);
    EndOfAppend(bs, 0, p, r);
  }

  lemma SplitListDenotes(st: Store, bs: nat, a: seq<Block>, b: Block, z: seq<Block>, m: nat)
    requires bs > 0 && bs % 4 == 0 && AllBacked(st, a) && Backed(st, b) && AllBacked(st, z)
    requires m % bs == 0 && m <= b.len && b.block + m / bs < U32
    ensures var h, t := SplitHead(b, m), SplitTail(bs, b, m);
      && AllBacked(st, a + [h, t] + z)
      && Denote(st, bs, a + [h, t] + z) == Denote(st, bs, a + [b] + z)
  {
    var h, t := SplitHead(b, m), SplitTail(bs, b, m);
    SplitDenotes(st, bs, b, m);
    DenoteTriple(st, bs, a, [b], z);
    DenoteTriple(st, bs, a, [h, t], z);
    DenotePair(st, bs, h, t);
    DenoteOne(st, bs, b);
  }

  /** A cut loses nothing: the two lists together mean what the list meant. */
  lemma CutDenotes(st: Store, bs: nat, s: seq<Block>, c: CutPoint)
    requires bs > 0 && bs % 4 == 0 && Ordered(bs, 0, s) && EndOf(bs, 0, s) < U32 && AllBacked(st, s)
    requires InRange(s, c) && (c.split ==> c.m > 0 && c.m % bs == 0)
    ensures var p, r := PieceOf(s, c), RestOf(bs, s, c);
      && AllBacked(st, p) && AllBacked(st, r)
      && Denote(st, bs, p) + Denote(st, bs, r) == Denote(st, bs, s)
  {
    CutJoins(bs, s, c);
    if c.split {
      var a, b, z := s[..c.k], s[c.k], s[c.k + 1..];
      SplitInList(bs, 0, a, b, z, c.m);
      BackedParts(st, a + [b], z);
      SplitListDenotes(st, bs, a, b, z, c.m);
    }
    JoinedDenotes(st, bs, PieceOf(s, c), RestOf(bs, s, c), PieceOf(s, c) + RestOf(bs, s, c));
  }

  lemma CutJoins(bs: nat, s: seq<Block>, c: CutPoint)
    requires bs > 0 && InRange(s, c)
    ensures !c.split ==> PieceOf(s, c) + RestOf(bs, s, c) == s
    ensures c.split ==> s == s[..c.k] + [s[c.k]] + s[c.k + 1..]
    ensures c.split ==> (PieceOf(s, c) + RestOf(bs, s, c) ==
      s[..c.k] + [SplitHead(s[c.k], c.m), SplitTail(bs, s[c.k], c.m)] + s[c.k + 1..])
  {
  }

  lemma JoinedDenotes(st: Store, bs: nat, p: seq<Block>, r: seq<Block>, s: seq<Block>)
    requires s == p + r && AllBacked(st, s)
    ensures AllBacked(st, p) && AllBacked(st, r)
    ensures Denote(st, bs, p) + Denote(st, bs, r) == Denote(st, bs, s)
  {
    BackedParts(st, p, r);
    DenoteAppend(st, bs, p, r);
  }

  lemma BackedParts(st: Store, p: seq<Block>, r: seq<Block>)
    requires AllBacked(st, p + r)
    ensures AllBacked(st, p) && AllBacked(st, r)
  {
    forall i | 0 <= i < |p| ensures Backed(st, p[i]) {
      assert p[i] == (p + r)[i];
    }
    forall i | 0 <= i < |r| ensures Backed(st, r[i]) {
      assert r[i] == (p + r)[|p| + i];
    }
  }
}
