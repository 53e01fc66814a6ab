/** Whole runs of resparse: all the pieces together, and a second run over what the first one left. */
module ResparseRuns {
  import opened Wire
  import opened Arith
  import opened Blocks
  import opened Resparse

  function TotalLen(s: seq<Block>): nat {
    if s == [] then 0 else s[0].len + TotalLen(s[1..])
  }

  lemma {:induction false} TotalLenAppend(s: seq<Block>, t: seq<Block>)
    ensures TotalLen(s + t) == TotalLen(s) + TotalLen(t)
    decreases |s|
  {
    if s == [] {
      assert s + t == t;
    } else {
      TotalLenAppend(s[1..], t);
      assert (s + t)[1..] == s[1..] + t;
    }
  }

  lemma TotalLenPair(a: Block, b: Block)
    ensures TotalLen([a, b]) == a.len + b.len && TotalLen([a]) == a.len
  {
    assert [a, b][1..] == [b] && [b][1..] == [] && [a][1..] == [];
    assert TotalLen([b]) == b.len;
  }

  /** A list a round may be run on: in order, within 2^32 blocks, under a usable limit. */
  predicate Cuttable(bs: nat, budget: nat, s: seq<Block>) {
    LimitOk(bs, budget) && Ordered(bs, 0, s) && EndOf(bs, 0, s) < U32
  }

  lemma FromZero(bs: nat, from: nat, s: seq<Block>)
    requires bs > 0 && Ordered(bs, from, s)
    ensures Ordered(bs, 0, s) && EndOf(bs, 0, s) <= EndOf(bs, from, s)
  {
  }

  lemma CutTotal(bs: nat, s: seq<Block>, c: CutPoint)
    requires bs > 0 && InRange(s, c)
    ensures TotalLen(PieceOf(s, c)) + TotalLen(RestOf(bs, s, c)) == TotalLen(s)
  {
    CutJoins(bs, s, c);
    TotalLenAppend(PieceOf(s, c), RestOf(bs, s, c));
    if c.split {
      var a, b, z := s[..c.k], s[c.k], s[c.k + 1..];
      var h, t := SplitHead(b, c.m), SplitTail(bs, b, c.m);
      TotalLenPair(h, t);
      TotalLenPair(b, b);
      TotalLenAppend(a, [h, t]);
      TotalLenAppend(a + [h, t], z);
      TotalLenAppend(a, [b]);
      TotalLenAppend(a + [b], z);
    }
  }

  /** Each round strictly shrinks what the input still holds, and leaves it fit for the next round. */
  lemma RoundShrinks(bs: nat, budget: nat, s: seq<Block>)
    requires Cuttable(bs, budget, s)
    ensures var c := NextCut(bs, budget, s);
      && InRange(s, c) && (c.split ==> c.m > 0 && c.m % bs == 0)
      && Ordered(bs, 0, PieceOf(s, c)) && EndOf(bs, 0, PieceOf(s, c)) < U32
      && Cuttable(bs, budget, RestOf(bs, s, c))
      && (c.more ==> TotalLen(RestOf(bs, s, c)) < TotalLen(s))
      && (!c.more ==> PieceOf(s, c) == s && RestOf(bs, s, c) == [])
  {
    var c := NextCut(bs, budget, s);
    ScanInRange(bs, budget, 0, 0, true, s);
    ScanProgress(bs, budget, 0, 0, true, s);
    CutOrdered(bs, s, c);
    var p, r := PieceOf(s, c), RestOf(bs, s, c);
    OrderedEndOf(bs, EndOf(bs, 0, p), r);
    FromZero(bs, EndOf(bs, 0, p), r);
    if c.more {
      CutTotal(bs, s, c);
      assert s != [] && p != [];
      OrderedEndOf(bs, 0, p);
      assert p[0].len > 0;
    }
  }

  /** The pieces of a whole run: rounds until one hands no block back. */
  function CutAll(bs: nat, budget: nat, s: seq<Block>): (pieces: seq<seq<Block>>)
    requires Cuttable(bs, budget, s)
    ensures |pieces| > 0
    decreases TotalLen(s)
  {
    RoundShrinks(bs, budget, s);
    var c := NextCut(bs, budget, s);
    if c.more then [PieceOf(s, c)] + CutAll(bs, budget, RestOf(bs, s, c)) else [PieceOf(s, c)]
  }

  function Concat(pieces: seq<seq<Block>>): seq<Block> {
    if pieces == [] then [] else pieces[0] + Concat(pieces[1..])
  }

  lemma ConcatCons(p: seq<Block>, ps: seq<seq<Block>>)
    ensures Concat([p] + ps) == p + Concat(ps)
  {
    assert ([p] + ps)[1..] == ps;
  }

  lemma ConcatOne(p: seq<Block>)
    ensures Concat([p]) == p
  {
    assert [p][1..] == [];
  }

  // ---- conservation ----

  /** `t` is `s` with some blocks cut at block boundaries into two non-empty parts, again and again. */
  ghost predicate RefinesBySplits(bs: nat, s: seq<Block>, t: seq<Block>)
    requires bs > 0
    decreases TotalLen(t), |t|
  {
    s == t ||
    (s != [] && t != [] && t[0] == s[0] && RefinesBySplits(bs, s[1..], t[1..])) ||
    (s != [] && t != [] && 0 < t[0].len < s[0].len && t[0].len % bs == 0 && t[0] == SplitHead(s[0], t[0].len) &&
     RefinesBySplits(bs, [SplitTail(bs, s[0], t[0].len)] + s[1..], t[1..]))
  }

  lemma {:induction false} RefinesAfterPrefix(bs: nat, a: seq<Block>, s: seq<Block>, t: seq<Block>)
    requires bs > 0 && RefinesBySplits(bs, s, t)
    ensures RefinesBySplits(bs, a + s, a + t)
    decreases |a|
  {
    if a == [] {
      assert a + s == s && a + t == t;
    } else {
      RefinesAfterPrefix(bs, a[1..], s, t);
      assert (a + s)[1..] == a[1..] + s && (a + t)[1..] == a[1..] + t;
      assert (a + t)[0] == (a + s)[0];
    }
  }

  lemma RefinesCut(bs: nat, s: seq<Block>, c: CutPoint, r: seq<Block>)
    requires bs > 0 && InRange(s, c) && (c.split ==> c.m > 0 && c.m % bs == 0)
    requires RefinesBySplits(bs, RestOf(bs, s, c), r)
    ensures RefinesBySplits(bs, s, PieceOf(s, c) + r)
  {
    CutShapes(bs, s, c, r);
    if c.split {
      RefinesCutBlock(bs, s[..c.k], s[c.k], s[c.k + 1..], c.m, r);
    } else {
      RefinesAfterPrefix(bs, s[..c.k], s[c.k..], r);
    }
  }

  lemma CutShapes(bs: nat, s: seq<Block>, c: CutPoint, r: seq<Block>)
    requires bs > 0 && InRange(s, c)
    ensures c.split ==> s == s[..c.k] + ([s[c.k]] + s[c.k + 1..])
    ensures c.split ==> PieceOf(s, c) + r == s[..c.k] + ([SplitHead(s[c.k], c.m)] + r)
    ensures !c.split ==> s == s[..c.k] + s[c.k..] && PieceOf(s, c) + r == s[..c.k] + r
  {
  }

  lemma RefinesCutBlock(bs: nat, a: seq<Block>, b: Block, z: seq<Block>, m: nat, r: seq<Block>)
    requires bs > 0 && 0 < m < b.len && m % bs == 0
    requires RefinesBySplits(bs, [SplitTail(bs, b, m)] + z, r)
    ensures RefinesBySplits(bs, a + ([b] + z), a + ([SplitHead(b, m)] + r))
  {
    RefinesSplitHead(bs, b, z, m, r);
    RefinesAfterPrefix(bs, a, [b] + z, [SplitHead(b, m)] + r);
  }

  lemma RefinesSplitHead(bs: nat, b: Block, z: seq<Block>, m: nat, r: seq<Block>)
    requires bs > 0 && 0 < m < b.len && m % bs == 0
    requires RefinesBySplits(bs, [SplitTail(bs, b, m)] + z, r)
    ensures RefinesBySplits(bs, [b] + z, [SplitHead(b, m)] + r)
  {
    var s, t := [b] + z, [SplitHead(b, m)] + r;
    assert s[1..] == z && t[1..] == r;
    assert t[0].len == m && t[0] == SplitHead(s[0], t[0].len);
  }

  /**
   * Conservation over a whole run: the pieces end to end are the input with some blocks split, in order,
   * ending where the input ends, and each piece on its own is an ordered list.
   */
  lemma {:induction false} PiecesRefine(bs: nat, budget: nat, s: seq<Block>)
    requires Cuttable(bs, budget, s)
    ensures var ps := CutAll(bs, budget, s);
      && RefinesBySplits(bs, s, Concat(ps))
      && Ordered(bs, 0, Concat(ps)) && EndOf(bs, 0, Concat(ps)) == EndOf(bs, 0, s)
      && (forall i :: 0 <= i < |ps| ==> Ordered(bs, 0, ps[i]) && EndOf(bs, 0, ps[i]) < U32)
    decreases TotalLen(s)
  {
    RoundShrinks(bs, budget, s);
    var c := NextCut(bs, budget, s);
    var p, r := PieceOf(s, c), RestOf(bs, s, c);
    if c.more {
      var qs := CutAll(bs, budget, r);
      PiecesRefine(bs, budget, r);
      ConcatCons(p, qs);
      RefinesCut(bs, s, c, Concat(qs));
      CutOrdered(bs, s, c);
      RestFrom(bs, EndOf(bs, 0, p), r, Concat(qs));
      OrderedAppend(bs, 0, p, Concat(qs));
      EndOfAppend(bs, 0, p, Concat(qs));
    } else {
      ConcatOne(p);
    }
  }

  /** Every piece but the last holds a block. */
  lemma {:induction false} PiecesNotEmpty(bs: nat, budget: nat, s: seq<Block>, i: nat)
    requires Cuttable(bs, budget, s) && i < |CutAll(bs, budget, s)| - 1
    ensures CutAll(bs, budget, s)[i] != []
    decreases TotalLen(s)
  {
    RoundShrinks(bs, budget, s);
    var c := NextCut(bs, budget, s);
    if c.more {
      if i > 0 {
        PiecesNotEmpty(bs, budget, RestOf(bs, s, c), i - 1);
      } else {
        ScanProgress(bs, budget, 0, 0, true, s);
      }
    }
  }

  /** A last block that fits only without the skip header in front of it moves whole and leaves an empty piece. */
  lemma LastPieceCanBeEmpty()
    ensures var b := Block(1, 128, Data(Zeros(128), 0));
      Cuttable(16, 140, [b]) && CutAll(16, 140, [b]) == [[b], []]
  {
    var b := Block(1, 128, Data(Zeros(128), 0));
    assert [b][1..] == [];
    assert Align(128, 16) == 128 && AlignDown(128, 16) == 128;
    assert End(16, b) == 9 && EndOf(16, 9, []) == 9;
    assert EndOf(16, 0, [b]) == 9;
    assert NextCut(16, 140, [b]) == CutPoint(1, false, 0, true);
    assert PieceOf([b], CutPoint(1, false, 0, true)) == [b];
    assert RestOf(16, [b], CutPoint(1, false, 0, true)) == [];
    assert CutAll(16, 140, []) == [[]];
  }

  /** A refinement starts no earlier and ends no differently than the list it refines. */
  lemma RestFrom(bs: nat, from: nat, r: seq<Block>, q: seq<Block>)
    requires bs > 0 && Ordered(bs, from, r) && RefinesBySplits(bs, r, q)
    requires Ordered(bs, 0, q) && EndOf(bs, 0, q) == EndOf(bs, 0, r)
    ensures Ordered(bs, from, q) && EndOf(bs, from, q) == EndOf(bs, from, r)
  {
    OrderedEndOf(bs, 0, r);
    assert q != [] ==> r != [] && q[0].block == r[0].block;
  }

  /** The maps of the pieces, taken together. */
  ghost function DenoteAll(st: Store, bs: nat, ps: seq<seq<Block>>): map<nat, byte>
    requires forall i :: 0 <= i < |ps| ==> AllBacked(st, ps[i])
  {
    if ps == [] then map[] else Denote(st, bs, ps[0]) + DenoteAll(st, bs, ps[1..])
  }

  lemma DenoteAllCons(st: Store, bs: nat, p: seq<Block>, ps: seq<seq<Block>>)
    requires AllBacked(st, p) && forall i :: 0 <= i < |ps| ==> AllBacked(st, ps[i])
    ensures forall i :: 0 <= i < |[p] + ps| ==> AllBacked(st, ([p] + ps)[i])
    ensures DenoteAll(st, bs, [p] + ps) == Denote(st, bs, p) + DenoteAll(st, bs, ps)
  {
    assert ([p] + ps)[1..] == ps;
  }

  /** The pieces' maps add up to the map of the input. */
  lemma {:induction false} PiecesDenote(st: Store, bs: nat, budget: nat, s: seq<Block>)
    requires Cuttable(bs, budget, s) && AllBacked(st, s)
    ensures var ps := CutAll(bs, budget, s);
      && (forall i :: 0 <= i < |ps| ==> AllBacked(st, ps[i]))
      && DenoteAll(st, bs, ps) == Denote(st, bs, s)
    decreases TotalLen(s)
  {
    RoundShrinks(bs, budget, s);
    var c := NextCut(bs, budget, s);
    var p, r := PieceOf(s, c), RestOf(bs, s, c);
    CutDenotes(st, bs, s, c);
    if c.more {
      PiecesDenote(st, bs, budget, r);
      DenoteAllCons(st, bs, p, CutAll(bs, budget, r));
    } else {
      DenoteAllCons(st, bs, p, []);
      assert [p] + [] == [p];
      UnionEmpty(Denote(st, bs, p));
    }
  }

  /** No two pieces share an offset. */
  lemma {:induction false} PiecesDisjoint(st: Store, bs: nat, from: nat, ps: seq<seq<Block>>, i: nat, j: nat)
    requires bs > 0 && i < j < |ps| && Ordered(bs, from, Concat(ps))
    requires AllBacked(st, ps[i]) && AllBacked(st, ps[j])
    ensures Denote(st, bs, ps[i]).Keys !! Denote(st, bs, ps[j]).Keys
    decreases |ps|
  {
    var e := EndOf(bs, from, ps[0]);
    OrderedAppend(bs, from, ps[0], Concat(ps[1..]));
    if i > 0 {
      PiecesDisjoint(st, bs, e, ps[1..], i - 1, j - 1);
    } else {
      var f := PieceInOrder(bs, e, ps[1..], j - 1);
      OrderedDisjoint(st, bs, from, ps[0], f, ps[j]);
    }
  }

  lemma OrderedDisjoint(st: Store, bs: nat, from: nat, s: seq<Block>, f: nat, t: seq<Block>)
    requires bs > 0 && Ordered(bs, from, s) && EndOf(bs, from, s) <= f && Ordered(bs, f, t)
    requires AllBacked(st, s) && AllBacked(st, t)
    ensures Denote(st, bs, s).Keys !! Denote(st, bs, t).Keys
  {
    MulMono(EndOf(bs, from, s), f, bs);
    forall n | n in Denote(st, bs, s) && n in Denote(st, bs, t) ensures false {
      DenoteDomain(st, bs, from, s, n);
      DenoteDomain(st, bs, f, t, n);
    }
  }

  lemma {:induction false} PieceInOrder(bs: nat, from: nat, ps: seq<seq<Block>>, j: nat) returns (f: nat)
    requires bs > 0 && j < |ps| && Ordered(bs, from, Concat(ps))
    ensures f >= from && Ordered(bs, f, ps[j])
    decreases |ps|
  {
    OrderedAppend(bs, from, ps[0], Concat(ps[1..]));
    OrderedEndOf(bs, from, ps[0]);
    if j == 0 {
      f := from;
    } else {
      f := PieceInOrder(bs, EndOf(bs, from, ps[0]), ps[1..], j - 1);
    }
  }

  // ---- the second run ----

  /** What the round after `R` makes of its first block: the whole of it, or a head cut to the budget. */
  predicate StartsLike(bs: nat, budget: nat, r: seq<Block>, q: seq<Block>)
    requires bs > 0
  {
    if r == [] then q == []
    else q != [] && (q[0] == r[0] || q[0] == SplitHead(r[0], AlignDown(Trunc32(budget - 12), bs)))
  }

  lemma HeadCost(bs: nat, budget: nat, last: nat, b: Block, h: Block)
    requires LimitOk(bs, budget) && b.len > 0
    requires h == b || h == SplitHead(b, AlignDown(Trunc32(budget - 12), bs))
    ensures h.block == b.block
    ensures b.backing.Fill? ==> Cost(bs, last, h) == Cost(bs, last, b)
    ensures !b.backing.Fill? ==>
      Cost(bs, last, h) == Cost(bs, last, b) || Cost(bs, last, h) > budget - bs
    ensures !b.backing.Fill? ==> Cost(bs, last, h) >= 12 + bs
  {
    CutSize(bs, budget, 0, true);
    var m := AlignDown(budget - 12, bs);
    AlignDownIsWhole(budget - 12, bs);
    CostOfHead(bs, last, b, m);
    AlignBounds(b.len, bs);
    AlignBounds(m, bs);
    MulMono(1, DivRoundUp(b.len, bs), bs);
    MulMono(1, DivRoundUp(m, bs), bs);
  }

  /** Where the first run stopped in front of a block, the second run stops in front of what is left of it. */
  lemma StopsBefore(bs: nat, budget: nat, last: nat, used: nat, r: seq<Block>, q: seq<Block>)
    requires LimitOk(bs, budget) && r != [] && r[0].len > 0 && StartsLike(bs, budget, r, q)
    requires used + Cost(bs, last, r[0]) > budget && budget - (used + 12) <= budget / 8
    ensures Scan(bs, budget, last, used, false, q) == CutPoint(0, false, 0, true)
  {
    HeadCost(bs, budget, last, r[0], q[0]);
  }

  /** Where the first run cut a block, the second run takes the head whole and stops there. */
  lemma StopsAtCut(bs: nat, budget: nat, last: nat, used: nat, first: bool, b: Block, t: Block, q: seq<Block>)
    requires LimitOk(bs, budget) && (first ==> used == 0) && used <= budget
    requires used + Cost(bs, last, b) > budget && (first || budget - (used + 12) > budget / 8)
    requires var m := AlignDown(Trunc32(budget - (used + 12)), bs);
      m < b.len && t.block == End(bs, SplitHead(b, m)) && t.len > 0 && t.backing.Fill? == b.backing.Fill? &&
      StartsLike(bs, budget, [t], q)
    ensures var h := SplitHead(b, AlignDown(Trunc32(budget - (used + 12)), bs));
      Scan(bs, budget, last, used, first, [h] + q) == CutPoint(1, false, 0, true)
  {
    CutSize(bs, budget, used, first);
    var m := AlignDown(budget - (used + 12), bs);
    var h := SplitHead(b, m);
    AlignDownIsWhole(budget - (used + 12), bs);
    CostOfHead(bs, last, b, m);
    assert ([h] + q)[1..] == q && ([h] + q)[0] == h;
    if used + Cost(bs, last, h) <= budget {
      HeadCost(bs, budget, End(bs, h), t, q[0]);
      assert Scan(bs, budget, End(bs, h), used + Cost(bs, last, h), false, q) == CutPoint(0, false, 0, true);
    }
  }

  /**
   * A second round over the first round's piece, followed by anything that starts like what the later
   * rounds made of the rest, takes exactly that piece and splits nothing.
   */
  lemma {:induction false} Rescan(bs: nat, budget: nat, last: nat, used: nat, first: bool, s: seq<Block>, q: seq<Block>)
    requires LimitOk(bs, budget) && (first ==> used == 0) && used <= budget
    requires Ordered(bs, last, s) && EndOf(bs, last, s) < U32
    requires var c := Scan(bs, budget, last, used, first, s);
      InRange(s, c) && StartsLike(bs, budget, RestOf(bs, s, c), q)
    ensures var c := Scan(bs, budget, last, used, first, s);
      var p := PieceOf(s, c);
      Scan(bs, budget, last, used, first, p + q) == CutPoint(|p|, false, 0, c.more)
    decreases |s|
  {
    var c := Scan(bs, budget, last, used, first, s);
    var p := PieceOf(s, c);
    ScanInRange(bs, budget, last, used, first, s);
    if s == [] {
      assert p + q == [];
    } else if used + Cost(bs, last, s[0]) <= budget {
      var b, r := s[0], s[1..];
      assert s == [b] + r;
      RescanCons(bs, budget, last, used, first, b, r);
      Rescan(bs, budget, End(bs, b), used + Cost(bs, last, b), false, r, q);
      RescanTake(bs, budget, last, used, first, b, r, q);
    } else if c.split {
      RescanSplit(bs, budget, last, used, first, s, q);
    } else {
      RescanStop(bs, budget, last, used, first, s, q);
    }
  }

  lemma RescanStop(bs: nat, budget: nat, last: nat, used: nat, first: bool, s: seq<Block>, q: seq<Block>)
    requires LimitOk(bs, budget) && (first ==> used == 0) && s != [] && s[0].len > 0
    requires used + Cost(bs, last, s[0]) > budget
    requires var c := Scan(bs, budget, last, used, first, s);
      InRange(s, c) && !c.split && StartsLike(bs, budget, RestOf(bs, s, c), q)
    ensures var c := Scan(bs, budget, last, used, first, s);
      Scan(bs, budget, last, used, first, PieceOf(s, c) + q) == CutPoint(c.k, false, 0, true)
  {
    var c := Scan(bs, budget, last, used, first, s);
    if c.k == 1 {
      assert (PieceOf(s, c) + q)[0] == s[0];
    } else {
      assert PieceOf(s, c) + q == q;
      StopsBefore(bs, budget, last, used, s, q);
    }
  }

  lemma RescanCons(bs: nat, budget: nat, last: nat, used: nat, first: bool, b: Block, r: seq<Block>)
    requires bs > 0 && used + Cost(bs, last, b) <= budget
    ensures var c := Scan(bs, budget, last, used, first, [b] + r);
      var c' := Scan(bs, budget, End(bs, b), used + Cost(bs, last, b), false, r);
      && c == Later(c') && InRange(r, c') && InRange([b] + r, c)
      && PieceOf([b] + r, c) == [b] + PieceOf(r, c') && PieceOf([b] + r, c)[1..] == PieceOf(r, c')
      && RestOf(bs, [b] + r, c) == RestOf(bs, r, c')
  {
    var c' := Scan(bs, budget, End(bs, b), used + Cost(bs, last, b), false, r);
    ScanInRange(bs, budget, End(bs, b), used + Cost(bs, last, b), false, r);
    assert ([b] + r)[1..] == r;
    PieceCons(b, r, c');
    RestCons(bs, b, r, c');
  }

  lemma RescanTake(bs: nat, budget: nat, last: nat, used: nat, first: bool, b: Block, r: seq<Block>, q: seq<Block>)
    requires bs > 0 && used + Cost(bs, last, b) <= budget
    requires var c' := Scan(bs, budget, End(bs, b), used + Cost(bs, last, b), false, r);
      InRange(r, c') &&
      Scan(bs, budget, End(bs, b), used + Cost(bs, last, b), false, PieceOf(r, c') + q)
        == CutPoint(|PieceOf(r, c')|, false, 0, c'.more)
    ensures var c := Scan(bs, budget, last, used, first, [b] + r);
      InRange([b] + r, c) &&
      Scan(bs, budget, last, used, first, PieceOf([b] + r, c) + q)
        == CutPoint(|PieceOf([b] + r, c)|, false, 0, c.more)
  {
    RescanCons(bs, budget, last, used, first, b, r);
    var c' := Scan(bs, budget, End(bs, b), used + Cost(bs, last, b), false, r);
    var t := PieceOf(r, c') + q;
    assert ([b] + t)[1..] == t;
    assert [b] + PieceOf(r, c') + q == [b] + t;
  }

  lemma RescanSplit(bs: nat, budget: nat, last: nat, used: nat, first: bool, s: seq<Block>, q: seq<Block>)
    requires LimitOk(bs, budget) && (first ==> used == 0) && used <= budget
    requires s != [] && Ordered(bs, last, s) && EndOf(bs, last, s) < U32
    requires used + Cost(bs, last, s[0]) > budget
    requires var c := Scan(bs, budget, last, used, first, s);
      InRange(s, c) && c.split && StartsLike(bs, budget, RestOf(bs, s, c), q)
    ensures var c := Scan(bs, budget, last, used, first, s);
      Scan(bs, budget, last, used, first, PieceOf(s, c) + q) == CutPoint(1, false, 0, true)
  {
    var c := Scan(bs, budget, last, used, first, s);
    var b := s[0];
    var t := SplitTail(bs, b, c.m);
    ScanInRange(bs, budget, last, used, first, s);
    OrderedEndOf(bs, End(bs, b), s[1..]);
    SplitRoom(bs, b, c.m);
    SplitGeometry(bs, b, c.m);
    assert RestOf(bs, s, c)[0] == t;
    StopsAtCut(bs, budget, last, used, first, b, t, q);
    assert PieceOf(s, c) == [SplitHead(b, c.m)];
  }

  lemma FirstOfPieces(bs: nat, budget: nat, r: seq<Block>)
    requires Cuttable(bs, budget, r)
    ensures StartsLike(bs, budget, r, Concat(CutAll(bs, budget, r)))
  {
    var c := NextCut(bs, budget, r);
    RoundShrinks(bs, budget, r);
    ScanProgress(bs, budget, 0, 0, true, r);
    var p := PieceOf(r, c);
    if c.more {
      ConcatCons(p, CutAll(bs, budget, RestOf(bs, r, c)));
    } else {
      ConcatOne(p);
    }
    if r != [] {
      assert Concat(CutAll(bs, budget, r))[0] == p[0];
    }
  }

  /**
   * Two-pass agreement: running the same cut again over everything the first run produced gives the very
   * same pieces, so a counting run predicts the run that fills the array.
   */
  lemma {:induction false} SecondRunAgrees(bs: nat, budget: nat, s: seq<Block>)
    requires Cuttable(bs, budget, s)
    ensures var ps := CutAll(bs, budget, s);
      Cuttable(bs, budget, Concat(ps)) && CutAll(bs, budget, Concat(ps)) == ps
    decreases TotalLen(s)
  {
    RoundShrinks(bs, budget, s);
    var ps := CutAll(bs, budget, s);
    PiecesRefine(bs, budget, s);
    var c := NextCut(bs, budget, s);
    var p, r := PieceOf(s, c), RestOf(bs, s, c);
    var q := if c.more then Concat(CutAll(bs, budget, r)) else [];
    if c.more {
      FirstOfPieces(bs, budget, r);
      ConcatCons(p, CutAll(bs, budget, r));
      SecondRunAgrees(bs, budget, r);
    } else {
      ConcatOne(p);
      assert p == p + q;
    }
    assert Concat(ps) == p + q;
    Rescan(bs, budget, 0, 0, true, s, q);
    var c2 := NextCut(bs, budget, p + q);
    assert c2 == CutPoint(|p|, false, 0, c.more);
    assert PieceOf(p + q, c2) == p && RestOf(bs, p + q, c2) == q;
  }
}
