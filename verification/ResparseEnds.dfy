/** Which limits a resparse ends under, and which ones make it cut off empty blocks. */
module ResparseEnds {
  import opened Wire
  import opened Arith
  import opened Blocks
  import opened Resparse
  import opened ResparseRuns

  predicate Positive(s: seq<Block>) {
    forall i :: 0 <= i < |s| ==> s[i].len > 0 && s[i].block < U32
  }

  /** At most `n` rounds hand a block back before one hands back none. */
  predicate EndsIn(bs: nat, budget: nat, s: seq<Block>, n: nat)
    requires bs > 0
    decreases n
  {
    CutInRange(bs, budget, s);
    var c := NextCut(bs, budget, s);
    !c.more || (n > 0 && EndsIn(bs, budget, RestOf(bs, s, c), n - 1))
  }

  /** The loop of `sparse_file_resparse` ends. */
  ghost predicate Ends(bs: nat, budget: nat, s: seq<Block>)
    requires bs > 0
  {
    exists n: nat :: EndsIn(bs, budget, s, n)
  }

  lemma CutInRange(bs: nat, budget: nat, s: seq<Block>)
    requires bs > 0
    ensures InRange(s, NextCut(bs, budget, s))
  {
    ScanInRange(bs, budget, 0, 0, true, s);
  }

  lemma {:induction false} EndsLonger(bs: nat, budget: nat, s: seq<Block>, n: nat, m: nat)
    requires bs > 0 && n <= m && EndsIn(bs, budget, s, n)
    ensures EndsIn(bs, budget, s, m)
    decreases n
  {
    hide NextCut, RestOf;
    CutInRange(bs, budget, s);
    var c := NextCut(bs, budget, s);
    if c.more {
      EndsLonger(bs, budget, RestOf(bs, s, c), n - 1, m - 1);
    }
  }

  // ---- one round ----

  /**
   * For any limit at all, a round that hands a block back leaves its input exactly as it was if and only
   * if the first block alone is over the budget and less than a block of the budget is left for it.
   */
  lemma StuckExactly(bs: nat, budget: nat, s: seq<Block>)
    requires bs > 0 && Positive(s)
    ensures var c := NextCut(bs, budget, s);
      && InRange(s, c)
      && ((c.more && RestOf(bs, s, c) == s) <==> (s != [] && Cost(bs, 0, s[0]) > budget && Trunc32(budget - 12) < bs))
  {
    hide Cost;
    var c := NextCut(bs, budget, s);
    ScanInRange(bs, budget, 0, 0, true, s);
    if s != [] {
      if Cost(bs, 0, s[0]) > budget {
        StuckFirst(bs, budget, s);
      } else {
        TakesFirst(bs, budget, s);
        RestShrinks(bs, s, c);
      }
    }
  }

  lemma TakesFirst(bs: nat, budget: nat, s: seq<Block>)
    requires bs > 0 && s != [] && Cost(bs, 0, s[0]) <= budget
    ensures NextCut(bs, budget, s).k > 0
  {
  }

  lemma RestShrinks(bs: nat, s: seq<Block>, c: CutPoint)
    requires bs > 0 && InRange(s, c) && c.k > 0
    ensures |RestOf(bs, s, c)| < |s|
  {
  }

  lemma StuckFirst(bs: nat, budget: nat, s: seq<Block>)
    requires bs > 0 && s != [] && s[0].block < U32 && s[0].len > 0 && Cost(bs, 0, s[0]) > budget
    ensures var c := NextCut(bs, budget, s);
      && InRange(s, c) && c.more && (c.k > 0 || (c.split && c.m == AlignDown(Trunc32(budget - 12), bs)))
      && (RestOf(bs, s, c) == s <==> Trunc32(budget - 12) < bs)
  {
    var n := Trunc32(budget - 12);
    var m := AlignDown(n, bs);
    var c := NextCut(bs, budget, s);
    AlignDownBounds(n, bs);
    if n >= bs {
      assert m > 0;
      if c.split {
        assert RestOf(bs, s, c)[0].len == s[0].len - m;
      } else {
        assert |RestOf(bs, s, c)| < |s|;
      }
    } else {
      NothingWhole(n, bs);
      NothingOff(bs, s[0]);
      assert RestOf(bs, s, c) == [s[0]] + s[1..];
    }
  }

  lemma NothingWhole(n: nat, bs: nat)
    requires bs > 0 && n < bs
    ensures AlignDown(n, bs) == 0
  {
    QuotientUnique(n, bs, 0);
    AlignDownBounds(n, bs);
  }

  lemma NothingOff(bs: nat, b: Block)
    requires bs > 0 && b.block < U32
    ensures SplitTail(bs, b, 0) == b
  {
    QuotientUnique(0, bs, 0);
  }

  // ---- limits that leave room for a block ----

  /** With room for a block, a round that hands a block back leaves less than it was given. */
  lemma RoundMoves(bs: nat, budget: nat, s: seq<Block>)
    requires bs > 0 && Positive(s) && Trunc32(budget - 12) >= bs
    ensures var c := NextCut(bs, budget, s);
      && InRange(s, c)
      && (c.more ==> TotalLen(RestOf(bs, s, c)) < TotalLen(s) && Positive(RestOf(bs, s, c)))
  {
    hide Cost, NextCut, RestOf, PieceOf, TotalLen;
    var c := NextCut(bs, budget, s);
    CutInRange(bs, budget, s);
    if c.more {
      FirstTaken(bs, budget, s);
      CutTotal(bs, s, c);
      PieceNotEmpty(s, c);
      RestPositive(bs, s, c);
    }
  }

  lemma FirstTaken(bs: nat, budget: nat, s: seq<Block>)
    requires bs > 0 && Positive(s) && Trunc32(budget - 12) >= bs && NextCut(bs, budget, s).more
    ensures var c := NextCut(bs, budget, s); s != [] && (c.k > 0 || (c.split && c.m > 0))
  {
    hide Cost;
    AlignDownBounds(Trunc32(budget - 12), bs);
    if Cost(bs, 0, s[0]) > budget {
      StuckFirst(bs, budget, s);
    } else {
      TakesFirst(bs, budget, s);
    }
  }

  lemma PieceNotEmpty(s: seq<Block>, c: CutPoint)
    requires Positive(s) && InRange(s, c) && (c.k > 0 || (c.split && c.m > 0))
    ensures TotalLen(PieceOf(s, c)) > 0
  {
    assert PieceOf(s, c)[0].len > 0;
  }

  lemma RestPositive(bs: nat, s: seq<Block>, c: CutPoint)
    requires bs > 0 && Positive(s) && InRange(s, c)
    ensures Positive(RestOf(bs, s, c))
  {
  }

  lemma {:induction false} RoomEnds(bs: nat, budget: nat, s: seq<Block>)
    requires bs > 0 && Positive(s) && Trunc32(budget - 12) >= bs
    ensures EndsIn(bs, budget, s, TotalLen(s))
    decreases TotalLen(s)
  {
    hide NextCut, RestOf;
    RoundMoves(bs, budget, s);
    var c := NextCut(bs, budget, s);
    if c.more {
      var r := RestOf(bs, s, c);
      RoomEnds(bs, budget, r);
      EndsLonger(bs, budget, r, TotalLen(r), TotalLen(s) - 1);
    }
  }

  // ---- limits that leave less ----

  /** No raw block ever fits, and a fill takes at least 16 bytes. */
  lemma OnlyFillsFit(bs: nat, budget: nat, last: nat, used: nat, b: Block)
    requires bs > 0 && b.len > 0 && budget < U32 && Trunc32(budget - 12) < bs && used + Cost(bs, last, b) <= budget
    ensures b.backing.Fill? && Cost(bs, last, b) == (if b.block > last then 28 else 16)
  {
    if !b.backing.Fill? {
      AlignBounds(b.len, bs);
      MulMono(1, DivRoundUp(b.len, bs), bs);
    }
  }

  /** Without room for a block a round takes whole fills alone, as many as fit, and cuts nothing off. */
  lemma {:induction false} ScanOfFills(bs: nat, budget: nat, last: nat, used: nat, first: bool, s: seq<Block>)
    requires bs > 0 && budget < U32 && Trunc32(budget - 12) < bs && Positive(s) && (first ==> used == 0)
    ensures var c := Scan(bs, budget, last, used, first, s);
      && InRange(s, c) && (c.split ==> c.m == 0) && (c.more <==> c.k < |s|)
      && (forall i :: 0 <= i < c.k ==> s[i].backing.Fill?)
      && (c.k > 0 <==> s != [] && used + Cost(bs, last, s[0]) <= budget)
      && (c.k > 0 ==> used + 16 * c.k <= budget)
    decreases |s|
  {
    hide Cost, AlignDown;
    if s != [] {
      if used + Cost(bs, last, s[0]) <= budget {
        OnlyFillsFit(bs, budget, last, used, s[0]);
        ScanOfFills(bs, budget, End(bs, s[0]), used + Cost(bs, last, s[0]), false, s[1..]);
      } else if first || budget - (used + 12) > budget / 8 {
        NothingWhole(Trunc32(budget - (used + 12)), bs);
      }
    }
  }

  lemma WholeRest(bs: nat, s: seq<Block>, c: CutPoint)
    requires bs > 0 && InRange(s, c) && Positive(s) && (c.split ==> c.m == 0)
    ensures RestOf(bs, s, c) == s[c.k..]
  {
    if c.split {
      NothingOff(bs, s[c.k]);
    }
  }

  predicate OnlyFills(s: seq<Block>) {
    forall i :: 0 <= i < |s| ==> s[i].backing.Fill?
  }

  /** Fills that are taken although there is no room for a block. */
  predicate FillsWork(budget: nat, s: seq<Block>) {
    s == [] || (OnlyFills(s) && (budget >= 28 || (budget >= 16 && |s| == 1 && s[0].block == 0)))
  }

  lemma FillCost(bs: nat, budget: nat, b: Block)
    requires bs > 0 && b.backing.Fill?
    ensures Cost(bs, 0, b) <= budget <==> budget >= 28 || (budget >= 16 && b.block == 0)
  {
  }

  lemma {:induction false} FillsEnd(bs: nat, budget: nat, s: seq<Block>)
    requires bs > 0 && budget < U32 && Trunc32(budget - 12) < bs && Positive(s) && FillsWork(budget, s)
    ensures EndsIn(bs, budget, s, |s|)
    decreases |s|
  {
    hide Cost, Scan;
    ScanOfFills(bs, budget, 0, 0, true, s);
    var c := NextCut(bs, budget, s);
    if c.more {
      FillCost(bs, budget, s[0]);
      WholeRest(bs, s, c);
      FillsEnd(bs, budget, s[c.k..]);
      EndsLonger(bs, budget, s[c.k..], |s| - c.k, |s| - 1);
    }
  }

  /** Behind the first block of an ordered list no block starts at zero. */
  lemma {:induction false} LaterStarts(bs: nat, from: nat, s: seq<Block>, k: nat)
    requires bs > 0 && Ordered(bs, from, s) && 0 < k < |s|
    ensures s[k].block > 0
    decreases |s|
  {
    EndBehind(bs, s[0]);
    if k > 1 {
      LaterStarts(bs, End(bs, s[0]), s[1..], k - 1);
    }
  }

  lemma EndBehind(bs: nat, b: Block)
    requires bs > 0 && b.len > 0
    ensures End(bs, b) > 0
  {
    AlignBounds(b.len, bs);
  }

  lemma SuffixOrdered(bs: nat, s: seq<Block>, k: nat)
    requires bs > 0 && Ordered(bs, 0, s) && k <= |s|
    ensures Ordered(bs, 0, s[k..])
  {
    assert s == s[..k] + s[k..];
    OrderedAppend(bs, 0, s[..k], s[k..]);
    FromZero(bs, EndOf(bs, 0, s[..k]), s[k..]);
  }

  /** One round in front of a list that works: only fills were taken, and behind them 28 bytes are needed. */
  lemma WorksBefore(bs: nat, budget: nat, s: seq<Block>, k: nat)
    requires bs > 0 && Ordered(bs, 0, s) && k < |s| && FillsWork(budget, s[k..]) && OnlyFills(s[..k])
    ensures FillsWork(budget, s)
  {
    assert s == s[..k] + s[k..];
    assert s[k..][0] == s[k];
    if k > 0 {
      LaterStarts(bs, 0, s, k);
    }
  }

  lemma {:induction false} EndingWorks(bs: nat, budget: nat, s: seq<Block>, n: nat)
    requires bs > 0 && budget < U32 && Trunc32(budget - 12) < bs && Positive(s) && Ordered(bs, 0, s)
    requires EndsIn(bs, budget, s, n)
    ensures FillsWork(budget, s)
    decreases n
  {
    hide Cost, Scan, Ordered;
    ScanOfFills(bs, budget, 0, 0, true, s);
    var c := NextCut(bs, budget, s);
    if c.more {
      WholeRest(bs, s, c);
      SuffixOrdered(bs, s, c.k);
      EndingWorks(bs, budget, s[c.k..], n - 1);
      WorksBefore(bs, budget, s, c.k);
    } else if s != [] {
      FillCost(bs, budget, s[0]);
    }
  }

  // ---- whole runs ----

  lemma {:induction false} OrderedPositive(bs: nat, from: nat, s: seq<Block>)
    requires bs > 0 && Ordered(bs, from, s) && EndOf(bs, from, s) < U32
    ensures Positive(s)
    decreases |s|
  {
    if s != [] {
      OrderedEndOf(bs, from, s);
      OrderedPositive(bs, End(bs, s[0]), s[1..]);
      assert s == [s[0]] + s[1..];
    }
  }

  /**
   * For any limit and any list, the rounds end if and only if the budget leaves room for a block behind
   * a chunk header, or every block is a fill and the largest one's 28 bytes fit, or the list is one fill
   * at the start and its 16 bytes fit, or there is nothing to cut.
   */
  lemma EndsExactly(bs: nat, budget: nat, s: seq<Block>)
    requires bs > 0 && budget < U32 && Ordered(bs, 0, s) && EndOf(bs, 0, s) < U32
    ensures Ends(bs, budget, s) <==> Trunc32(budget - 12) >= bs || FillsWork(budget, s)
  {
    hide EndsIn, FillsWork, Trunc32;
    OrderedPositive(bs, 0, s);
    if Trunc32(budget - 12) >= bs {
      RoomEnds(bs, budget, s);
    } else if FillsWork(budget, s) {
      FillsEnd(bs, budget, s);
    } else if Ends(bs, budget, s) {
      var n: nat :| EndsIn(bs, budget, s, n);
      EndingWorks(bs, budget, s, n);
    }
  }

  /** A run that ends under a usable limit takes a round for every piece. */
  lemma {:induction false} EndsWithPieces(bs: nat, budget: nat, s: seq<Block>)
    requires Cuttable(bs, budget, s)
    ensures EndsIn(bs, budget, s, |CutAll(bs, budget, s)| - 1)
    ensures forall n: nat :: EndsIn(bs, budget, s, n) ==> n >= |CutAll(bs, budget, s)| - 1
    decreases TotalLen(s)
  {
    hide NextCut, RestOf;
    RoundShrinks(bs, budget, s);
    var c := NextCut(bs, budget, s);
    if c.more {
      EndsWithPieces(bs, budget, RestOf(bs, s, c));
    }
  }

  /** With a limit of one block, a single raw block is never taken. */
  lemma OneBlockNeverEnds()
    ensures !Ends(4096, Budget(4096), [Block(0, 4096, Data(Zeros(4096), 0))])
  {
    hide Ends, Zeros;
    var b := Block(0, 4096, Data(Zeros(4096), 0));
    assert [b][1..] == [];
    assert EndOf(4096, 1, []) == 1;
    assert End(4096, b) == 1;
    EndsExactly(4096, Budget(4096), [b]);
    assert !OnlyFills([b]) by { assert [b][0] == b; }
  }

  // ---- blocks of no bytes ----

  /** Block `k` is the first that does not fit, and more than an eighth but less than a block is left for it. */
  predicate CutsNothing(bs: nat, budget: nat, last: nat, used: nat, s: seq<Block>, k: nat)
    requires bs > 0
  {
    && k < |s| && used + Body(bs, last, s[..k]) <= budget < used + Body(bs, last, s[..k + 1])
    && budget / 8 < budget - (used + Body(bs, last, s[..k]) + 12) < bs
  }

  lemma BodyCons(bs: nat, last: nat, s: seq<Block>, k: nat)
    requires bs > 0 && s != [] && 0 < k <= |s|
    ensures Body(bs, last, s[..k]) == Cost(bs, last, s[0]) + Body(bs, End(bs, s[0]), s[1..][..k - 1])
  {
    assert s[..k][0] == s[0] && s[..k][1..] == s[1..][..k - 1];
  }

  lemma {:induction false} EmptyHeadBehind(bs: nat, budget: nat, last: nat, used: nat, s: seq<Block>, k: nat)
    requires bs > 0 && budget < U32 && Positive(s) && used <= budget
    ensures var c := Scan(bs, budget, last, used, false, s);
      c.split && c.m == 0 && c.k == k <==> CutsNothing(bs, budget, last, used, s, k)
    decreases |s|
  {
    hide Cost, AlignDown;
    if s != [] {
      BodyCons(bs, last, s, 1);
      assert s[1..][..0] == [] && s[..0] == [];
      if used + Cost(bs, last, s[0]) <= budget {
        if k > 0 {
          EmptyHeadBehind(bs, budget, End(bs, s[0]), used + Cost(bs, last, s[0]), s[1..], k - 1);
          if k < |s| {
            BodyCons(bs, last, s, k);
            BodyCons(bs, last, s, k + 1);
          }
        }
      } else {
        WholeOrNot(budget - (used + 12), bs);
        if 0 < k < |s| {
          BodyCons(bs, last, s, k);
        }
      }
    }
  }

  lemma WholeOrNot(n: int, bs: nat)
    requires bs > 0 && n < U32
    ensures n >= 0 ==> (AlignDown(Trunc32(n), bs) == 0 <==> n < bs)
  {
    if n >= 0 {
      AlignDownBounds(n, bs);
      if n < bs {
        NothingWhole(n, bs);
      }
    }
  }

  /**
   * A round that has already taken a block cuts a head of no bytes off block `k` if and only if that is
   * the first block over the budget and what is left behind its chunk header is more than an eighth of
   * the budget and less than a block; so it never does when a block is at most an eighth of the budget
   * and a byte.
   */
  lemma EmptyHeadExactly(bs: nat, budget: nat, s: seq<Block>, k: nat)
    requires bs > 0 && budget < U32 && Positive(s) && k > 0
    ensures var c := NextCut(bs, budget, s);
      c.split && c.m == 0 && c.k == k <==> CutsNothing(bs, budget, 0, 0, s, k)
    ensures bs <= budget / 8 + 1 ==> !CutsNothing(bs, budget, 0, 0, s, k)
  {
    hide Cost, AlignDown, Body;
    if s != [] {
      BodyCons(bs, 0, s, 1);
      NothingInFront(bs, End(bs, s[0]), s);
      if Cost(bs, 0, s[0]) <= budget {
        EmptyHeadBehind(bs, budget, End(bs, s[0]), Cost(bs, 0, s[0]), s[1..], k - 1);
      }
      if k < |s| {
        BodyCons(bs, 0, s, k);
        BodyCons(bs, 0, s, k + 1);
      }
    }
  }

  lemma NothingInFront(bs: nat, last: nat, s: seq<Block>)
    requires bs > 0 && s != []
    ensures Body(bs, last, s[1..][..0]) == 0
  {
  }

  /** Under a limit that every run ends under, two fills and a raw block leave 56 bytes of 100, less than a block of 64. */
  lemma EmptyHead()
    ensures var s := [Block(0, 64, Fill(1)), Block(1, 64, Fill(2)), Block(2, 128, Data(Zeros(128), 0))];
      && Ordered(64, 0, s) && EndOf(64, 0, s) < U32 && Ends(64, Budget(156), s)
      && InRange(s, NextCut(64, Budget(156), s))
      && PieceOf(s, NextCut(64, Budget(156), s)) == s[..2] + [SplitHead(s[2], 0)]
  {
    hide Ends, Zeros;
    var s := [Block(0, 64, Fill(1)), Block(1, 64, Fill(2)), Block(2, 128, Data(Zeros(128), 0))];
    assert s[1..] == [s[1], s[2]] && s[1..][1..] == [s[2]] && s[1..][1..][1..] == [];
    assert End(64, s[0]) == 1 && End(64, s[1]) == 2 && End(64, s[2]) == 4;
    assert Ordered(64, 4, []) && EndOf(64, 4, []) == 4;
    assert Ordered(64, 2, [s[2]]) && EndOf(64, 2, [s[2]]) == 4;
    assert Ordered(64, 1, [s[1], s[2]]) && EndOf(64, 1, [s[1], s[2]]) == 4;
    EndsExactly(64, 100, s);
    assert Align(128, 64) == 128 && AlignDown(56, 64) == 0;
    assert Scan(64, 100, 2, 32, false, [s[2]]) == CutPoint(0, true, 0, true);
    assert Scan(64, 100, 1, 16, false, [s[1], s[2]]) == CutPoint(1, true, 0, true);
    assert NextCut(64, 100, s) == CutPoint(2, true, 0, true);
  }
}
