/** What `queue_bb` does to the list of blocks, and why sorted insertion with merging keeps its meaning. */
module Insertion {
  import opened Wire
  import opened Arith
  import opened Blocks

  /** Strictly ascending start blocks: what every `queue_bb` call relies on and keeps. */
  predicate Sorted(s: seq<Block>) {
    forall i, j :: 0 <= i < j < |s| ==> s[i].block < s[j].block
  }

  predicate HasStart(s: seq<Block>, block: nat) {
    exists i :: 0 <= i < |s| && s[i].block == block
  }

  /** How many leading blocks start before `block`. */
  function Position(s: seq<Block>, block: nat): (k: nat)
    ensures k <= |s|
    ensures forall i :: 0 <= i < k ==> s[i].block < block
    ensures k < |s| ==> s[k].block >= block
  {
    if s == [] || s[0].block >= block then 0 else 1 + Position(s[1..], block)
  }

  /** One call of `merge_bb` on the blocks at `i` and `i + 1`. */
  function MergeAt(bs: nat, s: seq<Block>, i: nat): seq<Block>
    requires bs > 0
  {
    if i + 1 < |s| && Joinable(bs, s[i], s[i + 1])
    then s[..i] + [Join(s[i], s[i + 1])] + s[i + 2..]
    else s
  }

  lemma MergeAtStarts(bs: nat, s: seq<Block>, i: nat)
    requires bs > 0 && i < |s|
    ensures |MergeAt(bs, s, i)| > i
    ensures forall j :: 0 <= j <= i ==> MergeAt(bs, s, i)[j].block == s[j].block
  {
  }

  /** The list after `queue_bb` has put `b` into it; a new head is never merged. */
  function Insert(bs: nat, s: seq<Block>, b: Block): seq<Block>
    requires bs > 0
  {
    var k := Position(s, b.block);
    if k == 0 then [b] + s
    else MergeAt(bs, MergeAt(bs, s[..k] + [b] + s[k..], k), k - 1)
  }

  /** Block `b` shares no block number with any block of `s`. */
  predicate Fits(bs: nat, s: seq<Block>, b: Block)
    requires bs > 0
  {
    forall i :: 0 <= i < |s| ==> End(bs, b) <= s[i].block || End(bs, s[i]) <= b.block
  }

  lemma OrderedIsSorted(bs: nat, from: nat, s: seq<Block>)
    requires bs > 0 && Ordered(bs, from, s)
    ensures Sorted(s)
  {
    forall i, j | 0 <= i < j < |s| ensures s[i].block < s[j].block {
      OrderedPairs(bs, from, s, i, j);
    }
  }

  lemma OrderedTriple(bs: nat, from: nat, p: seq<Block>, m: seq<Block>, t: seq<Block>)
    requires bs > 0
    ensures Ordered(bs, from, p + m + t) <==>
      && Ordered(bs, from, p)
      && Ordered(bs, EndOf(bs, from, p), m)
      && Ordered(bs, EndOf(bs, EndOf(bs, from, p), m), t)
    ensures EndOf(bs, from, p + m + t) == EndOf(bs, EndOf(bs, EndOf(bs, from, p), m), t)
  {
    OrderedAppend(bs, from, p + m, t);
    OrderedAppend(bs, from, p, m);
    EndOfAppend(bs, from, p, m);
    EndOfAppend(bs, from, p + m, t);
  }

  lemma DenoteTriple(st: Store, bs: nat, p: seq<Block>, m: seq<Block>, t: seq<Block>)
    requires AllBacked(st, p) && AllBacked(st, m) && AllBacked(st, t)
    ensures AllBacked(st, p + m + t)
    ensures Denote(st, bs, p + m + t) == Denote(st, bs, p) + Denote(st, bs, m) + Denote(st, bs, t)
  {
    DenoteAppend(st, bs, p, m);
    DenoteAppend(st, bs, p + m, t);
  }

  lemma OrderedPair(bs: nat, from: nat, a: Block, b: Block)
    requires bs > 0
    ensures Ordered(bs, from, [a, b]) <==>
      from <= a.block && a.len > 0 && End(bs, a) <= b.block && b.len > 0
    ensures EndOf(bs, from, [a, b]) == End(bs, b)
    ensures Ordered(bs, from, [a]) <==> from <= a.block && a.len > 0
    ensures EndOf(bs, from, [a]) == End(bs, a)
  {
    assert [a, b][1..] == [b] && [b][1..] == [] && [a][1..] == [];
    assert Ordered(bs, End(bs, a), [b]) <==> End(bs, a) <= b.block && b.len > 0;
    assert EndOf(bs, End(bs, a), [b]) == End(bs, b);
  }

  lemma DenotePair(st: Store, bs: nat, a: Block, b: Block)
    requires Backed(st, a) && Backed(st, b)
    ensures Denote(st, bs, [a, b]) == BlockMap(st, bs, a) + BlockMap(st, bs, b)
  {
    DenoteOne(st, bs, b);
    DenoteCons(st, bs, a, [b]);
    assert [a] + [b] == [a, b];
  }

  lemma MergeAtOrdered(bs: nat, from: nat, s: seq<Block>, i: nat)
    requires bs > 0 && Ordered(bs, from, s) && EndOf(bs, from, s) <= U32
    ensures Ordered(bs, from, MergeAt(bs, s, i))
    ensures EndOf(bs, from, MergeAt(bs, s, i)) == EndOf(bs, from, s)
  {
    if i + 1 < |s| && Joinable(bs, s[i], s[i + 1]) {
      var p, a, b, t := s[..i], s[i], s[i + 1], s[i + 2..];
      assert s == p + [a, b] + t;
      OrderedEndOf(bs, from, s);
      OrderedTriple(bs, from, p, [a, b], t);
      OrderedTriple(bs, from, p, [Join(a, b)], t);
      OrderedPair(bs, EndOf(bs, from, p), a, b);
      OrderedPair(bs, EndOf(bs, from, p), Join(a, b), b);
      JoinGeometry(bs, a, b);
    }
  }

  /** A merge of neighbours in an ordered list changes neither the order nor the meaning. */
  lemma MergeAtKeeps(st: Store, bs: nat, from: nat, s: seq<Block>, i: nat)
    requires bs > 0 && bs % 4 == 0
    requires Ordered(bs, from, s) && AllBacked(st, s) && EndOf(bs, from, s) <= U32
    ensures AllBacked(st, MergeAt(bs, s, i))
    ensures Ordered(bs, from, MergeAt(bs, s, i))
    ensures EndOf(bs, from, MergeAt(bs, s, i)) == EndOf(bs, from, s)
    ensures Denote(st, bs, MergeAt(bs, s, i)) == Denote(st, bs, s)
  {
    hide Ordered, EndOf, Denote, BlockMap, DivRoundUp;
    MergeAtOrdered(bs, from, s, i);
    if i + 1 < |s| && Joinable(bs, s[i], s[i + 1]) {
      var p, a, b, t := s[..i], s[i], s[i + 1], s[i + 2..];
      assert s == p + [a, b] + t;
      OrderedEndOf(bs, from, s);
      OrderedPairs(bs, from, s, i, i + 1);
      JoinDenotes(st, bs, a, b);
      MergedDenotes(st, bs, p, a, b, t);
    }
  }

  lemma MergedDenotes(st: Store, bs: nat, p: seq<Block>, a: Block, b: Block, t: seq<Block>)
    requires AllBacked(st, p) && AllBacked(st, t) && Backed(st, a) && Backed(st, b)
    requires Backed(st, Join(a, b))
    requires BlockMap(st, bs, Join(a, b)) == BlockMap(st, bs, a) + BlockMap(st, bs, b)
    ensures AllBacked(st, p + [Join(a, b)] + t)
    ensures Denote(st, bs, p + [Join(a, b)] + t) == Denote(st, bs, p + [a, b] + t)
  {
    DenoteTriple(st, bs, p, [a, b], t);
    DenoteTriple(st, bs, p, [Join(a, b)], t);
    DenotePair(st, bs, a, b);
    DenoteOne(st, bs, Join(a, b));
  }

  /** Placing a block that fits between its neighbours keeps the list ordered. */
  lemma PlaceOrdered(bs: nat, from: nat, s: seq<Block>, b: Block)
    requires bs > 0 && Ordered(bs, from, s) && Fits(bs, s, b) && b.len > 0 && from <= b.block
    ensures var k := Position(s, b.block);
      && Ordered(bs, from, s[..k] + [b] + s[k..])
      && EndOf(bs, from, s[..k]) <= b.block
      && (k < |s| ==> End(bs, b) <= s[k].block)
      && EndOf(bs, from, s[..k] + [b] + s[k..]) ==
           if k == |s| then End(bs, b) else EndOf(bs, from, s)
  {
    var k := Position(s, b.block);
    var p, t := s[..k], s[k..];
    assert s == p + t;
    OrderedAppend(bs, from, p, t);
    EndOfAppend(bs, from, p, t);
    OrderedTriple(bs, from, p, [b], t);
    OrderedPair(bs, EndOf(bs, from, p), b, b);
    OrderedEndOf(bs, from, s);
    OrderedEndOf(bs, from, p);
    AlignBounds(b.len, bs);
    if k > 0 { assert p[k - 1] == s[k - 1]; }
  }

  /** The maps of a block and of an ordered list it fits into never overlap. */
  lemma {:induction false} FitsDisjoint(st: Store, bs: nat, from: nat, s: seq<Block>, b: Block)
    requires bs > 0 && Ordered(bs, from, s) && Fits(bs, s, b)
    requires AllBacked(st, s) && Backed(st, b)
    ensures Denote(st, bs, s).Keys !! BlockMap(st, bs, b).Keys
    decreases |s|
  {
    if s != [] {
      FitsDisjoint(st, bs, End(bs, s[0]), s[1..], b);
      forall i | i in BlockMap(st, bs, s[0]) && i in BlockMap(st, bs, b) ensures false {
        BlockMapDomain(st, bs, s[0], i);
        BlockMapDomain(st, bs, b, i);
        if End(bs, b) <= s[0].block {
          MulMono(End(bs, b), s[0].block, bs);
        } else {
          MulMono(End(bs, s[0]), b.block, bs);
        }
      }
    }
  }

  lemma UnionCommutes(p: map<nat, byte>, m: map<nat, byte>, t: map<nat, byte>)
    requires m.Keys !! t.Keys
    ensures p + m + t == p + t + m
  {
  }

  lemma PlaceDenotes(st: Store, bs: nat, from: nat, s: seq<Block>, b: Block, k: nat)
    requires bs > 0 && k <= |s| && Ordered(bs, from, s) && Fits(bs, s, b)
    requires AllBacked(st, s) && Backed(st, b)
    ensures AllBacked(st, s[..k] + [b] + s[k..])
    ensures Denote(st, bs, s[..k] + [b] + s[k..]) == Denote(st, bs, s) + BlockMap(st, bs, b)
  {
    var p, t := s[..k], s[k..];
    assert s == p + t;
    OrderedAppend(bs, from, p, t);
    FitsDisjoint(st, bs, EndOf(bs, from, p), t, b);
    DenoteTriple(st, bs, p, [b], t);
    DenoteAppend(st, bs, p, t);
    DenoteOne(st, bs, b);
    UnionCommutes(Denote(st, bs, p), BlockMap(st, bs, b), Denote(st, bs, t));
  }

  /**
   * Inserting a block that overlaps nothing: the list stays ordered and disjoint, and its meaning is
   * the old meaning together with the bytes of the new block, whatever got merged on the way.
   */
  lemma InsertDenotes(st: Store, bs: nat, from: nat, s: seq<Block>, b: Block)
    requires bs > 0 && bs % 4 == 0
    requires Ordered(bs, from, s) && AllBacked(st, s) && EndOf(bs, from, s) <= U32
    requires Backed(st, b) && b.len > 0 && from <= b.block && End(bs, b) <= U32 && Fits(bs, s, b)
    ensures var r := Insert(bs, s, b);
      && Ordered(bs, from, r) && AllBacked(st, r) && EndOf(bs, from, r) <= U32
      && Denote(st, bs, r) == Denote(st, bs, s) + BlockMap(st, bs, b)
      && Denote(st, bs, s).Keys !! BlockMap(st, bs, b).Keys
      && (EndOf(bs, from, s) <= b.block ==> EndOf(bs, from, r) == End(bs, b))
  {
    hide Ordered, EndOf, MergeAt, Denote, BlockMap, AllBacked, DivRoundUp;
    OrderedEndOf(bs, from, s);
    var k := Position(s, b.block);
    var r0 := s[..k] + [b] + s[k..];
    PlaceOrdered(bs, from, s, b);
    PlaceDenotes(st, bs, from, s, b, k);
    FitsDisjoint(st, bs, from, s, b);
    if k == 0 {
      assert r0 == [b] + s;
    } else {
      MergeAtKeeps(st, bs, from, r0, k);
      MergeAtKeeps(st, bs, from, MergeAt(bs, r0, k), k - 1);
    }
  }

  /** Every block of `s` is a whole number of file blocks long. */
  predicate Whole(bs: nat, s: seq<Block>)
    requires bs > 0
  {
    forall i :: 0 <= i < |s| ==> s[i].len % bs == 0
  }

  lemma WholeSum(bs: nat, m: nat, n: nat)
    requires bs > 0 && m % bs == 0 && n % bs == 0
    ensures (m + n) % bs == 0
  {
    RoundingAgrees(m, bs);
    RoundingAgrees(n, bs);
    Distribute(m / bs, n / bs, bs);
    DivRoundUpOfMultiple(m / bs + n / bs, bs);
  }

  lemma MergeAtWhole(bs: nat, s: seq<Block>, i: nat)
    requires bs > 0 && Whole(bs, s)
    ensures Whole(bs, MergeAt(bs, s, i))
  {
    if i + 1 < |s| {
      WholeSum(bs, s[i].len, s[i + 1].len);
    }
  }

  lemma InsertWhole(bs: nat, s: seq<Block>, b: Block)
    requires bs > 0 && Whole(bs, s) && b.len % bs == 0
    ensures Whole(bs, Insert(bs, s, b))
  {
    hide MergeAt;
    var k := Position(s, b.block);
    var r := s[..k] + [b] + s[k..];
    assert Whole(bs, r);
    if k > 0 {
      MergeAtWhole(bs, r, k);
      MergeAtWhole(bs, MergeAt(bs, r, k), k - 1);
    }
  }

  // ---- whole runs of adds ----

  /** The list that a run of `sparse_file_add_*` calls builds. */
  function InsertAll(bs: nat, s: seq<Block>, adds: seq<Block>): seq<Block>
    requires bs > 0
  {
    if adds == [] then s
    else Insert(bs, InsertAll(bs, s, adds[..|adds| - 1]), adds[|adds| - 1])
  }

  /** The adds are non-empty, stay within 2^32 blocks, and no two of them overlap. */
  predicate Addable(bs: nat, adds: seq<Block>)
    requires bs > 0
  {
    && (forall i :: 0 <= i < |adds| ==> adds[i].len > 0 && End(bs, adds[i]) <= U32)
    && (forall i, j :: 0 <= i < j < |adds| ==>
          End(bs, adds[i]) <= adds[j].block || End(bs, adds[j]) <= adds[i].block)
  }

  /** What fits both neighbours fits their join, since nothing can lie between them. */
  lemma MergeAtFits(bs: nat, from: nat, s: seq<Block>, i: nat, c: Block)
    requires bs > 0 && Ordered(bs, from, s) && EndOf(bs, from, s) <= U32
    requires Fits(bs, s, c) && c.len > 0
    ensures Fits(bs, MergeAt(bs, s, i), c)
  {
    if i + 1 < |s| && Joinable(bs, s[i], s[i + 1]) {
      OrderedEndOf(bs, from, s);
      OrderedPairs(bs, from, s, i, i + 1);
      JoinGeometry(bs, s[i], s[i + 1]);
      AlignBounds(c.len, bs);
    }
  }

  lemma PlaceFits(bs: nat, s: seq<Block>, k: nat, b: Block, c: Block)
    requires bs > 0 && k <= |s| && Fits(bs, s, c)
    requires End(bs, c) <= b.block || End(bs, b) <= c.block
    ensures Fits(bs, s[..k] + [b] + s[k..], c)
  {
  }

  lemma InsertFits(bs: nat, from: nat, s: seq<Block>, b: Block, c: Block)
    requires bs > 0 && Ordered(bs, from, s) && EndOf(bs, from, s) <= U32
    requires b.len > 0 && from <= b.block && End(bs, b) <= U32 && Fits(bs, s, b)
    requires Fits(bs, s, c) && c.len > 0 && (End(bs, c) <= b.block || End(bs, b) <= c.block)
    ensures Fits(bs, Insert(bs, s, b), c)
  {
    hide Ordered, EndOf, MergeAt;
    var k := Position(s, b.block);
    var r0 := s[..k] + [b] + s[k..];
    PlaceOrdered(bs, from, s, b);
    if k == 0 {
      assert r0 == [b] + s;
    } else {
      PlaceFits(bs, s, k, b, c);
      MergeAtOrdered(bs, from, r0, k);
      MergeAtFits(bs, from, r0, k, c);
      MergeAtFits(bs, from, MergeAt(bs, r0, k), k - 1, c);
    }
  }

  lemma {:induction false} InsertAllFits(st: Store, bs: nat, adds: seq<Block>, c: Block)
    requires bs > 0 && bs % 4 == 0 && Addable(bs, adds) && AllBacked(st, adds)
    requires Fits(bs, adds, c) && c.len > 0
    ensures Fits(bs, InsertAll(bs, [], adds), c)
    decreases |adds|, 0
  {
    if adds != [] {
      var p, b := adds[..|adds| - 1], adds[|adds| - 1];
      InsertAllFits(st, bs, p, c);
      InsertAllFits(st, bs, p, b);
      InsertAllDenotes(st, bs, p);
      InsertFits(bs, 0, InsertAll(bs, [], p), b, c);
    }
  }

  /**
   * Any run of pairwise disjoint adds, in any order, builds an ordered list whose meaning is exactly
   * the union of the maps of the blocks added.
   */
  lemma {:induction false} InsertAllDenotes(st: Store, bs: nat, adds: seq<Block>)
    requires bs > 0 && bs % 4 == 0 && Addable(bs, adds) && AllBacked(st, adds)
    ensures var r := InsertAll(bs, [], adds);
      && Ordered(bs, 0, r) && AllBacked(st, r) && EndOf(bs, 0, r) <= U32
      && Denote(st, bs, r) == Denote(st, bs, adds)
    decreases |adds|, 1
  {
    if adds != [] {
      var p, b := adds[..|adds| - 1], adds[|adds| - 1];
      assert adds == p + [b];
      InsertAllDenotes(st, bs, p);
      InsertAllFits(st, bs, p, b);
      InsertDenotes(st, bs, 0, InsertAll(bs, [], p), b);
      DenoteAppend(st, bs, p, [b]);
      DenoteOne(st, bs, b);
    }
  }
}
