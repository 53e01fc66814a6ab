/** Resparse on the lists themselves: one round of moving blocks, and the loop over the rounds. */
module ResparseFile {
  import opened Wire
  import opened Arith
  import opened Blocks
  import opened BackedBlockList
  import opened SparseFormat
  import opened OutputCalls
  import opened OutputFile
  import opened SparseFile
  import Resparse
  import opened ResparseRuns

  type CutPoint = Resparse.CutPoint

  lemma EncodedCost(st: Store, bs: nat, b: Block)
    requires bs > 0 && Backed(st, b)
    ensures |EncodeChunk(ChunkOf(st, bs, b))| == 12 + Resparse.Payload(bs, b)
  {
  }

  lemma CountedOnce(out0: seq<byte>, header: seq<byte>, emitted: seq<Chunk>, c: Chunk)
    requires out0 == header + EncodeChunks(emitted)
    ensures |header + EncodeChunks(emitted + [c])| == |out0| + |EncodeChunk(c)|
  {
    EncodeAppend(emitted, [c]);
    EncodeOne(c);
  }

  /** What the counting output says that writing `bb` adds to the file. */
  method CountBlock(s: SparseFile, out: OutputFile, bb: BackedBlock, lastBlock: nat, st: Store) returns (count: nat)
    requires out.Valid() && out.sparse && out.blockSize == s.blockSize && Backed(st, bb.Value())
    modifies out
    ensures out.Valid() && count == Resparse.Cost(s.blockSize, lastBlock, bb.Value())
  {
    hide Sent, EncodeChunks, EncodeChunk, AllWrites, WriterSum, CountedBytes, ChunkOf, Backed;
    ghost var c := ChunkOf(st, s.blockSize, bb.Value());
    SentIsCounted(out.calls);
    CountedOnce(Sent(out.calls), out.header, out.emitted, c);
    EncodedCost(st, s.blockSize, bb.Value());
    var before := CountedBytes(out.calls);
    count := 0;
    if bb.block > lastBlock {
      count := CHUNK_HEADER_LEN;
    }
    s.WriteBlockSparse(out, bb, st);
    SentIsCounted(out.calls);
    count := count + (CountedBytes(out.calls) - before);
  }

  /** A cut found behind `k` more blocks. */
  function Past(c: CutPoint, k: nat): CutPoint {
    c.(k := c.k + k)
  }

  /** The loop has taken `k` blocks and the cut is still to be found behind them. */
  predicate Reached(bs: nat, budget: nat, last: nat, used: nat, s: seq<Block>, k: nat) {
    && bs > 0 && k <= |s| && (k == 0 ==> used == 0) && used <= budget
    && Resparse.NextCut(bs, budget, s) == Past(Resparse.Scan(bs, budget, last, used, k == 0, s[k..]), k)
  }

  lemma ReachedFirst(bs: nat, budget: nat, s: seq<Block>)
    requires bs > 0
    ensures Reached(bs, budget, 0, 0, s, 0)
  {
    assert s[0..] == s;
  }

  lemma ReachedNext(bs: nat, budget: nat, last: nat, used: nat, s: seq<Block>, k: nat)
    requires Reached(bs, budget, last, used, s, k) && k < |s| && used + Resparse.Cost(bs, last, s[k]) <= budget
    ensures Reached(bs, budget, End(bs, s[k]), used + Resparse.Cost(bs, last, s[k]), s, k + 1)
  {
    hide Resparse.NextCut, Resparse.Cost;
    assert s[k..][0] == s[k] && s[k..][1..] == s[k + 1..];
  }

  lemma BackedAt(st: Store, s: seq<Block>, k: nat)
    requires AllBacked(st, s) && k < |s|
    ensures Backed(st, s[k])
  {
  }

  /** The loop over the blocks, up to the first one that no longer fits. */
  method FindCut(from: SparseFile, budget: nat, st: Store)
    returns (bb: BackedBlock?, lastBb: BackedBlock?, fileLen: nat, ghost k: nat, ghost last: nat)
    requires from.Valid() && AllBacked(st, from.list.contents)
    ensures var s, bs := from.list.contents, from.blockSize;
      && Reached(bs, budget, last, fileLen, s, k)
      && bb == (if k < |s| then from.list.nodes[k] else null)
      && lastBb == (if k > 0 then from.list.nodes[k - 1] else null)
      && (k < |s| ==> fileLen + Resparse.Cost(bs, last, s[k]) > budget)
  {
    hide Reached, Resparse.Cost, BackedBlockList.Linked, DivRoundUp, AllBacked, Backed, OutputFile.Valid;
    var out := new OutputFile(from.blockSize, from.len, true, 0, false);
    bb, lastBb, fileLen := from.list.dataBlocks, null, 0;
    var lastBlock: nat := 0;
    ghost var s, bs := from.list.contents, from.blockSize;
    k, last := 0, 0;
    FirstNode(from.list);
    ReachedFirst(bs, budget, s);
    while bb != null
      invariant out.Valid() && out.sparse && out.blockSize == bs && fresh(out)
      invariant 0 <= k <= |s| && bb == (if k < |s| then from.list.nodes[k] else null)
      invariant lastBb == (if k > 0 then from.list.nodes[k - 1] else null)
      invariant last == lastBlock && Reached(bs, budget, lastBlock, fileLen, s, k)
      decreases |s| - k
    {
      NextNode(from.list, k);
      BackedAt(st, s, k);
      assert bb.Value() == s[k];
      var count := CountBlock(from, out, bb, lastBlock, st);
      if fileLen + count > budget {
        return;
      }
      ReachedNext(bs, budget, lastBlock, fileLen, s, k);
      lastBlock := bb.block + DivRoundUp(bb.len, from.blockSize);
      assert lastBlock == End(bs, s[k]);
      fileLen := fileLen + count;
      lastBb := bb;
      bb := bb.next;
      k, last := k + 1, lastBlock;
    }
  }

  /** What the loop's stop means for the piece and for what stays behind. */
  lemma StopIsCut(bs: nat, budget: nat, last: nat, used: nat, s: seq<Block>, k: nat)
    requires Reached(bs, budget, last, used, s, k) && k < |s| && used + Resparse.Cost(bs, last, s[k]) > budget
    requires Resparse.InRange(s, Resparse.NextCut(bs, budget, s))
    ensures var c := Resparse.NextCut(bs, budget, s);
      && c.more
      && if k == 0 || budget - (used + 12) > budget / 8 then
           var t := SplitAt(bs, s, k, Trunc32(budget - (used + 12)));
           Resparse.PieceOf(s, c) == t[..k + 1] && Resparse.RestOf(bs, s, c) == t[k + 1..]
         else Resparse.PieceOf(s, c) == s[..k] && Resparse.RestOf(bs, s, c) == s[k..]
  {
    assert s[k..][0] == s[k];
    var m := AlignDown(Trunc32(budget - (used + 12)), bs);
    if s[k].len <= m {
      assert s[..k + 1] == s[..k] + [s[k]];
    }
  }

  lemma EndIsCut(bs: nat, budget: nat, last: nat, used: nat, s: seq<Block>)
    requires Reached(bs, budget, last, used, s, |s|)
    ensures var c := Resparse.NextCut(bs, budget, s);
      && !c.more && Resparse.InRange(s, c)
      && Resparse.PieceOf(s, c) == s[..|s|] && Resparse.RestOf(bs, s, c) == s[|s|..]
  {
  }

  lemma RunIntoEmpty(run: seq<Block>)
    ensures InsertRun([], run) == run
  {
  }

  /**
   * `move_chunks_up_to_len`: the blocks of one round move to `to`, and what is left stays in `from`. The
   * result is whether a block was handed back.
   */
  method MoveChunksUpToLen(from: SparseFile, to: SparseFile, maxLen: u32, st: Store) returns (more: bool)
    requires from.Valid() && to.Valid() && from.list != to.list && from.list.repr !! to.list.repr
    requires to.list.contents == [] && AllBacked(st, from.list.contents)
    modifies from.list, to.list, from.list.repr, to.list.repr
    ensures from.Valid() && to.Valid() && from.list.repr !! to.list.repr
    ensures fresh(from.list.repr + to.list.repr - old(from.list.repr + to.list.repr))
    ensures var c := Resparse.NextCut(from.blockSize, Resparse.Budget(maxLen), old(from.list.contents));
      && Resparse.InRange(old(from.list.contents), c) && more == c.more
      && to.list.contents == Resparse.PieceOf(old(from.list.contents), c)
      && from.list.contents == Resparse.RestOf(from.blockSize, old(from.list.contents), c)
  {
    hide Resparse.Scan, Resparse.Cost, BackedBlockList.Linked, DivRoundUp, Resparse.NextCut, Resparse.PieceOf,
      Resparse.RestOf, Resparse.InRange, InsertRun, AllBacked, SplitAt;
    var len := Resparse.Budget(maxLen);
    ghost var s, bs := from.list.contents, from.blockSize;
    var bb, lastBb, fileLen; ghost var k, last;
    bb, lastBb, fileLen, k, last := FindCut(from, len, st);
    var start := from.list.dataBlocks;
    FirstNode(from.list);
    Resparse.ScanInRange(bs, len, 0, 0, true, s);
    assert Resparse.InRange(s, Resparse.NextCut(bs, len, s)) by { NextIs(bs, len, s); }
    ghost var hi := k;
    if bb != null {
      StopIsCut(bs, len, last, fileLen, s, k);
      NextNode(from.list, k);
      fileLen := fileLen + CHUNK_HEADER_LEN;
      if lastBb == null || len - fileLen > len / 8 {
        from.list.Split(bb, Trunc32(len - fileLen), k);
        lastBb := bb;
        hi := k + 1;
        FirstNode(from.list);
      }
    } else {
      assert k == |s|;
      EndIsCut(bs, len, last, fileLen, s);
    }
    ghost var t := from.list.contents;
    RunIntoEmpty(t[0..hi]);
    assert t[0..hi] == t[..hi] && t[..0] + t[hi..] == t[hi..];
    from.list.MoveTo(to.list, start, lastBb, 0, hi);
    more := bb != null;
  }

  lemma NextIs(bs: nat, budget: nat, s: seq<Block>)
    requires bs > 0
    ensures Resparse.NextCut(bs, budget, s) == Resparse.Scan(bs, budget, 0, 0, true, s)
  {
  }

  // ---- the loop over the rounds ----

  /** The files handed out so far hold the pieces `ps`, and none of them shares a node with `used`. */
  ghost predicate Holding(out: seq<SparseFile>, ps: seq<seq<Block>>, bs: nat, len: nat, avoid: set<object>)
    reads set i | 0 <= i < |out| :: out[i]
    reads set i | 0 <= i < |out| :: out[i].list
    reads set i, b | 0 <= i < |out| && b in out[i].list.repr :: b
  {
    && |out| == |ps|
    && forall i :: 0 <= i < |out| ==> HoldsPiece(out[i], ps[i], bs, len, avoid)
  }

  ghost predicate HoldsPiece(f: SparseFile, p: seq<Block>, bs: nat, len: nat, avoid: set<object>)
    reads f, f.list, f.list.repr
  {
    && f.Valid() && f.blockSize == bs && f.len == len && f.list.contents == p
    && f.list !in avoid && f.list.repr !! avoid
  }

  /** One round into a new file. */
  method OneRound(inS: SparseFile, maxLen: u32, st: Store) returns (s: SparseFile, more: bool)
    requires inS.Valid() && AllBacked(st, inS.list.contents)
    modifies inS.list, inS.list.repr
    ensures inS.Valid() && s.Valid() && fresh(s) && fresh(s.list) && inS.list.repr !! s.list.repr
    ensures s.blockSize == inS.blockSize && s.len == inS.len
    ensures fresh(inS.list.repr + s.list.repr - old(inS.list.repr))
    ensures var c := Resparse.NextCut(inS.blockSize, Resparse.Budget(maxLen), old(inS.list.contents));
      && Resparse.InRange(old(inS.list.contents), c) && more == c.more
      && s.list.contents == Resparse.PieceOf(old(inS.list.contents), c)
      && inS.list.contents == Resparse.RestOf(inS.blockSize, old(inS.list.contents), c)
  {
    hide Resparse.NextCut, Resparse.InRange, Resparse.PieceOf, Resparse.RestOf, BackedBlockList.Linked;
    s := new SparseFile(inS.blockSize, inS.len);
    more := MoveChunksUpToLen(inS, s, maxLen, st);
  }

  /** The first `n` pieces. */
  function FirstOf(ps: seq<seq<Block>>, n: nat): seq<seq<Block>> {
    if n < |ps| then ps[..n] else ps
  }

  /** All blocks of the pieces behind the first `n`. */
  function Beyond(ps: seq<seq<Block>>, n: nat): seq<Block> {
    if n < |ps| then Concat(ps[n..]) else []
  }

  lemma FirstSnoc(ps: seq<seq<Block>>, p: seq<Block>, n: nat)
    ensures |ps| < n ==> FirstOf(ps + [p], n) == FirstOf(ps, n) + [p] && Beyond(ps + [p], n) == Beyond(ps, n)
    ensures |ps| >= n ==> FirstOf(ps + [p], n) == FirstOf(ps, n) && Beyond(ps + [p], n) == Beyond(ps, n) + p
  {
    if |ps| >= n {
      assert (ps + [p])[n..] == ps[n..] + [p];
      ConcatAppend(ps[n..], [p]);
      ConcatOne(p);
    }
  }

  lemma {:induction false} ConcatAppend(a: seq<seq<Block>>, b: seq<seq<Block>>)
    ensures Concat(a + b) == Concat(a) + Concat(b)
    decreases |a|
  {
    if a == [] {
      assert a + b == b;
    } else {
      assert (a + b)[1..] == a[1..] + b;
      ConcatAppend(a[1..], b);
    }
  }

  lemma ConcatMiddle(a: seq<seq<Block>>, b: seq<seq<Block>>, p: seq<Block>, z: seq<seq<Block>>)
    ensures Concat(a + (b + [p]) + z) == Concat(a) + (Concat(b) + p) + Concat(z)
  {
    hide Concat;
    ConcatAppend(a + (b + [p]), z);
    ConcatAppend(a, b + [p]);
    ConcatAppend(b, [p]);
    ConcatOne(p);
  }

  lemma BeyondIs(ps: seq<seq<Block>>, n: nat, m: nat)
    requires m < |ps|
    ensures Beyond(ps[..m], n) == Concat(ps[if n < m then n else m..m])
  {
    if n < m {
      assert ps[..m][n..] == ps[n..m];
    } else {
      assert ps[m..m] == [];
    }
  }

  /** The pieces kept aside, followed by the next one, are in order. */
  lemma KeptInOrder(bs: nat, ps: seq<seq<Block>>, n: nat, m: nat)
    requires bs > 0 && m < |ps| && Ordered(bs, 0, Concat(ps))
    ensures Ordered(bs, 0, Beyond(ps[..m], n) + ps[m])
  {
    hide Ordered, Beyond, Concat;
    var k := if n < m then n else m;
    assert ps == ps[..k] + (ps[k..m] + [ps[m]]) + ps[m + 1..];
    ConcatMiddle(ps[..k], ps[k..m], ps[m], ps[m + 1..]);
    BeyondIs(ps, n, m);
    var a, x, z := Concat(ps[..k]), Beyond(ps[..m], n) + ps[m], Concat(ps[m + 1..]);
    OrderedAppend(bs, 0, a + x, z);
    OrderedAppend(bs, 0, a, x);
    FromZero(bs, EndOf(bs, 0, a), x);
  }

  /** A run behind everything in a list is appended to it. */
  lemma {:induction false} RunAtEnd(bs: nat, from: nat, s: seq<Block>, run: seq<Block>)
    requires bs > 0 && Ordered(bs, from, s + run)
    ensures InsertRun(s, run) == s + run
  {
    if s != [] && run != [] {
      PositionAtEnd(bs, from, s, run);
      assert s[..|s|] == s && s[|s|..] == [];
    }
  }

  lemma {:induction false} PositionAtEnd(bs: nat, from: nat, s: seq<Block>, run: seq<Block>)
    requires bs > 0 && s != [] && run != [] && Ordered(bs, from, s + run)
    ensures RunPosition(s, run[0].block) == |s|
    decreases |s|
  {
    var t := s + run;
    if |s| > 1 {
      OrderedPairs(bs, from, t, 1, |s|);
      assert t[1..] == s[1..] + run;
      PositionAtEnd(bs, End(bs, t[0]), s[1..], run);
    }
  }

  /** What is handed out and set aside when the rounds so far have taken `taken`. */
  ghost predicate Progress(inS: SparseFile, tmp: SparseFile, out: seq<SparseFile>, outCount: nat, taken: seq<seq<Block>>)
    reads inS, inS.list, inS.list.repr, tmp, tmp.list, tmp.list.repr
    reads set i | 0 <= i < |out| :: out[i]
    reads set i | 0 <= i < |out| :: out[i].list
    reads set i, b | 0 <= i < |out| && b in out[i].list.repr :: b
  {
    && inS.Valid() && tmp.Valid() && tmp.blockSize == inS.blockSize
    && inS.list != tmp.list && inS.list.repr !! tmp.list.repr
    && tmp.list.contents == Beyond(taken, outCount)
    && Holding(out, FirstOf(taken, outCount), inS.blockSize, inS.len,
               {inS.list, tmp.list} + inS.list.repr + tmp.list.repr)
  }

  /** One turn of the loop: a round, and its file either handed out or emptied into `tmp`. */
  method TakeRound(inS: SparseFile, tmp: SparseFile, maxLen: u32, outCount: nat, outIn: seq<SparseFile>, c: nat, st: Store,
                   ghost taken: seq<seq<Block>>)
    returns (out: seq<SparseFile>, more: bool, ghost piece: seq<Block>)
    requires Progress(inS, tmp, outIn, outCount, taken) && c == |taken|
    requires AllBacked(st, inS.list.contents)
    requires var cut := Resparse.NextCut(inS.blockSize, Resparse.Budget(maxLen), inS.list.contents);
      Resparse.InRange(inS.list.contents, cut) ==>
        exists from :: Ordered(inS.blockSize, from, Beyond(taken, outCount) + Resparse.PieceOf(inS.list.contents, cut))
    modifies inS.list, inS.list.repr, tmp.list, tmp.list.repr
    ensures Progress(inS, tmp, out, outCount, taken + [piece])
    ensures fresh(inS.list.repr + tmp.list.repr - old(inS.list.repr + tmp.list.repr))
    ensures forall i :: 0 <= i < |out| ==> out[i] in outIn || fresh(out[i])
    ensures var cut := Resparse.NextCut(inS.blockSize, Resparse.Budget(maxLen), old(inS.list.contents));
      && Resparse.InRange(old(inS.list.contents), cut) && more == cut.more
      && piece == Resparse.PieceOf(old(inS.list.contents), cut)
      && inS.list.contents == Resparse.RestOf(inS.blockSize, old(inS.list.contents), cut)
  {
    hide Resparse.NextCut, Resparse.InRange, Resparse.PieceOf, Resparse.RestOf, BackedBlockList.Linked, FirstOf, Beyond,
      InsertRun, AllBacked;
    var s;
    s, more := OneRound(inS, maxLen, st);
    piece := s.list.contents;
    FirstSnoc(taken, piece, outCount);
    if c < outCount {
      out := outIn + [s];
    } else {
      out := outIn;
      ghost var from :| Ordered(inS.blockSize, from, tmp.list.contents + piece);
      RunAtEnd(inS.blockSize, from, tmp.list.contents, piece);
      EmptyInto(s, tmp);
    }
  }

  /** Moves all blocks of one file into another. */
  method EmptyInto(s: SparseFile, to: SparseFile)
    requires s.Valid() && to.Valid() && s.list != to.list && s.list.repr !! to.list.repr
    modifies s.list, s.list.repr, to.list, to.list.repr
    ensures s.Valid() && to.Valid() && s.list.repr !! to.list.repr
    ensures to.list.repr <= old(s.list.repr + to.list.repr) && s.list.repr <= old(s.list.repr)
    ensures s.list.contents == [] && to.list.contents == InsertRun(old(to.list.contents), old(s.list.contents))
  {
    hide InsertRun, BackedBlockList.Linked;
    FirstNode(s.list);
    ghost var t, n := s.list.contents, |s.list.nodes|;
    assert t[0..n] == t && t[..0] + t[n..] == [];
    s.list.MoveTo(to.list, null, null, 0, n);
  }

  lemma CutBacked(st: Store, bs: nat, budget: nat, s: seq<Block>)
    requires Cuttable(bs, budget, s) && AllBacked(st, s)
    ensures Resparse.InRange(s, Resparse.NextCut(bs, budget, s))
    ensures AllBacked(st, Resparse.RestOf(bs, s, Resparse.NextCut(bs, budget, s)))
  {
    RoundShrinks(bs, budget, s);
    Resparse.CutDenotes(st, bs, s, Resparse.NextCut(bs, budget, s));
  }

  /** How the pieces still to come unfold by one round. */
  lemma NextPiece(bs: nat, budget: nat, s: seq<Block>, taken: seq<seq<Block>>, ps: seq<seq<Block>>)
    requires Cuttable(bs, budget, s) && ps == taken + CutAll(bs, budget, s)
    requires Ordered(bs, 0, Concat(ps))
    ensures var c := Resparse.NextCut(bs, budget, s);
      && Resparse.InRange(s, c) && Cuttable(bs, budget, Resparse.RestOf(bs, s, c))
      && (c.more ==> TotalLen(Resparse.RestOf(bs, s, c)) < TotalLen(s))
      && (!c.more ==> Resparse.RestOf(bs, s, c) == [])
      && ps == taken + [Resparse.PieceOf(s, c)] + (if c.more then CutAll(bs, budget, Resparse.RestOf(bs, s, c)) else [])
      && forall n: nat {:trigger Beyond(taken, n)} :: Ordered(bs, 0, Beyond(taken, n) + Resparse.PieceOf(s, c))
  {
    hide Ordered, Concat, Beyond, Resparse.NextCut;
    RoundShrinks(bs, budget, s);
    var p := Resparse.PieceOf(s, Resparse.NextCut(bs, budget, s));
    forall n: nat ensures Ordered(bs, 0, Beyond(taken, n) + p) {
      KeptInOrder(bs, ps, n, |taken|);
      assert ps[..|taken|] == taken && ps[|taken|] == p;
    }
  }

  /**
   * `sparse_file_resparse`: the count is the number of pieces whatever the size of the array; the array
   * gets the first of them, each in a file of its own; the input keeps the rest, end to end.
   */
  method SparseFileResparse(inS: SparseFile, maxLen: u32, outCount: nat, st: Store) returns (c: nat, out: seq<SparseFile>)
    requires inS.Valid() && AllBacked(st, inS.list.contents)
    requires Cuttable(inS.blockSize, Resparse.Budget(maxLen), inS.list.contents)
    modifies inS.list, inS.list.repr
    ensures var ps := CutAll(inS.blockSize, Resparse.Budget(maxLen), old(inS.list.contents));
      && c == |ps| && inS.Valid() && inS.list.contents == Beyond(ps, outCount)
      && Holding(out, FirstOf(ps, outCount), inS.blockSize, inS.len, {inS.list} + inS.list.repr)
    ensures forall i :: 0 <= i < |out| ==> fresh(out[i])
    ensures fresh(inS.list.repr - old(inS.list.repr))
  {
    hide Resparse.NextCut, Resparse.InRange, Resparse.PieceOf, Resparse.RestOf, FirstOf, Beyond, InsertRun, AllBacked,
      BackedBlockList.Linked, Cuttable, CutAll, Ordered, Concat;
    ghost var bs, budget := inS.blockSize, Resparse.Budget(maxLen);
    ghost var ps := CutAll(bs, budget, inS.list.contents);
    ghost var taken: seq<seq<Block>> := [];
    assert Ordered(bs, 0, Concat(ps)) by { PiecesRefine(bs, budget, inS.list.contents); }
    var tmp := new SparseFile(inS.blockSize, inS.len);
    NothingTaken(outCount);
    c, out := 0, [];
    var more := true;
    while more
      invariant Progress(inS, tmp, out, outCount, taken) && c == |taken|
      invariant fresh(tmp) && fresh(tmp.list) && fresh(inS.list.repr + tmp.list.repr - old(inS.list.repr))
      invariant forall i :: 0 <= i < |out| ==> fresh(out[i])
      invariant AllBacked(st, inS.list.contents) && Cuttable(bs, budget, inS.list.contents)
      invariant ps == taken + if more then CutAll(bs, budget, inS.list.contents) else []
      invariant !more ==> inS.list.contents == []
      decreases if more then 1 + TotalLen(inS.list.contents) else 0
    {
      CutBacked(st, bs, budget, inS.list.contents);
      NextPiece(bs, budget, inS.list.contents, taken, ps);
      ghost var piece;
      out, more, piece := TakeRound(inS, tmp, maxLen, outCount, out, c, st, taken);
      c := c + 1;
      taken := taken + [piece];
    }
    assert taken == ps;
    RunIntoEmpty(tmp.list.contents);
    EmptyInto(tmp, inS);
  }

  lemma NothingTaken(n: nat)
    ensures FirstOf([], n) == [] && Beyond([], n) == []
  {
  }

  /**
   * `resparse_file`: a counting call sizes the array, a second call with the same limit fills it. The
   * array is exactly full, it holds the pieces of the original list, and the input is left empty.
   */
  method ResparseInTwoPasses(s: SparseFile, maxSize: int, st: Store) returns (died: bool, out: seq<SparseFile>)
    requires s.Valid() && AllBacked(st, s.list.contents)
    requires 0 < maxSize < U32 ==> Cuttable(s.blockSize, Resparse.Budget(maxSize), s.list.contents)
    modifies s.list, s.list.repr
    ensures died <==> !(0 < maxSize < U32)
    ensures !died ==>
      var ps := CutAll(s.blockSize, Resparse.Budget(maxSize), old(s.list.contents));
      && s.Valid() && s.list.contents == [] && |out| == |ps|
      && Holding(out, ps, s.blockSize, s.len, {s.list} + s.list.repr)
  {
    hide CutAll, Cuttable, AllBacked, Concat, BackedBlockList.Linked;
    if maxSize <= 0 || maxSize >= U32 {
      return true, [];
    }
    died := false;
    ghost var bs, budget, s0 := s.blockSize, Resparse.Budget(maxSize), s.list.contents;
    ghost var ps := CutAll(bs, budget, s0);
    SecondRunAgrees(bs, budget, s0);
    PiecesBacked(st, bs, budget, s0);
    assert ps[0..] == ps;
    var files, _ := SparseFileResparse(s, maxSize, 0, st);
    assert s.list.contents == Concat(ps);
    var rv;
    rv, out := SparseFileResparse(s, maxSize, files, st);
  }

  lemma PiecesBacked(st: Store, bs: nat, budget: nat, s: seq<Block>)
    requires Cuttable(bs, budget, s) && AllBacked(st, s)
    ensures AllBacked(st, Concat(CutAll(bs, budget, s)))
  {
    PiecesDenote(st, bs, budget, s);
    ConcatBacked(st, CutAll(bs, budget, s));
  }

  lemma {:induction false} ConcatBacked(st: Store, ps: seq<seq<Block>>)
    requires forall i :: 0 <= i < |ps| ==> AllBacked(st, ps[i])
    ensures AllBacked(st, Concat(ps))
  {
    if ps != [] {
      ConcatBacked(st, ps[1..]);
    }
  }
}
