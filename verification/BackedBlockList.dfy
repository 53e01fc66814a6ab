/** The in-place linked list of backed blocks. */
module BackedBlockList {
  import opened Wire
  import opened Arith
  import opened Blocks
  import opened Insertion

  class BackedBlock {
    var block: nat
    var len: nat
    var backing: Backing
    var next: BackedBlock?

    constructor (b: Block)
      ensures Value() == b && next == null
    {
      block, len, backing, next := b.block, b.len, b.backing, null;
    }

    ghost function Value(): Block
      reads this`block, this`len, this`backing
    {
      Block(block, len, backing)
    }
  }

  /** The outcome of `merge_bb`; `AssertFailed` stands for the process aborting in its assert. */
  datatype MergeOutcome = Merged | NotMerged | AssertFailed

  /** The list after `backed_block_split` of the block at `k`. */
  function SplitAt(bs: nat, s: seq<Block>, k: nat, maxLen: nat): seq<Block>
    requires bs > 0 && k < |s|
  {
    var m := AlignDown(maxLen, bs);
    if s[k].len <= m then s
    else s[..k] + [SplitHead(s[k], m), SplitTail(bs, s[k], m)] + s[k + 1..]
  }

  /** Where `backed_block_list_move` puts a run: after the head and every block not past its start. */
  function RunPosition(s: seq<Block>, block: nat): (k: nat)
    requires s != []
    ensures 1 <= k <= |s|
    decreases |s|
  {
    if |s| == 1 || s[1].block > block then 1 else 1 + RunPosition(s[1..], block)
  }

  function InsertRun(s: seq<Block>, run: seq<Block>): seq<Block> {
    if run == [] then s
    else if s == [] then run
    else var k := RunPosition(s, run[0].block); s[..k] + run + s[k..]
  }

  class BackedBlockList {
    const blockSize: nat
    var dataBlocks: BackedBlock?
    var lastUsed: BackedBlock?
    /** The linked objects in list order, the values they hold, and a bound on the objects in use. */
    ghost var nodes: seq<BackedBlock>
    ghost var contents: seq<Block>
    ghost var repr: set<BackedBlock>

    constructor (blockSize: nat)
      requires blockSize > 0
      ensures Valid() && contents == [] && this.blockSize == blockSize && repr == {}
    {
      this.blockSize := blockSize;
      dataBlocks, lastUsed := null, null;
      nodes, contents, repr := [], [], {};
    }

    /** `dataBlocks` and the `next` fields chain exactly the objects of `nodes`, each once. */
    ghost predicate Linked()
      reads this, repr
    {
      && blockSize > 0
      && |nodes| == |contents|
      && dataBlocks == (if nodes == [] then null else nodes[0])
      && (forall i :: 0 <= i < |nodes| ==> nodes[i] in repr)
      && (forall i :: 0 <= i < |nodes| ==> nodes[i].Value() == contents[i])
      && (forall i {:trigger nodes[i].next} :: 0 <= i < |nodes| ==>
            nodes[i].next == if i + 1 < |nodes| then nodes[i + 1] else null)
      && (forall i, j :: 0 <= i < j < |nodes| ==> nodes[i] != nodes[j])
    }

    /** The search hint is null or a live member of the list. */
    ghost predicate Valid()
      reads this, repr
    {
      Linked() && (lastUsed == null || lastUsed in nodes)
    }

    method MergeBb(a: BackedBlock?, b: BackedBlock?, ghost i: nat) returns (r: MergeOutcome)
      requires Linked()
      requires a != null ==> i < |nodes| && nodes[i] == a && a.next == b
      modifies this`nodes, this`contents, repr
      ensures r == AssertFailed <==> a != null && b != null && old(a.block) >= old(b.block)
      ensures r == NotMerged ==> nodes == old(nodes) && contents == old(contents)
      ensures r == Merged ==> a != null && i + 1 < |old(nodes)|
      ensures r == Merged ==> nodes == old(nodes)[..i + 1] + old(nodes)[i + 2..]
      ensures r != AssertFailed ==> Linked()
      ensures r != AssertFailed && a != null ==> contents == MergeAt(blockSize, old(contents), i)
    {
      if a == null || b == null {
        return NotMerged;
      }
      if a.block >= b.block {
        return AssertFailed;
      }
      var joinable := SameKind(a, b);
      assert nodes[i + 1] == b;
      if !joinable || Trunc32(a.block + Trunc32(a.len / blockSize)) != b.block {
        return NotMerged;
      }
      Absorb(a, b, i);
      return Merged;
    }

    method SameKind(a: BackedBlock, b: BackedBlock) returns (same: bool)
      requires blockSize > 0
      ensures Joinable(blockSize, a.Value(), b.Value()) <==>
        same && Trunc32(a.block + Trunc32(a.len / blockSize)) == b.block
    {
      match (a.backing, b.backing) {
        case (Fill(v), Fill(w)) => same := v == w;
        case (File(n, o), File(m, p)) => same := n == m && o + a.len == p;
        case (Fd(f, o), Fd(g, p)) => same := f == g && o + a.len == p;
        case _ => same := false;
      }
    }

    method Absorb(a: BackedBlock, b: BackedBlock, ghost i: nat)
      requires Linked() && i + 1 < |nodes| && nodes[i] == a && nodes[i + 1] == b
      modifies this`nodes, this`contents, a
      ensures Linked()
      ensures nodes == old(nodes)[..i + 1] + old(nodes)[i + 2..]
      ensures contents == old(contents)[..i] + [Join(old(contents)[i], old(contents)[i + 1])] + old(contents)[i + 2..]
    {
      assert b.next == if i + 2 < |nodes| then nodes[i + 2] else null;
      a.len := a.len + b.len;
      a.next := b.next;
      nodes := nodes[..i + 1] + nodes[i + 2..];
      contents := contents[..i] + [a.Value()] + contents[i + 2..];
    }

    /** Makes `newBb` the successor of `nodes[k]`. */
    method LinkAfter(bb: BackedBlock, newBb: BackedBlock, ghost k: nat)
      requires Linked() && k < |nodes| && nodes[k] == bb
      requires newBb !in repr && newBb.next == null
      modifies this`nodes, this`contents, this`repr, bb`next, newBb`next
      ensures Linked() && repr == old(repr) + {newBb}
      ensures nodes == old(nodes)[..k + 1] + [newBb] + old(nodes)[k + 1..]
      ensures contents == old(contents)[..k + 1] + [old(newBb.Value())] + old(contents)[k + 1..]
    {
      PlacedIs(nodes, k, newBb);
      PlacedIs(contents, k, newBb.Value());
      Hook(bb, newBb, k, nodes[..k + 1] + [newBb] + nodes[k + 1..], contents[..k + 1] + [newBb.Value()] + contents[k + 1..]);
    }

    /** The two assignments of a new node's place in the chain. */
    method Hook(bb: BackedBlock, newBb: BackedBlock, ghost k: nat, ghost ns: seq<BackedBlock>, ghost vs: seq<Block>)
      requires Linked() && k < |nodes| && nodes[k] == bb
      requires newBb !in repr && newBb.next == null
      requires Placed(nodes, k, newBb, ns) && Placed(contents, k, newBb.Value(), vs)
      modifies this`nodes, this`contents, this`repr, bb`next, newBb`next
      ensures Linked() && repr == old(repr) + {newBb} && nodes == ns && contents == vs
    {
      if bb.next == null {
        bb.next := newBb;
      } else {
        newBb.next := bb.next;
        bb.next := newBb;
      }
      nodes, contents, repr := ns, vs, repr + {newBb};
    }

    /** The last block that starts before `block`, found from the hint when the hint allows it. */
    method Search(block: nat) returns (bb: BackedBlock, ghost k: nat)
      requires Valid() && Sorted(contents) && nodes != [] && contents[0].block <= block
      ensures k < |nodes| && bb == nodes[k]
      ensures contents[k].block <= block
      ensures k == 0 || contents[k].block < block
      ensures k + 1 < |nodes| ==> contents[k + 1].block >= block
    {
      if lastUsed != null && block > lastUsed.block {
        bb := lastUsed;
      } else {
        bb := dataBlocks;
      }
      k :| 0 <= k < |nodes| && nodes[k] == bb && (bb == nodes[0] || bb.block < block);
      while bb.next != null && bb.next.block < block
        invariant k < |nodes| && nodes[k] == bb
        invariant bb.block <= block && (bb == nodes[0] || bb.block < block)
        decreases |nodes| - k
      {
        bb := bb.next;
        k := k + 1;
      }
      assert bb.next == if k + 1 < |nodes| then nodes[k + 1] else null;
    }

    /** Links `newBb` behind `nodes[k]` and merges it with both neighbours. */
    method LinkAndMerge(bb: BackedBlock, newBb: BackedBlock, ghost k: nat) returns (ok: bool)
      requires Valid() && k < |nodes| && nodes[k] == bb && bb.block <= newBb.block
      requires k + 1 < |nodes| ==> newBb.block <= contents[k + 1].block
      requires newBb !in repr && newBb.next == null
      modifies this`nodes, this`contents, this`repr, this`lastUsed, repr, newBb
      ensures ok <==> (
        && old(contents)[k].block < old(newBb.block)
        && (k + 1 < |old(nodes)| ==> old(newBb.block) < old(contents)[k + 1].block))
      ensures ok ==> Valid() && repr == old(repr) + {newBb}
      ensures ok ==> contents == PlaceAndMerge(blockSize, old(contents), k + 1, old(newBb.Value()))
    {
      LinkAfter(bb, newBb, k);
      lastUsed := newBb;
      assert nodes[k + 1] == newBb && nodes[k] == bb;
      ok := MergeBoth(bb, newBb, k);
    }

    /** Merges the new block with its successor, then its predecessor with the new block. */
    method MergeBoth(bb: BackedBlock, newBb: BackedBlock, ghost k: nat) returns (ok: bool)
      requires Linked() && k + 1 < |nodes| && nodes[k] == bb && nodes[k + 1] == newBb && lastUsed == newBb
      modifies this`nodes, this`contents, this`lastUsed, repr
      ensures ok <==> (
        && old(contents)[k].block < old(contents)[k + 1].block
        && (k + 2 < |old(nodes)| ==> old(contents)[k + 1].block < old(contents)[k + 2].block))
      ensures ok ==> Valid()
      ensures ok ==> contents == MergeAt(blockSize, MergeAt(blockSize, old(contents), k + 1), k)
    {
      hide MergeAt;
      MergeAtStarts(blockSize, contents, k + 1);
      assert newBb.block == contents[k + 1].block && bb.block == contents[k].block;
      assert k + 2 < |nodes| ==> nodes[k + 2].block == contents[k + 2].block;
      hide BackedBlock.Value;
      assert newBb.next == if k + 2 < |nodes| then nodes[k + 2] else null;
      var merged := MergeBb(newBb, newBb.next, k + 1);
      if merged == AssertFailed {
        return false;
      }
      assert nodes[k + 1] == newBb && nodes[k] == bb && bb.next == newBb;
      assert contents[k].block == old(contents)[k].block && contents[k + 1].block == old(contents)[k + 1].block;
      merged := MergeBb(bb, newBb, k);
      if merged == AssertFailed {
        return false;
      }
      if merged == Merged {
        lastUsed := bb;
        assert nodes[k] == bb;
      } else {
        assert nodes[k + 1] == newBb;
      }
      return true;
    }

    /** Both ways a block becomes the head: the hint is not touched and nothing is merged. */
    method PushFront(newBb: BackedBlock)
      requires Valid() && newBb !in repr && newBb.next == null
      modifies this`dataBlocks, this`nodes, this`contents, this`repr, newBb`next
      ensures Valid() && contents == [old(newBb.Value())] + old(contents)
      ensures repr == old(repr) + {newBb}
    {
      newBb.next := dataBlocks;
      dataBlocks := newBb;
      nodes, contents, repr := [newBb] + nodes, [newBb.Value()] + contents, repr + {newBb};
    }

    /**
     * Queues one block. The assert in `merge_bb` fires exactly when a queued block has the same start;
     * otherwise the list is what `Insert` says, wherever the search hint pointed.
     */
    method QueueBb(newBb: BackedBlock) returns (ok: bool)
      requires Valid() && Sorted(contents)
      requires newBb !in repr && newBb.next == null
      modifies this, repr, newBb
      ensures ok <==> !HasStart(old(contents), old(newBb.block))
      ensures ok ==> Valid() && contents == Insert(blockSize, old(contents), old(newBb.Value()))
      ensures ok ==> repr == old(repr) + {newBb}
    {
      hide MergeAt;
      ghost var s, b := contents, newBb.Value();
      if dataBlocks == null || dataBlocks.block > newBb.block {
        PushFront(newBb);
        return true;
      }
      var bb; ghost var k;
      bb, k := Search(newBb.block);
      StartClash(s, b.block, k);
      ok := LinkAndMerge(bb, newBb, k);
      if ok {
        InsertIs(blockSize, s, b, k + 1);
      }
    }

    /** A new block for what `bb` holds beyond its first `m` bytes. */
    method SplitOff(bb: BackedBlock, m: nat) returns (newBb: BackedBlock)
      requires blockSize > 0 && m <= bb.len
      ensures fresh(newBb) && newBb.next == null
      ensures newBb.Value() == SplitTail(blockSize, bb.Value(), m)
    {
      newBb := new BackedBlock(Block(bb.block, bb.len, bb.backing));
      newBb.len := bb.len - m;
      newBb.block := Trunc32(bb.block + m / blockSize);
      match bb.backing {
        case Data(buf, at) => newBb.backing := Data(buf, at + m);
        case File(name, offset) => newBb.backing := File(name, offset + m);
        case Fd(fd, offset) => newBb.backing := Fd(fd, offset + m);
        case Fill(_) =>
      }
    }

    /** Cuts `bb` after `maxLen` rounded down to whole blocks; a shorter block is left alone. */
    method Split(bb: BackedBlock, maxLen: nat, ghost k: nat)
      requires Valid() && k < |nodes| && nodes[k] == bb
      modifies this`nodes, this`contents, this`repr, bb
      ensures Valid() && contents == SplitAt(blockSize, old(contents), k, maxLen)
      ensures k < |nodes| && nodes[k] == bb
      ensures old(repr) <= repr && fresh(repr - old(repr))
    {
      var m := AlignDown(maxLen, blockSize);
      if bb.len <= m {
        return;
      }
      var newBb := SplitOff(bb, m);
      ghost var s := contents;
      LinkAfter(bb, newBb, k);
      bb.len := m;
      contents := contents[k := bb.Value()];
      assert contents == s[..k] + [bb.Value(), s[k].(block := newBb.block, len := newBb.len, backing := newBb.backing)] + s[k + 1..];
      assert nodes[k + 1] == newBb;
    }

    /**
     * Moves the run from `start` to `end` out of this list and into `to`; null means the first and the
     * last block. In `to` the run goes before the first later block, but never before its head.
     */
    method MoveTo(to: BackedBlockList, start: BackedBlock?, end: BackedBlock?, ghost lo: nat, ghost hi: nat)
      requires Valid() && to.Valid() && this != to && repr !! to.repr
      requires lo <= hi <= |nodes|
      requires start == null ==> lo == 0
      requires start != null ==> lo < hi && start == nodes[lo]
      requires end == null ==> hi == |nodes|
      requires end != null ==> start != null && end == nodes[hi - 1]
      modifies this, to, repr, to.repr
      ensures Valid() && to.Valid() && repr !! to.repr
      ensures repr + to.repr == old(repr + to.repr) && old(to.repr) <= to.repr
      ensures contents == old(contents)[..lo] + old(contents)[hi..]
      ensures to.contents == InsertRun(old(to.contents), old(contents)[lo..hi])
    {
      var first := start;
      if first == null {
        first := dataBlocks;
      }
      var last := end;
      if last == null {
        last := LastFrom(first, lo);
      }
      if first == null || last == null {
        return;
      }
      MoveRun(to, first, last, lo, hi);
    }

    method MoveRun(to: BackedBlockList, first: BackedBlock, last: BackedBlock, ghost lo: nat, ghost hi: nat)
      requires Valid() && to.Valid() && this != to && repr !! to.repr
      requires lo < hi <= |nodes| && first == nodes[lo] && last == nodes[hi - 1]
      modifies this, to, repr, to.repr
      ensures Valid() && to.Valid() && repr !! to.repr
      ensures repr + to.repr == old(repr + to.repr) && old(to.repr) <= to.repr
      ensures contents == old(contents)[..lo] + old(contents)[hi..]
      ensures to.contents == InsertRun(old(to.contents), old(contents)[lo..hi])
    {
      hide BackedBlock.Value;
      lastUsed := null;
      to.lastUsed := null;
      ghost var run, vals := nodes[lo..hi], contents[lo..hi];
      Unlink(first, last, lo, hi);
      to.LinkRun(first, last, run, vals);
    }

    method LastFrom(first: BackedBlock?, ghost lo: nat) returns (last: BackedBlock?)
      requires Valid()
      requires first != null ==> lo < |nodes| && first == nodes[lo]
      ensures last == null <==> first == null
      ensures last != null ==> last == nodes[|nodes| - 1]
    {
      last := first;
      ghost var j := lo;
      while last != null && last.next != null
        invariant last == null <==> first == null
        invariant last != null ==> lo <= j < |nodes| && last == nodes[j]
        decreases |nodes| - j
      {
        last := last.next;
        j := j + 1;
      }
    }

    /** Takes `nodes[lo..hi]` out of the chain; the run itself stays linked up to its last node. */
    method Unlink(first: BackedBlock, last: BackedBlock, ghost lo: nat, ghost hi: nat)
      requires Valid() && lastUsed == null && lo < hi <= |nodes|
      requires first == nodes[lo] && last == nodes[hi - 1]
      modifies this`dataBlocks, this`nodes, this`contents, this`repr, repr
      ensures Valid() && lastUsed == null
      ensures repr == old(repr) - RunSet(old(nodes)[lo..hi]) && RunSet(old(nodes)[lo..hi]) <= old(repr)
      ensures contents == old(contents)[..lo] + old(contents)[hi..]
      ensures RunLinked(old(nodes)[lo..hi], old(contents)[lo..hi])
    {
      RunOfList(lo, hi);
      if dataBlocks == first {
        assert lo == 0;
        DropFront(last, hi);
      } else {
        var bb := SearchBefore(first, lo);
        DropAfter(bb, last, lo, hi);
      }
    }

    lemma RunOfList(lo: nat, hi: nat)
      requires Linked() && lo < hi <= |nodes|
      ensures RunLinked(nodes[lo..hi], contents[lo..hi])
      ensures forall i :: 0 <= i < lo ==> nodes[i] !in RunSet(nodes[lo..hi])
      ensures forall i :: hi <= i < |nodes| ==> nodes[i] !in RunSet(nodes[lo..hi])
    {
      var run := nodes[lo..hi];
      forall i | 0 <= i < |run| - 1 ensures run[i].next == run[i + 1] {
        assert nodes[lo + i].next == nodes[lo + i + 1];
      }
    }

    method SearchBefore(first: BackedBlock, ghost lo: nat) returns (bb: BackedBlock)
      requires Valid() && 0 < lo < |nodes| && first == nodes[lo]
      ensures bb == nodes[lo - 1]
    {
      bb := dataBlocks;
      ghost var j := 0;
      while bb.next != first
        invariant j < lo && bb == nodes[j]
        decreases lo - j
      {
        assert bb.next == nodes[j + 1];
        bb := bb.next;
        j := j + 1;
      }
      assert bb.next == nodes[j + 1];
    }

    method DropFront(last: BackedBlock, ghost hi: nat)
      requires Valid() && lastUsed == null && 0 < hi <= |nodes| && last == nodes[hi - 1]
      modifies this`dataBlocks, this`nodes, this`contents, this`repr
      ensures Valid() && lastUsed == null
      ensures repr == old(repr) - RunSet(old(nodes)[..hi])
      ensures contents == old(contents)[hi..]
    {
      RunOfList(0, hi);
      assert nodes[..hi] == nodes[0..hi];
      assert last.next == if hi < |nodes| then nodes[hi] else null;
      dataBlocks := last.next;
      repr := repr - RunSet(nodes[..hi]);
      nodes, contents := nodes[hi..], contents[hi..];
    }

    method DropAfter(bb: BackedBlock, last: BackedBlock, ghost lo: nat, ghost hi: nat)
      requires Valid() && lastUsed == null && 0 < lo < hi <= |nodes|
      requires bb == nodes[lo - 1] && last == nodes[hi - 1]
      modifies this`nodes, this`contents, this`repr, bb`next
      ensures Valid() && lastUsed == null
      ensures repr == old(repr) - RunSet(old(nodes)[lo..hi])
      ensures contents == old(contents)[..lo] + old(contents)[hi..]
    {
      RunOfList(lo, hi);
      assert last.next == if hi < |nodes| then nodes[hi] else null;
      bb.next := last.next;
      ghost var was := nodes;
      repr := repr - RunSet(nodes[lo..hi]);
      nodes, contents := nodes[..lo] + nodes[hi..], contents[..lo] + contents[hi..];
      assert forall i :: 0 <= i < lo ==> nodes[i] == was[i];
      assert forall i :: lo <= i < |nodes| ==> nodes[i] == was[i + (hi - lo)];
    }

    /** Links a chain that is in no list into this one. */
    method LinkRun(first: BackedBlock, last: BackedBlock, ghost run: seq<BackedBlock>, ghost vals: seq<Block>)
      requires Valid() && lastUsed == null
      requires run != [] && first == run[0] && last == run[|run| - 1]
      requires RunLinked(run, vals) && RunSet(run) !! repr
      modifies this`dataBlocks, this`nodes, this`contents, this`repr, repr, last`next
      ensures Valid() && repr == old(repr) + RunSet(run)
      ensures contents == InsertRun(old(contents), vals)
    {
      assert first.block == vals[0].block;
      if dataBlocks == null {
        dataBlocks := first;
        last.next := null;
        nodes, contents, repr := run, vals, repr + RunSet(run);
      } else {
        var bb; ghost var k;
        bb, k := SearchRun(first.block);
        RunPositionIs(contents, first.block, k + 1);
        Splice(bb, first, last, k, run, vals);
      }
    }

    method SearchRun(block: nat) returns (bb: BackedBlock, ghost k: nat)
      requires Valid() && nodes != []
      ensures k < |nodes| && bb == nodes[k]
      ensures forall i :: 1 <= i < k + 1 ==> contents[i].block <= block
      ensures k + 1 < |nodes| ==> contents[k + 1].block > block
    {
      bb := dataBlocks;
      k := 0;
      while bb.next != null && bb.next.block <= block
        invariant k < |nodes| && bb == nodes[k]
        invariant forall i :: 1 <= i <= k ==> contents[i].block <= block
        decreases |nodes| - k
      {
        bb := bb.next;
        k := k + 1;
      }
      assert bb.next == if k + 1 < |nodes| then nodes[k + 1] else null;
    }

    method Splice(bb: BackedBlock, first: BackedBlock, last: BackedBlock, ghost k: nat,
                  ghost run: seq<BackedBlock>, ghost vals: seq<Block>)
      requires Valid() && k < |nodes| && bb == nodes[k]
      requires run != [] && first == run[0] && last == run[|run| - 1]
      requires RunLinked(run, vals) && RunSet(run) !! repr
      modifies this`nodes, this`contents, this`repr, bb`next, last`next
      ensures Valid() && repr == old(repr) + RunSet(run)
      ensures contents == old(contents)[..k + 1] + vals + old(contents)[k + 1..]
    {
      hide BackedBlock.Value;
      ghost var p, q := nodes[..k + 1], nodes[k + 1..];
      last.next := bb.next;
      bb.next := first;
      nodes, contents, repr := p + run + q, contents[..k + 1] + vals + contents[k + 1..], repr + RunSet(run);
    }
  }

  /** `t` is `s` with `x` behind its element `k`. */
  ghost predicate Placed<T>(s: seq<T>, k: nat, x: T, t: seq<T>) {
    && k < |s| && |t| == |s| + 1
    && (forall i :: 0 <= i <= k ==> t[i] == s[i])
    && t[k + 1] == x
    && (forall i :: k + 1 < i < |t| ==> t[i] == s[i - 1])
  }

  lemma PlacedIs<T>(s: seq<T>, k: nat, x: T)
    requires k < |s|
    ensures Placed(s, k, x, s[..k + 1] + [x] + s[k + 1..])
  {
  }

  lemma FirstNode(l: BackedBlockList)
    requires l.Valid()
    ensures |l.nodes| == |l.contents|
    ensures l.dataBlocks == if l.contents == [] then null else l.nodes[0]
  {
  }

  lemma NextNode(l: BackedBlockList, k: nat)
    requires l.Valid() && k < |l.nodes|
    ensures l.nodes[k] in l.repr
    ensures |l.nodes| == |l.contents| && l.nodes[k].Value() == l.contents[k]
    ensures l.nodes[k].next == if k + 1 < |l.contents| then l.nodes[k + 1] else null
  {
  }

  ghost function RunSet(run: seq<BackedBlock>): set<BackedBlock> {
    set i | 0 <= i < |run| :: run[i]
  }

  /** Distinct objects holding `vals`, each linked to the one behind it. */
  ghost predicate RunLinked(run: seq<BackedBlock>, vals: seq<Block>)
    reads run
  {
    && |run| == |vals|
    && (forall i :: 0 <= i < |run| ==> run[i].Value() == vals[i])
    && (forall i {:trigger run[i].next} :: 0 <= i < |run| - 1 ==> run[i].next == run[i + 1])
    && (forall i, j :: 0 <= i < j < |run| ==> run[i] != run[j])
  }

  /** In a sorted list a start can only clash at the place where the search stopped. */
  lemma StartClash(s: seq<Block>, block: nat, k: nat)
    requires Sorted(s) && k < |s| && s[k].block <= block
    requires k + 1 < |s| ==> s[k + 1].block >= block
    ensures HasStart(s, block) <==> s[k].block == block || (k + 1 < |s| && s[k + 1].block == block)
  {
    if HasStart(s, block) {
      var i :| 0 <= i < |s| && s[i].block == block;
    }
  }

  /** `b` placed at `k` and then merged with its successor and its predecessor. */
  function PlaceAndMerge(bs: nat, s: seq<Block>, k: nat, b: Block): seq<Block>
    requires bs > 0 && 1 <= k <= |s|
  {
    MergeAt(bs, MergeAt(bs, s[..k] + [b] + s[k..], k), k - 1)
  }

  lemma InsertIs(bs: nat, s: seq<Block>, b: Block, k: nat)
    requires bs > 0 && 1 <= k <= |s| && Sorted(s) && s[k - 1].block < b.block
    requires k < |s| ==> s[k].block >= b.block
    ensures Insert(bs, s, b) == PlaceAndMerge(bs, s, k, b)
  {
    PositionIs(s, b.block, k);
  }

  lemma PositionIs(s: seq<Block>, block: nat, k: nat)
    requires k <= |s| && (forall i :: 0 <= i < k ==> s[i].block < block)
    requires k < |s| ==> s[k].block >= block
    ensures Position(s, block) == k
  {
  }

  lemma {:induction false} RunPositionIs(s: seq<Block>, block: nat, k: nat)
    requires 1 <= k <= |s| && (forall i :: 1 <= i < k ==> s[i].block <= block)
    requires k < |s| ==> s[k].block > block
    ensures RunPosition(s, block) == k
    decreases |s|
  {
    if k > 1 {
      RunPositionIs(s[1..], block, k - 1);
    }
  }
}
