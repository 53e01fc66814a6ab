/** Backed blocks as values, and the one meaning every operation on them is stated against. */
module Blocks {
  import opened Wire
  import opened Arith

  /** Where the bytes of a block come from: memory, a named file, an open descriptor, a repeated word. */
  datatype Backing =
    | Data(buf: seq<byte>, at: nat)
    | File(name: string, offset: nat)
    | Fd(fd: nat, fdOffset: nat)
    | Fill(val: u32)

  datatype Block = Block(block: nat, len: nat, backing: Backing)

  /** The immutable file contents that `File` and `Fd` blocks point into. */
  datatype Store = Store(files: map<string, seq<byte>>, fds: map<nat, seq<byte>>)

  predicate Backed(st: Store, b: Block) {
    match b.backing
    case Data(buf, at) => at + b.len <= |buf|
    case File(name, offset) => name in st.files && offset + b.len <= |st.files[name]|
    case Fd(fd, offset) => fd in st.fds && offset + b.len <= |st.fds[fd]|
    case Fill(_) => true
  }

  predicate AllBacked(st: Store, s: seq<Block>) {
    forall i :: 0 <= i < |s| ==> Backed(st, s[i])
  }

  function FillPattern(val: u32, n: nat): (s: seq<byte>)
    ensures |s| == n
  {
    seq(n, i requires 0 <= i < n => Le32(val)[i % 4])
  }

  function Content(st: Store, b: Block): (s: seq<byte>)
    requires Backed(st, b)
    ensures |s| == b.len
  {
    match b.backing
    case Data(buf, at) => buf[at..at + b.len]
    case File(name, offset) => st.files[name][offset..offset + b.len]
    case Fd(fd, offset) => st.fds[fd][offset..offset + b.len]
    case Fill(val) => FillPattern(val, b.len)
  }

  /** One past the last block number that `b` occupies. */
  function End(bs: nat, b: Block): nat
    requires bs > 0
  {
    b.block + DivRoundUp(b.len, bs)
  }

  predicate Covers(from: nat, n: nat, i: nat) {
    from <= i < from + n
  }

  /** The bytes `s` laid out from offset `from`. */
  ghost function Region(from: nat, s: seq<byte>): map<nat, byte> {
    map i: nat | i < from + |s| && Covers(from, |s|, i) :: s[i - from]
  }

  lemma RegionAppend(from: nat, s: seq<byte>, t: seq<byte>)
    ensures Region(from, s + t) == Region(from, s) + Region(from + |s|, t)
  {
  }

  /** The partial map from image offset to byte that a single block stands for. */
  ghost function BlockMap(st: Store, bs: nat, b: Block): map<nat, byte>
    requires Backed(st, b)
  {
    Region(b.block * bs, Content(st, b))
  }

  /** The partial map that a list of blocks stands for; offsets in gaps are not in its domain. */
  ghost function Denote(st: Store, bs: nat, s: seq<Block>): map<nat, byte>
    requires AllBacked(st, s)
  {
    if s == [] then map[] else BlockMap(st, bs, s[0]) + Denote(st, bs, s[1..])
  }

  /** Non-empty blocks in ascending order from block number `from` on, none overlapping the next. */
  predicate Ordered(bs: nat, from: nat, s: seq<Block>)
    requires bs > 0
    decreases |s|
  {
    s == [] ||
    (from <= s[0].block && s[0].len > 0 && Ordered(bs, End(bs, s[0]), s[1..]))
  }

  /** The value of `last_block` after the writer has gone over `s`, starting from `from`. */
  function EndOf(bs: nat, from: nat, s: seq<Block>): nat
    requires bs > 0
    decreases |s|
  {
    if s == [] then from else EndOf(bs, End(bs, s[0]), s[1..])
  }

  lemma {:induction false} EndOfAppend(bs: nat, from: nat, s: seq<Block>, t: seq<Block>)
    requires bs > 0
    ensures EndOf(bs, from, s + t) == EndOf(bs, EndOf(bs, from, s), t)
    decreases |s|
  {
    if s == [] {
      assert s + t == t;
    } else {
      EndOfAppend(bs, End(bs, s[0]), s[1..], t);
      assert (s + t)[1..] == s[1..] + t;
    }
  }

  lemma EndOfSnoc(bs: nat, s: seq<Block>, b: Block)
    requires bs > 0
    ensures EndOf(bs, 0, s + [b]) == End(bs, b)
  {
    EndOfAppend(bs, 0, s, [b]);
    assert [b][1..] == [];
  }

  lemma {:induction false} OrderedAppend(bs: nat, from: nat, s: seq<Block>, t: seq<Block>)
    requires bs > 0
    ensures Ordered(bs, from, s + t) <==> Ordered(bs, from, s) && Ordered(bs, EndOf(bs, from, s), t)
    decreases |s|
  {
    if s == [] {
      assert s + t == t;
    } else {
      OrderedAppend(bs, End(bs, s[0]), s[1..], t);
      assert (s + t)[1..] == s[1..] + t;
    }
  }

  lemma UnionAssociates(a: map<nat, byte>, b: map<nat, byte>, c: map<nat, byte>)
    ensures (a + b) + c == a + (b + c)
  {
  }

  lemma EmptyUnion(a: map<nat, byte>)
    ensures map[] + a == a
  {
  }

  lemma UnionEmpty(a: map<nat, byte>)
    ensures a + map[] == a
  {
  }

  lemma DenoteCons(st: Store, bs: nat, b: Block, s: seq<Block>)
    requires Backed(st, b) && AllBacked(st, s)
    ensures AllBacked(st, [b] + s)
    ensures Denote(st, bs, [b] + s) == BlockMap(st, bs, b) + Denote(st, bs, s)
  {
    assert ([b] + s)[1..] == s;
  }

  lemma {:induction false} DenoteAppend(st: Store, bs: nat, s: seq<Block>, t: seq<Block>)
    requires AllBacked(st, s) && AllBacked(st, t)
    ensures AllBacked(st, s + t)
    ensures Denote(st, bs, s + t) == Denote(st, bs, s) + Denote(st, bs, t)
    decreases |s|
  {
    if s == [] {
      assert s + t == t;
      EmptyUnion(Denote(st, bs, t));
    } else {
      var b, r := s[0], s[1..];
      assert s == [b] + r && s + t == [b] + (r + t);
      DenoteAppend(st, bs, r, t);
      DenoteCons(st, bs, b, r);
      DenoteCons(st, bs, b, r + t);
      UnionAssociates(BlockMap(st, bs, b), Denote(st, bs, r), Denote(st, bs, t));
    }
  }

  lemma DenoteOne(st: Store, bs: nat, b: Block)
    requires Backed(st, b)
    ensures Denote(st, bs, [b]) == BlockMap(st, bs, b)
  {
    assert [b][1..] == [];
  }

  lemma {:induction false} OrderedEndOf(bs: nat, from: nat, s: seq<Block>)
    requires bs > 0 && Ordered(bs, from, s)
    ensures EndOf(bs, from, s) >= from
    ensures forall i :: 0 <= i < |s| ==> from <= s[i].block && s[i].len > 0
    ensures forall i :: 0 <= i < |s| ==> s[i].block < End(bs, s[i]) <= EndOf(bs, from, s)
    ensures s != [] ==> EndOf(bs, from, s) == End(bs, s[|s| - 1]) > from
    decreases |s|
  {
    if s != [] {
      AlignBounds(s[0].len, bs);
      OrderedEndOf(bs, End(bs, s[0]), s[1..]);
      forall i | 0 <= i < |s|
        ensures from <= s[i].block && s[i].len > 0
        ensures s[i].block < End(bs, s[i]) <= EndOf(bs, from, s)
      {
        if i > 0 { assert s[i] == s[1..][i - 1]; }
      }
    }
  }

  /** In an ordered list every earlier block ends no later than any later one starts. */
  lemma {:induction false} OrderedPairs(bs: nat, from: nat, s: seq<Block>, i: nat, j: nat)
    requires bs > 0 && Ordered(bs, from, s) && i < j < |s|
    ensures End(bs, s[i]) <= s[j].block && s[i].block < s[j].block
    decreases |s|
  {
    if i == 0 {
      OrderedEndOf(bs, End(bs, s[0]), s[1..]);
      AlignBounds(s[0].len, bs);
      assert s[j] == s[1..][j - 1];
    } else {
      OrderedPairs(bs, End(bs, s[0]), s[1..], i - 1, j - 1);
    }
  }

  lemma BlockMapDomain(st: Store, bs: nat, b: Block, i: nat)
    requires bs > 0 && Backed(st, b) && i in BlockMap(st, bs, b)
    ensures b.block * bs <= i < End(bs, b) * bs
  {
    AlignBounds(b.len, bs);
    Distribute(b.block, DivRoundUp(b.len, bs), bs);
  }

  lemma {:induction false} DenoteDomain(st: Store, bs: nat, from: nat, s: seq<Block>, i: nat)
    requires bs > 0 && AllBacked(st, s) && Ordered(bs, from, s) && i in Denote(st, bs, s)
    ensures from * bs <= i < EndOf(bs, from, s) * bs
    decreases |s|
  {
    var e := End(bs, s[0]);
    OrderedEndOf(bs, from, s);
    OrderedEndOf(bs, e, s[1..]);
    if i in Denote(st, bs, s[1..]) {
      DenoteDomain(st, bs, e, s[1..], i);
      MulMono(from, e, bs);
    } else {
      BlockMapDomain(st, bs, s[0], i);
      MulMono(from, s[0].block, bs);
      MulMono(e, EndOf(bs, from, s), bs);
    }
  }

  // ---- splitting a block ----

  function Advance(b: Backing, n: nat): Backing {
    match b
    case Data(buf, at) => Data(buf, at + n)
    case File(name, offset) => File(name, offset + n)
    case Fd(fd, offset) => Fd(fd, offset + n)
    case Fill(_) => b
  }

  function SplitHead(b: Block, n: nat): Block {
    b.(len := n)
  }

  function SplitTail(bs: nat, b: Block, n: nat): Block
    requires bs > 0 && n <= b.len
  {
    Block(Trunc32(b.block + n / bs), b.len - n, Advance(b.backing, n))
  }

  lemma SplitGeometry(bs: nat, b: Block, n: nat)
    requires bs > 0 && n % bs == 0 && n <= b.len && b.block + n / bs < U32
    ensures var h, t := SplitHead(b, n), SplitTail(bs, b, n);
      && End(bs, h) == t.block && End(bs, t) == End(bs, b)
      && n == (n / bs) * bs && t.block == b.block + n / bs && t.block * bs == b.block * bs + n
  {
    RoundingAgrees(n, bs);
    DivRoundUpSplit(b.len, n / bs, bs);
    Distribute(b.block, n / bs, bs);
  }

  /** A block cut at a block boundary: the two parts hold exactly its bytes. */
  lemma SplitDenotes(st: Store, bs: nat, b: Block, n: nat)
    requires bs > 0 && bs % 4 == 0 && Backed(st, b)
    requires n % bs == 0 && n <= b.len && b.block + n / bs < U32
    ensures var h, t := SplitHead(b, n), SplitTail(bs, b, n);
      && Backed(st, h) && Backed(st, t)
      && BlockMap(st, bs, h) + BlockMap(st, bs, t) == BlockMap(st, bs, b)
  {
    var h, t := SplitHead(b, n), SplitTail(bs, b, n);
    SplitGeometry(bs, b, n);
    ContentCut(st, b, h, t, n / bs, bs);
    RegionAppend(b.block * bs, Content(st, h), Content(st, t));
  }

  lemma ContentCut(st: Store, b: Block, h: Block, t: Block, q: nat, bs: nat)
    requires Backed(st, b) && bs % 4 == 0
    requires h.len == q * bs && h.len + t.len == b.len
    requires h.backing == b.backing && t.backing == Advance(b.backing, h.len)
    ensures Backed(st, h) && Backed(st, t)
    ensures Content(st, b) == Content(st, h) + Content(st, t)
  {
    if b.backing.Fill? {
      forall i | 0 <= i < t.len
        ensures Content(st, b)[h.len + i] == Content(st, t)[i]
      {
        WordPhase(q, bs, i);
      }
    }
  }

  // ---- joining two neighbours ----

  /** The test of `merge_bb`: same kind, adjacent by the rounded-down length, and contiguous backing. */
  predicate Joinable(bs: nat, a: Block, b: Block)
    requires bs > 0
  {
    && Trunc32(a.block + Trunc32(a.len / bs)) == b.block
    && match (a.backing, b.backing) {
         case (Data(_, _), Data(_, _)) => false
         case (Fill(v), Fill(w)) => v == w
         case (File(n, o), File(m, p)) => n == m && o + a.len == p
         case (Fd(f, o), Fd(g, p)) => f == g && o + a.len == p
         case _ => false
       }
  }

  function Join(a: Block, b: Block): Block {
    a.(len := a.len + b.len)
  }

  lemma JoinGeometry(bs: nat, a: Block, b: Block)
    requires bs > 0 && End(bs, a) <= b.block < U32 && Joinable(bs, a, b)
    ensures a.len == (a.len / bs) * bs && End(bs, a) == b.block == a.block + a.len / bs
    ensures b.block * bs == a.block * bs + a.len
    ensures End(bs, Join(a, b)) == End(bs, b)
  {
    hide DivRoundUp;
    var q := a.len / bs;
    RoundingAgrees(a.len, bs);
    assert a.block + q == b.block;
    assert a.len == q * bs;
    Distribute(a.block, q, bs);
    DivRoundUpSplit(a.len + b.len, q, bs);
  }

  /**
   * Although adjacency is tested with the length rounded down, two disjoint blocks can only pass the
   * test when the first one fills its blocks exactly, and then the joined block has both contents.
   */
  lemma JoinDenotes(st: Store, bs: nat, a: Block, b: Block)
    requires bs > 0 && bs % 4 == 0 && Backed(st, a) && Backed(st, b)
    requires End(bs, a) <= b.block < U32 && Joinable(bs, a, b)
    ensures End(bs, a) == b.block && End(bs, Join(a, b)) == End(bs, b)
    ensures Backed(st, Join(a, b))
    ensures BlockMap(st, bs, Join(a, b)) == BlockMap(st, bs, a) + BlockMap(st, bs, b)
  {
    JoinGeometry(bs, a, b);
    assert b.backing == Advance(a.backing, a.len);
    ContentCut(st, Join(a, b), a, b, a.len / bs, bs);
    RegionAppend(a.block * bs, Content(st, a), Content(st, b));
  }

  /** Without disjointness the rounded-down test joins blocks whose bytes the join does not keep. */
  lemma JoinNeedsDisjointness(st: Store)
    ensures var a, b := Block(0, 5, Fill(1)), Block(1, 4, Fill(1));
      && Joinable(4, a, b) && End(4, a) > b.block
      && BlockMap(st, 4, Join(a, b)) != BlockMap(st, 4, a) + BlockMap(st, 4, b)
  {
    var a, b := Block(0, 5, Fill(1)), Block(1, 4, Fill(1));
    assert 8 in BlockMap(st, 4, Join(a, b));
    assert 8 !in BlockMap(st, 4, a) && 8 !in BlockMap(st, 4, b);
  }
}
