/** Reading a plain image into a sparse file, block by block. */
module NormalReader {
  import opened Wire
  import opened Arith
  import opened Blocks
  import opened Insertion
  import opened BackedBlockList
  import opened SparseFile

  /** An open image file and its read position. */
  class FdReader {
    const content: seq<byte>
    var pos: nat

    constructor (content: seq<byte>, pos: nat)
      ensures this.content == content && this.pos == pos
    {
      this.content, this.pos := content, pos;
    }

    /** `read_all`: the next `n` bytes, or failure at the end of the file. */
    method ReadAll(n: nat) returns (ok: bool, buf: seq<byte>)
      modifies this
      ensures ok <==> old(pos) + n <= |content|
      ensures ok ==> pos == old(pos) + n && buf == content[old(pos)..pos]
    {
      if pos + n > |content| {
        return false, [];
      }
      buf := content[pos..pos + n];
      pos := pos + n;
      ok := true;
    }
  }

  function WordAt(buf: seq<byte>, i: nat): u32
    requires 4 * i + 4 <= |buf|
  {
    FromLe32(buf[4 * i..4 * i + 4])
  }

  lemma PatternWord(buf: seq<byte>, v: u32, i: nat)
    requires 4 * i + 4 <= |buf|
    ensures buf[4 * i..4 * i + 4] == FillPattern(v, |buf|)[4 * i..4 * i + 4] <==> WordAt(buf, i) == v
  {
    var p := FillPattern(v, |buf|);
    forall k | 0 <= k < 4 ensures p[4 * i + k] == Le32(v)[k] {
      ModShift(i, k);
    }
    assert p[4 * i..4 * i + 4] == Le32(v);
    Le32Inverse(buf[4 * i..4 * i + 4]);
    Le32RoundTrip(v);
  }

  /** A buffer is a repeated word exactly when all its words are the same. */
  lemma WordsMakePattern(buf: seq<byte>, v: u32)
    requires |buf| % 4 == 0
    ensures buf == FillPattern(v, |buf|) <==> forall i :: 0 <= i < |buf| / 4 ==> WordAt(buf, i) == v
  {
    hide WordAt, FillPattern;
    var p := FillPattern(v, |buf|);
    if buf == p {
      forall i | 0 <= i < |buf| / 4 ensures WordAt(buf, i) == v {
        PatternWord(buf, v, i);
      }
    }
    if forall i :: 0 <= i < |buf| / 4 ==> WordAt(buf, i) == v {
      forall j | 0 <= j < |buf| ensures buf[j] == p[j] {
        var i := j / 4;
        PatternWord(buf, v, i);
        assert buf[4 * i..4 * i + 4][j % 4] == p[4 * i..4 * i + 4][j % 4];
      }
      assert buf == p;
    }
  }

  /** Whether a whole block can be kept as a fill of its first word. */
  method IsRepeatedWord(buf: seq<byte>) returns (same: bool)
    requires |buf| > 0 && |buf| % 4 == 0
    ensures same <==> buf == FillPattern(WordAt(buf, 0), |buf|)
  {
    hide WordAt, FillPattern;
    same := true;
    var i := 1;
    WordsMakePattern(buf, WordAt(buf, 0));
    while i < |buf| / 4
      invariant 1 <= i && forall k :: 0 <= k < i && k < |buf| / 4 ==> WordAt(buf, k) == WordAt(buf, 0)
    {
      if WordAt(buf, 0) != WordAt(buf, i) {
        return false;
      }
      i := i + 1;
    }
  }

  /** The list holds what it held before and the file's bytes from `start` to `offset`. */
  ghost predicate ReadSoFar(st: Store, bs: nat, s0: seq<Block>, s: seq<Block>, file: seq<byte>, start: nat, offset: nat)
    requires bs > 0 && AllBacked(st, s0)
  {
    && start <= offset <= |file|
    && Ordered(bs, 0, s) && AllBacked(st, s)
    && Denote(st, bs, s) == Denote(st, bs, s0) + Region(start, file[start..offset])
  }

  function BlockFor(buf: seq<byte>, same: bool, block: nat, fd: nat, offset: nat): Block
    requires same ==> |buf| >= 4
  {
    Block(block, |buf|, if same then Fill(WordAt(buf, 0)) else Fd(fd, offset))
  }

  /** A whole block of one repeated word is a fill; any other block, and a short one, is a piece of the file. */
  function NormalBlock(file: seq<byte>, bs: nat, fd: nat, offset: nat, n: nat, block: nat): Block
    requires bs >= 4 && offset + n <= |file|
  {
    var buf := file[offset..offset + n];
    BlockFor(buf, n == bs && buf == FillPattern(WordAt(buf, 0), n), block, fd, offset)
  }

  /** The list after the file's blocks from `offset` to `end` have been queued in turn. */
  ghost function Queued(bs: nat, s: seq<Block>, file: seq<byte>, fd: nat, offset: nat, end: nat, block: nat): seq<Block>
    requires bs >= 4 && offset <= end <= |file|
    decreases end - offset
  {
    if offset == end then s
    else
      var n := Min(end - offset, bs);
      Queued(bs, Insert(bs, s, NormalBlock(file, bs, fd, offset, n, block)), file, fd, offset + n, end, block + 1)
  }

  lemma BlockForHolds(st: Store, bs: nat, fd: nat, block: nat, offset: nat, n: nat, same: bool)
    requires bs > 0 && offset == block * bs && 0 < n <= bs
    requires fd in st.fds && offset + n <= |st.fds[fd]|
    requires var buf := st.fds[fd][offset..offset + n]; same ==> n >= 4 && buf == FillPattern(WordAt(buf, 0), n)
    ensures var b := BlockFor(st.fds[fd][offset..offset + n], same, block, fd, offset);
      && Backed(st, b) && End(bs, b) == block + 1
      && BlockMap(st, bs, b) == Region(offset, st.fds[fd][offset..offset + n])
  {
    DivRoundUpUnique(n, bs, 1);
  }

  /** What adding one more block of the file does to the list. */
  lemma AddsBlock(st: Store, bs: nat, s0: seq<Block>, s: seq<Block>, fd: nat, start: nat, offset: nat, n: nat, block: nat, b: Block)
    requires bs > 0 && bs % 4 == 0 && AllBacked(st, s0) && fd in st.fds
    requires ReadSoFar(st, bs, s0, s, st.fds[fd], start, offset) && EndOf(bs, 0, s) <= block
    requires offset + n <= |st.fds[fd]| && b.len == n > 0 && b.block == block && End(bs, b) == block + 1 < U32
    requires Backed(st, b) && BlockMap(st, bs, b) == Region(offset, st.fds[fd][offset..offset + n])
    ensures ReadSoFar(st, bs, s0, Insert(bs, s, b), st.fds[fd], start, offset + n)
    ensures EndOf(bs, 0, Insert(bs, s, b)) == block + 1 && !HasStart(s, block)
  {
    hide Ordered, EndOf, Denote, BlockMap, Insert, Region, AllBacked;
    var file := st.fds[fd];
    OrderedEndOf(bs, 0, s);
    InsertDenotes(st, bs, 0, s, b);
    assert file[start..offset + n] == file[start..offset] + file[offset..offset + n];
    RegionAppend(start, file[start..offset], file[offset..offset + n]);
    UnionAssociates(Denote(st, bs, s0), Region(start, file[start..offset]), Region(offset, file[offset..offset + n]));
  }

  lemma NothingRead(st: Store, bs: nat, s: seq<Block>, file: seq<byte>, offset: nat)
    requires bs > 0 && AllBacked(st, s) && Ordered(bs, 0, s) && offset <= |file|
    ensures ReadSoFar(st, bs, s, s, file, offset, offset)
  {
    assert file[offset..offset] == [];
    assert Region(offset, []) == map[];
    assert Denote(st, bs, s) + map[] == Denote(st, bs, s);
  }

  /** One turn of the loop: read up to a block, and queue it as a fill or as a piece of the file. */
  method ReadBlock(s: SparseFile, fd: nat, src: FdReader, offset: nat, block: nat, toRead: nat, st: Store,
                   ghost s0: seq<Block>, ghost start: nat) returns (ok: bool)
    requires s.Valid() && s.blockSize % 4 == 0 && AllBacked(st, s0)
    requires fd in st.fds && src.content == st.fds[fd] && src.pos == offset == block * s.blockSize
    requires ReadSoFar(st, s.blockSize, s0, s.list.contents, src.content, start, offset)
    requires EndOf(s.blockSize, 0, s.list.contents) <= block && block + 1 < U32 && 0 < toRead <= s.blockSize
    requires Whole(s.blockSize, s.list.contents)
    modifies s.list, s.list.repr, src
    ensures ok <==> offset + toRead <= |src.content|
    ensures ok ==> s.Valid() && src.pos == offset + toRead
    ensures ok ==> ReadSoFar(st, s.blockSize, s0, s.list.contents, src.content, start, offset + toRead)
    ensures ok ==> EndOf(s.blockSize, 0, s.list.contents) == block + 1
    ensures ok ==> (s.list.contents ==
      Insert(s.blockSize, old(s.list.contents), NormalBlock(src.content, s.blockSize, fd, offset, toRead, block)))
    ensures ok && toRead == s.blockSize ==> Whole(s.blockSize, s.list.contents)
    ensures fresh(s.list.repr - old(s.list.repr)) || !ok
  {
    hide Ordered, EndOf, Denote, BlockMap, Insert, Region, AllBacked, BackedBlockList.Linked, HasStart, Whole, FillPattern, Sorted, WordAt;
    var buf;
    ok, buf := src.ReadAll(toRead);
    if !ok {
      return;
    }
    var same := false;
    if toRead == s.blockSize {
      same := IsRepeatedWord(buf);
    }
    var b := BlockFor(buf, same, block, fd, offset);
    BlockForHolds(st, s.blockSize, fd, block, offset, toRead, same);
    AddsBlock(st, s.blockSize, s0, s.list.contents, fd, start, offset, toRead, block, b);
    OrderedIsSorted(s.blockSize, 0, s.list.contents);
    if toRead == s.blockSize {
      DivRoundUpOfMultiple(1, s.blockSize);
      InsertWhole(s.blockSize, s.list.contents, b);
    }
    var _ := s.Add(b);
  }

  /**
   * `do_sparse_file_read_normal`: fails exactly when the file is too short; otherwise the list holds
   * what it held and the bytes of the range, queued block by block, repeated words as fills.
   */
  method DoReadNormal(s: SparseFile, fd: nat, src: FdReader, offsetIn: nat, remainIn: nat, st: Store) returns (ok: bool)
    requires s.Valid() && s.blockSize % 4 == 0 && offsetIn % s.blockSize == 0
    requires fd in st.fds && src.content == st.fds[fd] && src.pos == offsetIn <= |src.content|
    requires Ordered(s.blockSize, 0, s.list.contents) && AllBacked(st, s.list.contents) && Whole(s.blockSize, s.list.contents)
    requires EndOf(s.blockSize, 0, s.list.contents) <= offsetIn / s.blockSize
    requires DivRoundUp(offsetIn + remainIn, s.blockSize) < U32
    modifies s.list, s.list.repr, src
    ensures ok <==> offsetIn + remainIn <= |src.content|
    ensures ok ==> s.Valid() && fresh(s.list.repr - old(s.list.repr))
    ensures ok ==> ReadSoFar(st, s.blockSize, old(s.list.contents), s.list.contents, src.content, offsetIn, offsetIn + remainIn)
    ensures ok ==> s.list.contents == Queued(s.blockSize, old(s.list.contents), src.content, fd, offsetIn,
                                             offsetIn + remainIn, offsetIn / s.blockSize)
    ensures ok && remainIn > 0 ==>
      EndOf(s.blockSize, 0, s.list.contents) == DivRoundUp(offsetIn + remainIn, s.blockSize)
    ensures ok && remainIn % s.blockSize == 0 ==> Whole(s.blockSize, s.list.contents)
  {
    hide Ordered, EndOf, AllBacked, BackedBlockList.Linked, Whole, ReadSoFar, DivRoundUp, Stands, NormalBlock, Insert, Queued;
    var bs := s.blockSize;
    var block := offsetIn / bs;
    var offset, remain := offsetIn, remainIn;
    ghost var s0, end, whole := s.list.contents, offsetIn + remainIn, remainIn % bs == 0;
    assert bs >= 4;
    ghost var target := if end <= |src.content| then Queued(bs, s0, src.content, fd, offset, end, block) else [];
    NothingRead(st, bs, s0, src.content, offset);
    StandsAtStart(bs, offset, remain);
    while remain > 0
      invariant s.Valid() && fresh(s.list.repr - old(s.list.repr))
      invariant 0 <= remain && 0 <= block && 0 <= offset && offset + remain == end
      invariant Stands(bs, end, whole, offset, remain, block)
      invariant src.pos == offset <= |src.content|
      invariant ReadSoFar(st, bs, s0, s.list.contents, src.content, offsetIn, offset)
      invariant EndOf(bs, 0, s.list.contents) <= block
      invariant end <= |src.content| ==>
        Queued(bs, s.list.contents, src.content, fd, offset, end, block) == target
      invariant remain > 0 || whole ==> Whole(bs, s.list.contents)
      invariant remain == 0 ==> remainIn == 0 || EndOf(bs, 0, s.list.contents) == DivRoundUp(end, bs)
    {
      var toRead := Min(remain, bs);
      if end <= |src.content| {
        QueuedStep(bs, s.list.contents, src.content, fd, offset, end, block);
      }
      StandsAfter(bs, end, whole, offset, remain, block, toRead);
      ok := ReadBlock(s, fd, src, offset, block, toRead, st, s0, offsetIn);
      if !ok {
        return;
      }
      remain := remain - toRead;
      offset := offset + toRead;
      block := block + 1;
    }
    QueuedEnd(bs, s.list.contents, src.content, fd, end, block);
    ok := true;
  }

  lemma QueuedStep(bs: nat, s: seq<Block>, file: seq<byte>, fd: nat, offset: nat, end: nat, block: nat)
    requires bs >= 4 && offset < end <= |file|
    ensures var n := Min(end - offset, bs);
      Queued(bs, s, file, fd, offset, end, block) ==
      Queued(bs, Insert(bs, s, NormalBlock(file, bs, fd, offset, n, block)), file, fd, offset + n, end, block + 1)
  {
  }

  lemma QueuedEnd(bs: nat, s: seq<Block>, file: seq<byte>, fd: nat, end: nat, block: nat)
    requires bs >= 4 && end <= |file|
    ensures Queued(bs, s, file, fd, end, end, block) == s
  {
  }

  /** Where the loop stands: on a block boundary as long as anything is left. */
  ghost predicate Stands(bs: nat, end: nat, whole: bool, offset: nat, remain: nat, block: nat)
    requires bs > 0
  {
    && offset + remain == end
    && (remain > 0 ==> offset == block * bs && (whole <==> remain % bs == 0))
  }

  lemma StandsAtStart(bs: nat, offset: nat, remain: nat)
    requires bs > 0 && offset % bs == 0
    ensures Stands(bs, offset + remain, remain % bs == 0, offset, remain, offset / bs)
  {
    RoundingAgrees(offset, bs);
  }

  lemma StandsAfter(bs: nat, end: nat, whole: bool, offset: nat, remain: nat, block: nat, n: nat)
    requires bs > 0 && remain > 0 && Stands(bs, end, whole, offset, remain, block) && n == Min(remain, bs)
    requires DivRoundUp(end, bs) < U32
    ensures offset == block * bs && block + 1 < U32 && 0 < n <= bs && n <= remain
    ensures Stands(bs, end, whole, offset + n, remain - n, block + 1)
    ensures remain == n ==> DivRoundUp(end, bs) == block + 1
    ensures whole ==> n == bs
    ensures n < bs ==> remain == n
  {
    DivRoundUpSplit(end, block, bs);
    AlignBounds(remain, bs);
    Distribute(block, 1, bs);
    if remain < bs {
      QuotientUnique(remain, bs, 0);
      DivMod(remain, bs);
    } else {
      LessOneBlock(remain, bs);
    }
    if remain == n {
      DivRoundUpUnique(remain, bs, 1);
    }
  }

  lemma LessOneBlock(n: nat, bs: nat)
    requires bs > 0 && n >= bs
    ensures (n - bs) % bs == n % bs
  {
    DivMod(n - bs, bs);
    var q := (n - bs) / bs;
    Distribute(q, 1, bs);
    QuotientUnique(n, bs, q + 1);
    DivMod(n, bs);
  }
}
