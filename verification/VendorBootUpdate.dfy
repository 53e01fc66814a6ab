/** The rewriter of vendor_boot images: two cursors, and the replacement of one ramdisk fragment. */
module VendorBootUpdate {
  import opened Wire
  import opened Arith
  import opened VendorBoot

  datatype UpdateError = BadHeader | TooSmall | TooManyEntries | NotFound | NotUnique | Overflow | OffsetMismatch

  datatype Result<+T> = Ok(value: T) | Err(error: UpdateError)

  /** `w` and zeros up to `size`. */
  function Padded(w: seq<byte>, size: nat): (r: seq<byte>)
    requires |w| <= size
    ensures |r| == size
  {
    w + Zeros(size - |w|)
  }

  lemma StoreExtends(w: seq<byte>, size: nat, src: seq<byte>)
    requires |w| + |src| <= size
    ensures Overwrite(Padded(w, size), |w|, src) == Padded(w + src, size)
  {
  }

  lemma SkipExtends(w: seq<byte>, size: nat, n: nat)
    requires |w| + n <= size
    ensures Padded(w, size) == Padded(w + Zeros(n), size)
  {
  }

  lemma PokePadded(w: seq<byte>, size: nat, at: nat, v: u32)
    requires |w| <= size && at + 4 <= |w|
    ensures Poke32(Padded(w, size), at, v) == Padded(Poke32(w, at, v), size)
    ensures U32At(Padded(w, size), at) == U32At(w, at)
  {
    PokeFront(w, Zeros(size - |w|), at, v);
  }

  /** A new buffer of the same size, filled while a cursor moves over each of the two. */
  class DataUpdater {
    const oldData: seq<byte>
    var newData: seq<byte>
    var oldPos: nat
    var newPos: nat

    ghost predicate Valid()
      reads this
    {
      |newData| == |oldData| && oldPos <= |oldData| && newPos <= |oldData|
    }

    /** `w` has been written from the start up to the cursor, and nothing behind it. */
    ghost predicate Holds(w: seq<byte>)
      reads this
    {
      Valid() && newPos == |w| && newData == Padded(w, |oldData|)
    }

    constructor (oldData: seq<byte>)
      ensures this.oldData == oldData && Holds([]) && oldPos == 0
    {
      this.oldData := oldData;
      newData, oldPos, newPos := Zeros(|oldData|), 0, 0;
    }

    method Copy(n: nat, ghost w: seq<byte>) returns (ok: bool)
      requires Holds(w)
      modifies this
      ensures Valid()
      ensures ok <==> old(oldPos) + n <= |oldData| && old(newPos) + n <= |oldData|
      ensures ok ==> oldPos == old(oldPos) + n && Holds(w + oldData[old(oldPos)..oldPos])
    {
      hide Padded, Overwrite;
      if n == 0 {
        assert w + oldData[oldPos..oldPos] == w;
        return true;
      }
      if oldPos + n > |oldData| || newPos + n > |oldData| {
        return false;
      }
      StoreExtends(w, |oldData|, oldData[oldPos..oldPos + n]);
      newData := Overwrite(newData, newPos, oldData[oldPos..oldPos + n]);
      oldPos, newPos := oldPos + n, newPos + n;
      ok := true;
    }

    method Replace(oldBytes: nat, data: seq<byte>, ghost w: seq<byte>) returns (ok: bool)
      requires Holds(w)
      modifies this
      ensures Valid()
      ensures ok <==> old(oldPos) + oldBytes <= |oldData| && old(newPos) + |data| <= |oldData|
      ensures ok ==> oldPos == old(oldPos) + oldBytes && Holds(w + data)
    {
      hide Padded, Overwrite;
      if oldPos + oldBytes > |oldData| {
        return false;
      }
      oldPos := oldPos + oldBytes;
      if |data| == 0 {
        assert w + data == w;
        return true;
      }
      if newPos + |data| > |oldData| {
        return false;
      }
      StoreExtends(w, |oldData|, data);
      newData := Overwrite(newData, newPos, data);
      newPos := newPos + |data|;
      ok := true;
    }

    method Skip(oldSkip: nat, newSkip: nat, ghost w: seq<byte>) returns (ok: bool)
      requires Holds(w)
      modifies this
      ensures Valid()
      ensures ok <==> old(oldPos) + oldSkip <= |oldData| && old(newPos) + newSkip <= |oldData|
      ensures ok ==> oldPos == old(oldPos) + oldSkip && Holds(w + Zeros(newSkip))
    {
      hide Padded;
      if oldPos + oldSkip > |oldData| {
        return false;
      }
      oldPos := oldPos + oldSkip;
      if newPos + newSkip > |oldData| {
        return false;
      }
      SkipExtends(w, |oldData|, newSkip);
      newPos := newPos + newSkip;
      ok := true;
    }

    method CheckOffset(oldOffset: nat, newOffset: nat) returns (ok: bool)
      ensures ok <==> oldPos == oldOffset && newPos == newOffset
    {
      ok := oldPos == oldOffset && newPos == newOffset;
    }

    /** A 32-bit field of what has already been written. */
    method Set32(at: nat, v: u32, ghost w: seq<byte>)
      requires Holds(w) && at + 4 <= newPos
      modifies this`newData
      ensures Holds(Poke32(w, at, v))
    {
      hide Padded, Poke32;
      PokePadded(w, |oldData|, at, v);
      newData := Poke32(newData, at, v);
    }

    method Get32(at: nat, ghost w: seq<byte>) returns (v: u32)
      requires Holds(w) && at + 4 <= newPos
      ensures v == U32At(w, at)
    {
      PokePadded(w, |oldData|, at, 0);
      v := U32At(newData, at);
    }

    /** `copy_avb_footer`: both cursors to the end, and the footer across if there is one. */
    method CopyAvbFooter(l: Layout)
      requires Valid()
      modifies this
      ensures var f := FooterOf(l, oldData);
        newData == old(newData)[..|oldData| - |f|] + f
    {
      if |oldData| < l.footerSize {
        assert old(newData)[..|oldData|] + [] == old(newData);
        return;
      }
      oldPos, newPos := |oldData| - l.footerSize, |oldData| - l.footerSize;
      if |l.footerMagic| > l.footerSize || !(l.footerMagic <= oldData[oldPos..]) {
        assert old(newData)[..|oldData|] + [] == old(newData);
        return;
      }
      newData := Overwrite(newData, newPos, oldData[oldPos..]);
      oldPos, newPos := |oldData|, |oldData|;
    }
  }

  // ---- finding the fragment ----

  /** A fixed-size name up to its first zero byte. */
  function UpToZero(s: seq<byte>): (r: seq<byte>)
  {
    if s == [] || s[0] == 0 then [] else [s[0]] + UpToZero(s[1..])
  }

  function NameOf(l: Layout, e: seq<byte>): seq<byte>
    requires WellFormed(l) && |e| == l.structSize
  {
    UpToZero(e[l.nameAt..l.nameAt + l.nameSize])
  }

  predicate Named(l: Layout, es: seq<seq<byte>>, i: nat, name: seq<byte>)
    requires WellFormed(l) && Entries(l, es)
  {
    i < |es| && NameOf(l, es[i]) == name
  }

  /** `find_unique_ramdisk`: the one entry of that name; none and more than one are errors. */
  method FindUniqueRamdisk(l: Layout, name: seq<byte>, es: seq<seq<byte>>) returns (r: Result<nat>)
    requires WellFormed(l) && Entries(l, es)
    ensures r.Ok? <==> exists i :: Named(l, es, i, name) && forall j :: Named(l, es, j, name) ==> j == i
    ensures r.Ok? ==> Named(l, es, r.value, name) && forall j :: Named(l, es, j, name) ==> j == r.value
    ensures r == Err(NotFound) <==> forall i :: !Named(l, es, i, name)
    ensures r.Err? ==> r.error == NotFound || r.error == NotUnique
  {
    var found := |es|;
    var idx := 0;
    while idx < |es|
      invariant 0 <= idx <= |es| && 0 <= found <= |es|
      invariant found == |es| ==> forall i :: 0 <= i < idx ==> !Named(l, es, i, name)
      invariant found < |es| ==> found < idx && Named(l, es, found, name)
      invariant found < |es| ==> forall i :: 0 <= i < idx && Named(l, es, i, name) ==> i == found
    {
      if NameOf(l, es[idx]) == name {
        assert Named(l, es, idx, name);
        if found < |es| {
          return Err(NotUnique);
        }
        found := idx;
      }
      idx := idx + 1;
    }
    if found == |es| {
      return Err(NotFound);
    }
    r := Ok(found);
  }

  // ---- prefixes of the fragments ----

  lemma SumStep(sizes: seq<nat>, i: nat)
    requires i < |sizes|
    ensures Sum(sizes[..i + 1]) == Sum(sizes[..i]) + sizes[i] <= Sum(sizes)
  {
    assert sizes[..i + 1] == sizes[..i] + [sizes[i]];
    SumAppend(sizes[..i], [sizes[i]]);
    assert [sizes[i]][1..] == [];
    assert sizes == sizes[..i + 1] + sizes[i + 1..];
    SumAppend(sizes[..i + 1], sizes[i + 1..]);
  }

  lemma FlatStep(ps: seq<seq<byte>>, i: nat)
    requires i < |ps|
    ensures Flat(ps[..i + 1]) == Flat(ps[..i]) + ps[i]
  {
    assert ps[..i + 1] == ps[..i] + [ps[i]];
    FlatAppend(ps[..i], [ps[i]]);
    FlatOne(ps[i]);
  }

  lemma {:induction false} CutAt(s: seq<byte>, at: nat, sizes: seq<nat>, i: nat)
    requires at + Sum(sizes) <= |s| && i < |sizes|
    ensures at + Sum(sizes[..i]) + sizes[i] <= |s|
    ensures Cut(s, at, sizes)[i] == s[at + Sum(sizes[..i])..at + Sum(sizes[..i]) + sizes[i]]
    decreases |sizes|
  {
    SumStep(sizes, i);
    if i > 0 {
      CutAt(s, at + sizes[0], sizes[1..], i - 1);
      assert sizes[..i][1..] == sizes[1..][..i - 1];
    }
  }

  lemma {:induction false} TableAt(l: Layout, es: seq<seq<byte>>, frags: seq<seq<byte>>, offset: nat, i: nat)
    requires WellFormed(l) && |es| == |frags| && Entries(l, es) && i < |es|
    ensures Table(l, es, frags, offset)[i] == Entry(l, es[i], offset + |Flat(frags[..i])|, |frags[i]|)
    decreases |es|
  {
    hide WellFormed, Entry;
    if i > 0 {
      TableAt(l, es[1..], frags[1..], offset + |frags[0]|, i - 1);
      assert frags[..i][1..] == frags[1..][..i - 1];
    }
  }

  /** Writing an entry's own size into it changes nothing but the offset. */
  lemma EntryKept(l: Layout, e: seq<byte>, offset: u32)
    requires WellFormed(l) && |e| == l.structSize
    ensures U32At(Poke32(e, l.offsetAt, offset), l.sizeAt) == U32At(e, l.sizeAt)
    ensures Poke32(e, l.offsetAt, offset) == Entry(l, e, offset, U32At(e, l.sizeAt))
  {
    hide FromLe32, Le32, Poke32;
    PokeApart(e, l.offsetAt, offset, l.sizeAt, 4);
    PokeSame(Poke32(e, l.offsetAt, offset), l.sizeAt);
  }

  // ---- the two loops ----

  /** One fragment: copied, or replaced by the new one. */
  method CopyFragment(u: DataUpdater, size: nat, replaced: bool, data: seq<byte>, ghost w: seq<byte>) returns (ok: bool)
    requires u.Holds(w)
    modifies u
    ensures u.Valid()
    ensures ok <==> old(u.oldPos) + size <= |u.oldData| && |w| + (if replaced then |data| else size) <= |u.oldData|
    ensures ok ==> u.oldPos == old(u.oldPos) + size
    ensures ok ==> u.Holds(w + if replaced then data else u.oldData[old(u.oldPos)..old(u.oldPos) + size])
  {
    if replaced {
      ok := u.Replace(size, data, w);
    } else {
      ok := u.Copy(size, w);
    }
  }

  lemma NothingYet(w: seq<byte>)
    ensures w + Flat([]) == w && Sum([]) == 0
  {
  }

  /** All fragments in the order of the table, by their sizes, with one of them replaced. */
  method CopyFragments(u: DataUpdater, l: Layout, es: seq<seq<byte>>, idx: nat, data: seq<byte>, ghost w: seq<byte>)
    returns (ok: bool, total: nat)
    requires u.Holds(w) && WellFormed(l) && Entries(l, es) && idx < |es| && |u.oldData| < U32
    modifies u
    ensures u.Valid()
    ensures var sizes := SizesOf(l, es);
      && (ok <==> old(u.oldPos) + Sum(sizes) <= |u.oldData| && |w| + Sum(sizes[idx := |data|]) <= |u.oldData|)
      && (ok ==>
        var frags := Cut(u.oldData, old(u.oldPos), sizes)[idx := data];
        && u.oldPos == old(u.oldPos) + Sum(sizes) && u.Holds(w + Flat(frags)) && total == |Flat(frags)|)
  {
    hide WellFormed, Flat, Sum, Cut, SizesOf, U32At, Entries, DataUpdater.Holds;
    HoldsMeans(u, w);
    total := 0;
    ghost var sizes := SizesOf(l, es);
    ghost var lens := sizes[idx := |data|];
    ghost var start := u.oldPos;
    ghost var fits := start + Sum(sizes) <= |u.oldData|;
    ghost var target := if fits then Cut(u.oldData, start, sizes)[idx := data] else [];
    ghost var written: seq<seq<byte>> := [];
    NothingYet(w);
    assert sizes[..0] == [] && lens[..0] == [];
    for i := 0 to |es|
      invariant u.oldPos == start + Sum(sizes[..i]) && u.Holds(w + Flat(written)) && |written| == i
      invariant total == |Flat(written)| == Sum(lens[..i])
      invariant fits ==> written == target[..i]
      invariant u.Valid() && |w| + total <= |u.oldData|
    {
      if fits {
        CutAt(u.oldData, start, sizes, i);
      }
      SumStep(sizes, i);
      SumStep(lens, i);
      ghost var before := u.oldPos;
      EntryIsWhole(l, es, i);
      var size := U32At(es[i], l.sizeAt);
      assert size == sizes[i];
      ok := CopyFragment(u, size, i == idx, data, w + Flat(written));
      if !ok {
        return;
      }
      ghost var piece := if i == idx then data else u.oldData[before..before + size];
      FlatBehind(w, written, piece);
      written := written + [piece];
      total := Trunc32(total + if i == idx then |data| else size);
    }
    assert sizes[..|es|] == sizes && lens[..|es|] == lens;
    assert fits ==> target[..|es|] == target;
    ok := true;
  }

  lemma FlatBehind(w: seq<byte>, ps: seq<seq<byte>>, p: seq<byte>)
    ensures w + Flat(ps + [p]) == (w + Flat(ps)) + p && |Flat(ps + [p])| == |Flat(ps)| + |p|
  {
    Wire.FlatSnoc(ps, p);
  }

  lemma HoldsMeans(u: DataUpdater, w: seq<byte>)
    requires u.Holds(w)
    ensures u.Valid() && u.newPos == |w| <= |u.oldData|
  {
  }

  lemma EntryIsWhole(l: Layout, es: seq<seq<byte>>, i: nat)
    requires WellFormed(l) && Entries(l, es) && i < |es|
    ensures |es[i]| == l.structSize && l.sizeAt + 4 <= l.structSize
  {
  }

  lemma EntryPoked(l: Layout, w: seq<byte>, e: seq<byte>, offset: u32, size: u32)
    requires WellFormed(l) && |e| == l.structSize
    ensures Poke32(w + e, |w| + l.offsetAt, offset) == w + Poke32(e, l.offsetAt, offset)
    ensures Poke32(w + Poke32(e, l.offsetAt, offset), |w| + l.sizeAt, size) == w + Entry(l, e, offset, size)
    ensures U32At(w + Poke32(e, l.offsetAt, offset), |w| + l.sizeAt) == U32At(e, l.sizeAt)
    ensures U32At(w + Entry(l, e, offset, size), |w| + l.sizeAt) == size
  {
    hide FromLe32, Le32, Poke32;
    var e1 := Poke32(e, l.offsetAt, offset);
    PokeBehind(w, e, l.offsetAt, offset);
    PokeBehind(w, e1, l.sizeAt, size);
    EntryKept(l, e, offset);
    PokeBehind(w, Entry(l, e, offset, size), l.sizeAt, size);
    PokeRead(e1, l.sizeAt, size);
  }

  /** One table entry: copied, then its offset and, for the replaced fragment, its size rewritten. */
  method CopyEntry(u: DataUpdater, l: Layout, e: seq<byte>, offset: u32, replaced: bool, newSize: u32, ghost w: seq<byte>)
    returns (ok: bool, size: u32)
    requires u.Holds(w) && WellFormed(l) && |e| == l.structSize
    requires u.oldPos + l.structSize <= |u.oldData| && u.oldData[u.oldPos..u.oldPos + l.structSize] == e
    modifies u
    ensures u.Valid()
    ensures ok <==> |w| + l.structSize <= |u.oldData|
    ensures ok ==> size == (if replaced then newSize else U32At(e, l.sizeAt))
    ensures ok ==> u.oldPos == old(u.oldPos) + l.structSize && u.Holds(w + Entry(l, e, offset, size))
  {
    hide FromLe32, Le32, Poke32, Padded, Entry, U32At;
    var at := u.newPos;
    ok := u.Copy(l.structSize, w);
    size := 0;
    if !ok {
      return;
    }
    EntryPoked(l, w, e, offset, newSize);
    EntryKept(l, e, offset);
    u.Set32(at + l.offsetAt, offset, w + e);
    if replaced {
      u.Set32(at + l.sizeAt, newSize, w + Poke32(e, l.offsetAt, offset));
      size := u.Get32(at + l.sizeAt, w + Entry(l, e, offset, newSize));
    } else {
      size := u.Get32(at + l.sizeAt, w + Poke32(e, l.offsetAt, offset));
    }
  }

  lemma {:induction false} RepeatPrefix(n: nat, k: nat, i: nat)
    requires i <= n
    ensures Sum(Repeat(n, k)[..i]) == i * k
  {
    if i > 0 {
      RepeatPrefix(n, k, i - 1);
      SumStep(Repeat(n, k), i - 1);
      Distribute(i - 1, 1, k);
    }
  }

  /** Entry `i` of a table in an image. */
  lemma EntryInImage(l: Layout, img: seq<byte>, at: nat, num: nat, i: nat)
    requires at + num * l.structSize <= |img| && i < num
    ensures at + i * l.structSize + l.structSize <= |img|
    ensures EntriesOf(l, img, at, num)[i] == img[at + i * l.structSize..at + i * l.structSize + l.structSize]
  {
    RepeatSum(num, l.structSize);
    RepeatPrefix(num, l.structSize, i);
    CutAt(img, at, Repeat(num, l.structSize), i);
  }

  /** The new fragments' sizes: the table's, but for the one that was replaced. */
  predicate Resized(l: Layout, es: seq<seq<byte>>, frags: seq<seq<byte>>, idx: nat)
    requires WellFormed(l) && Entries(l, es)
  {
    && |frags| == |es| && idx < |es| && |Flat(frags)| < U32
    && forall i :: 0 <= i < |es| && i != idx ==> |frags[i]| == U32At(es[i], l.sizeAt)
  }

  lemma PartsBelow(frags: seq<seq<byte>>, i: nat)
    requires i < |frags|
    ensures |Flat(frags[..i + 1])| == |Flat(frags[..i])| + |frags[i]| <= |Flat(frags)|
  {
    FlatStep(frags, i);
    assert frags == frags[..i + 1] + frags[i + 1..];
    FlatAppend(frags[..i + 1], frags[i + 1..]);
  }

  lemma TableStep(l: Layout, es: seq<seq<byte>>, frags: seq<seq<byte>>, i: nat, w: seq<byte>)
    requires WellFormed(l) && |es| == |frags| && Entries(l, es) && i < |es|
    ensures var t := Table(l, es, frags, 0);
      && w + Flat(t[..i + 1]) == (w + Flat(t[..i])) + Entry(l, es[i], |Flat(frags[..i])|, |frags[i]|)
      && |Flat(t[..i + 1])| == |Flat(t[..i])| + l.structSize
  {
    hide WellFormed, Entry, Entries;
    TableAt(l, es, frags, 0, i);
    FlatStep(Table(l, es, frags, 0), i);
  }

  /** The table with new offsets and one new size. */
  method CopyTable(u: DataUpdater, l: Layout, es: seq<seq<byte>>, idx: nat, newSize: u32,
                   ghost frags: seq<seq<byte>>, ghost w: seq<byte>) returns (ok: bool)
    requires u.Holds(w) && WellFormed(l) && Entries(l, es) && Resized(l, es, frags, idx) && |frags[idx]| == newSize
    requires u.oldPos + |es| * l.structSize <= |u.oldData| && es == EntriesOf(l, u.oldData, u.oldPos, |es|)
    modifies u
    ensures u.Valid()
    ensures ok <==> |w| + |es| * l.structSize <= |u.oldData|
    ensures ok ==> u.oldPos == old(u.oldPos) + |es| * l.structSize && u.Holds(w + Flat(Table(l, es, frags, 0)))
  {
    hide WellFormed, Flat, Table, Entry, EntriesOf, U32At, DataUpdater.Holds;
    ghost var at, t := u.oldPos, Table(l, es, frags, 0);
    var total := 0;
    HoldsMeans(u, w);
    NothingYet(w);
    assert t[..0] == [] && frags[..0] == [];
    for i := 0 to |es|
      invariant u.oldPos == at + i * l.structSize && u.Holds(w + Flat(t[..i])) && u.Valid()
      invariant total == |Flat(frags[..i])| && |Flat(t[..i])| == i * l.structSize
      invariant |w| + i * l.structSize <= |u.oldData|
    {
      EntryInImage(l, u.oldData, at, |es|, i);
      TableStep(l, es, frags, i, w);
      PartsBelow(frags, i);
      Distribute(i, 1, l.structSize);
      MulMono(i + 1, |es|, l.structSize);
      EntryIsWhole(l, es, i);
      var size;
      ok, size := CopyEntry(u, l, es[i], total, i == idx, newSize, w + Flat(t[..i]));
      if !ok {
        return;
      }
      total := Trunc32(total + size);
    }
    assert t[..|es|] == t;
    ok := true;
  }

  // ---- the whole replacement ----

  /** `check_vendor_boot_hdr` for version 4; only versions 3 and 4 exist. */
  method CheckVendorBootHdr(l: Layout, img: seq<byte>) returns (ok: bool)
    requires WellFormed(l)
    ensures ok <==> HasHeader(l, img)
  {
    if |img| < l.v3Size {
      return false;
    }
    var version := U32At(img, l.versionAt);
    if version != 3 && version != 4 {
      return false;
    }
    if |img| < (if version == 3 then l.v3Size else l.v4Size) {
      return false;
    }
    if !(l.magic <= img) {
      return false;
    }
    if U32At(img, l.pageSizeAt) == 0 {
      return false;
    }
    ok := version >= 4;
  }

  /**
   * The silent preconditions of the rewriter, for an image whose header passes: entries of the size of
   * their structure, and an image that contains every entry the rewriter reads.
   */
  predicate Usable(l: Layout, img: seq<byte>) {
    && WellFormed(l)
    && (HasHeader(l, img) ==>
      var h := HeaderOf(l, img);
      && h.entrySize == l.structSize && |img| + h.page <= U32
      && (PassesChecks(l, img, h) ==> ReadsInside(l, img, h)))
  }

  /** The two size checks in front of the search. */
  predicate PassesChecks(l: Layout, img: seq<byte>, h: Header)
    requires h.page > 0
  {
    var x := SectionsOf(l, h);
    x.Total() <= |img| && x.entries <= x.Table() + x.r
  }

  predicate ReadsInside(l: Layout, img: seq<byte>, h: Header)
    requires h.page > 0
  {
    var x := SectionsOf(l, h);
    forall i :: 0 <= i < h.num ==> EntryInside(l, |img|, x.Table(), i)
  }

  predicate EntryInside(l: Layout, size: nat, at: nat, i: nat) {
    at + i * l.structSize + l.structSize <= size
  }

  /** The reads of the table stay inside the image exactly when it has no entries or contains the last one's end. */
  lemma ReadsInsideExactly(l: Layout, img: seq<byte>, h: Header)
    requires h.page > 0
    ensures var x := SectionsOf(l, h);
      ReadsInside(l, img, h) <==> h.num == 0 || x.Table() + x.entries <= |img|
  {
    hide RoundUp;
    var x := SectionsOf(l, h);
    if h.num > 0 {
      Distribute(h.num - 1, 1, l.structSize);
      if x.Table() + x.entries <= |img| {
        forall i | 0 <= i < h.num ensures EntryInside(l, |img|, x.Table(), i) {
          MulMono(i + 1, h.num, l.structSize);
          Distribute(i, 1, l.structSize);
        }
      } else {
        assert !EntryInside(l, |img|, x.Table(), h.num - 1);
      }
    }
  }

  /** The front of the new image: header, fragments, zeros up to the page. */
  function Front(l: Layout, header: seq<byte>, frags: seq<seq<byte>>, page: nat): (w: seq<byte>)
    requires WellFormed(l) && |header| >= l.v4Size && page > 0 && |Flat(frags)| + page <= U32
    ensures |w| == |header| + RoundUp(|Flat(frags)|, page)
  {
    RoundUpIsAlign(|Flat(frags)|, page);
    Poke32(header, l.ramdiskSizeAt, Trunc32(|Flat(frags)|)) + Flat(frags) + Zeros(RoundUp(|Flat(frags)|, page) - |Flat(frags)|)
  }

  lemma {:induction false} SumOfSizes(ps: seq<seq<byte>>)
    ensures Sum(Sizes(ps)) == |Flat(ps)|
  {
    FlatIsCut([], ps, []);
  }

  lemma {:induction false} SizesUpdate(ps: seq<seq<byte>>, idx: nat, p: seq<byte>)
    requires idx < |ps|
    ensures Sizes(ps[idx := p]) == Sizes(ps)[idx := |p|]
  {
    if idx > 0 {
      SizesUpdate(ps[1..], idx - 1, p);
      assert ps[idx := p][1..] == ps[1..][idx - 1 := p];
    } else {
      assert ps[idx := p][1..] == ps[1..];
    }
  }

  lemma NewTotal(img: seq<byte>, at: nat, sizes: seq<nat>, idx: nat, data: seq<byte>)
    requires at + Sum(sizes) <= |img| && idx < |sizes|
    ensures |Flat(Cut(img, at, sizes)[idx := data])| == Sum(sizes[idx := |data|])
  {
    CutIsFlat(img, at, sizes);
    SizesUpdate(Cut(img, at, sizes), idx, data);
    SumOfSizes(Cut(img, at, sizes)[idx := data]);
  }

  /**
   * Header and ramdisk. This succeeds exactly when the fragments are the announced ramdisk and the new
   * ones leave room for their page.
   */
  method WriteFront(u: DataUpdater, l: Layout, h: Header, x: Sections, es: seq<seq<byte>>, idx: nat, data: seq<byte>)
    returns (ok: bool, newP: nat)
    requires u.Holds([]) && u.oldPos == 0 && InBounds(l, u.oldData, h, x) && Entries(l, es) && idx < |es|
    requires x.p == RoundUp(h.ramdisk, h.page) && h.ramdisk < U32
    modifies u
    ensures u.Valid()
    ensures var sizes := SizesOf(l, es); var total := Sum(sizes[idx := |data|]);
      && (ok ==> Sum(sizes) == h.ramdisk <= x.p && total + h.page <= U32 && x.o + RoundUp(total, h.page) <= |u.oldData|)
      && (Sum(sizes) == h.ramdisk <= x.p && total + h.page <= U32 && x.o + RoundUp(total, h.page) <= |u.oldData| ==> ok)
      && (ok ==>
        var frags := Cut(u.oldData, x.o, sizes)[idx := data];
        && |Flat(frags)| == total && newP == RoundUp(total, h.page) && u.oldPos == x.o + x.p
        && u.Holds(Front(l, u.oldData[..x.o], frags, h.page)))
  {
    hide WellFormed, Flat, Sum, Cut, SizesOf, RoundUp, Poke32, Entries, DataUpdater.Holds, U32At, Le32, Trunc32;
    ghost var sizes := SizesOf(l, es);
    newP := 0;
    assert [] + u.oldData[0..x.o] == u.oldData[..x.o];
    HoldsMeans(u, []);
    ok := u.Copy(x.o, []);
    ghost var w := u.oldData[..x.o];
    if !ok {
      return;
    }
    var total;
    TotalBelow(Sum(sizes[idx := |data|]), h.page);
    PaddingLeft(h.ramdisk, h.page, x.p);
    ok, total := CopyFragments(u, l, es, idx, data, w);
    if !ok {
      return;
    }
    NewTotal(u.oldData, x.o, sizes, idx, data);
    ghost var frags := Cut(u.oldData, x.o, sizes)[idx := data];
    HoldsMeans(u, w + Flat(frags));
    FieldInHeader(l);
    InRange(total);
    PokeFront(w, Flat(frags), l.ramdiskSizeAt, total);
    u.Set32(l.ramdiskSizeAt, total, w + Flat(frags));
    RoundUpIsAlign(total, h.page);
    newP := RoundUp(total, h.page);
    ok := u.Skip(Trunc32(x.p + U32 - h.ramdisk), newP - total, Poke32(w, l.ramdiskSizeAt, total) + Flat(frags));
    if !ok {
      return;
    }
    HoldsMeans(u, Poke32(w, l.ramdiskSizeAt, total) + Flat(frags) + Zeros(newP - total));
    ok := u.CheckOffset(x.o + x.p, x.o + newP);
  }

  lemma InRange(n: nat)
    requires n < U32
    ensures Trunc32(n) == n
  {
  }

  /** What lies between the announced ramdisk and the end of its pages, in 32 bits. */
  lemma PaddingLeft(ramdisk: nat, page: nat, p: nat)
    requires 0 < page && ramdisk < U32 && p == RoundUp(ramdisk, page)
    ensures Trunc32(p + U32 - ramdisk) == (if ramdisk <= p then p - ramdisk else p + U32 - ramdisk)
    ensures ramdisk + page <= U32 ==> ramdisk <= p
  {
    if ramdisk + page <= U32 {
      RoundUpIsAlign(ramdisk, page);
    }
  }

  lemma TotalBelow(total: nat, page: nat)
    requires page > 0
    ensures total + page <= U32 ==> total <= RoundUp(total, page)
  {
    if total + page <= U32 {
      RoundUpIsAlign(total, page);
    }
  }

  lemma FieldInHeader(l: Layout)
    requires WellFormed(l)
    ensures l.ramdiskSizeAt + 4 <= l.v4Size
  {
  }

  /** The sections behind the ramdisk. */
  function Rest(l: Layout, img: seq<byte>, x: Sections, table: seq<byte>, front: seq<byte>): seq<byte>
    requires x.entries <= x.r && x.Total() <= |img|
  {
    front + img[x.o + x.p..x.Table()] + table + img[x.Table() + x.entries..x.Table() + x.r] + img[x.Table() + x.r..x.Total()]
  }

  /** What lies between the entries and the end of their section, in 32 bits. */
  lemma SectionLeft(r: nat, entries: nat)
    requires r < U32 && entries < U32
    ensures Trunc32(r + U32 - entries) == (if entries <= r then r - entries else r + U32 - entries)
  {
  }

  /** The rest of the table's section and the bootconfig; fails exactly when the entries or the sections do not fit. */
  method WriteTail(u: DataUpdater, x: Sections, newAt: nat, ghost w: seq<byte>) returns (ok: bool)
    requires u.Holds(w) && |u.oldData| < U32 && x.Total() <= |u.oldData| && x.entries < U32
    requires u.oldPos == x.Table() + x.entries && |w| == newAt + x.entries
    modifies u
    ensures u.Valid()
    ensures ok <==> x.entries <= x.r && newAt + x.r + x.s <= |u.oldData|
    ensures ok ==>
      u.Holds(w + u.oldData[x.Table() + x.entries..x.Table() + x.r] + u.oldData[x.Table() + x.r..x.Total()])
  {
    hide DataUpdater.Holds, Trunc32;
    HoldsMeans(u, w);
    SectionLeft(x.r, x.entries);
    ok := u.Copy(Trunc32(x.r + U32 - x.entries), w);
    if !ok {
      return;
    }
    ghost var w1 := w + u.oldData[x.Table() + x.entries..x.Table() + x.r];
    HoldsMeans(u, w1);
    ok := u.CheckOffset(x.Table() + x.r, newAt + x.r);
    if !ok {
      return;
    }
    ok := u.Copy(x.s, w1);
    if ok {
      HoldsMeans(u, w1 + u.oldData[x.Table() + x.r..x.Total()]);
    }
  }

  /** Device tree, table and bootconfig behind the new ramdisk; fails exactly when they do not fit. */
  method WriteRest(u: DataUpdater, l: Layout, h: Header, x: Sections, es: seq<seq<byte>>, idx: nat, newSize: u32, newP: nat,
                   ghost frags: seq<seq<byte>>, ghost front: seq<byte>) returns (ok: bool)
    requires u.Holds(front) && InBounds(l, u.oldData, h, x) && Entries(l, es) && Resized(l, es, frags, idx)
    requires |front| == x.o + newP && u.oldPos == x.o + x.p && |frags[idx]| == newSize
    requires x.entries == |es| * l.structSize && x.Table() + x.entries <= |u.oldData|
    requires es == EntriesOf(l, u.oldData, x.Table(), |es|)
    modifies u
    ensures u.Valid()
    ensures ok <==> x.entries <= x.r && x.o + newP + x.q + x.r + x.s <= |u.oldData|
    ensures ok ==> u.Holds(Rest(l, u.oldData, x, Flat(Table(l, es, frags, 0)), front))
  {
    hide WellFormed, Flat, Table, EntriesOf, Entries, DataUpdater.Holds, U32At, Trunc32;
    HoldsMeans(u, front);
    TableSize(l, es, frags);
    ok := u.Copy(x.q, front);
    if !ok {
      return;
    }
    ghost var w := front + u.oldData[x.o + x.p..x.Table()];
    ok := CopyTable(u, l, es, idx, newSize, frags, w);
    if !ok {
      return;
    }
    ok := WriteTail(u, x, x.o + newP + x.q, w + Flat(Table(l, es, frags, 0)));
  }

  lemma {:induction false} FlatOfEntries(l: Layout, es: seq<seq<byte>>)
    requires Entries(l, es)
    ensures |Flat(es)| == |es| * l.structSize
  {
    if es != [] {
      FlatOfEntries(l, es[1..]);
      Distribute(1, |es| - 1, l.structSize);
    }
  }

  lemma TableSize(l: Layout, es: seq<seq<byte>>, frags: seq<seq<byte>>)
    requires WellFormed(l) && Entries(l, es) && |frags| == |es|
    ensures |Flat(Table(l, es, frags, 0))| == |es| * l.structSize
  {
    FlatOfEntries(l, Table(l, es, frags, 0));
  }

  /** The parts of the image with one fragment replaced. */
  function Replaced(c: Parts, idx: nat, data: seq<byte>): Parts
    requires idx < |c.frags|
  {
    c.(frags := c.frags[idx := data])
  }

  /** A sound image, the entry with the given name, and room for the new fragment. */
  ghost predicate CanReplace(l: Layout, img: seq<byte>, name: seq<byte>, data: seq<byte>, idx: nat) {
    && HasHeader(l, img) && HeaderOf(l, img).page > 0
    && var h := HeaderOf(l, img);
    var x := SectionsOf(l, h);
    && InBounds(l, img, h, x) && x.entries <= x.r
    && var es := EntriesOf(l, img, x.Table(), h.num);
    && Sound(l, img, h, x, es)
    && Named(l, es, idx, name) && (forall j :: Named(l, es, j, name) ==> j == idx)
    && HasRoom(x, h.page, Sum(SizesOf(l, es)[idx := |data|]), |img|)
  }

  predicate HasRoom(x: Sections, page: nat, total: nat, size: nat)
    requires page > 0
  {
    total + page <= U32 && x.o + RoundUp(total, page) + x.q + x.r + x.s <= size
  }

  lemma FrontAndRest(l: Layout, img: seq<byte>, h: Header, x: Sections, es: seq<seq<byte>>, idx: nat, data: seq<byte>)
    requires Sound(l, img, h, x, es) && idx < |es|
    requires HasRoom(x, h.page, Sum(SizesOf(l, es)[idx := |data|]), |img|)
    ensures x.o + Sum(SizesOf(l, es)) <= |img|
    ensures var c := PartsOf(l, img, h, x, es);
      var frags := Cut(img, x.o, SizesOf(l, es))[idx := data];
      && c.frags[idx := data] == frags && idx < |c.frags|
      && |Flat(frags)| + h.page <= U32 && |Flat(frags)| <= |img|
      && Resized(l, es, frags, idx)
      && Fit(l, Replaced(c, idx, data))
      && Body(l, Replaced(c, idx, data)) ==
           Rest(l, img, x, Flat(Table(l, es, frags, 0)), Front(l, img[..x.o], frags, h.page))
      && |Body(l, Replaced(c, idx, data))| == x.o + RoundUp(|Flat(frags)|, h.page) + x.q + x.r + x.s
  {
    hide WellFormed, Flat, Sum, Cut, SizesOf, Table, EntriesOf, FooterOf, Poke32;
    var sizes := SizesOf(l, es);
    NewTotal(img, x.o, sizes, idx, data);
    var frags := Cut(img, x.o, sizes)[idx := data];
    RoundUpIsAlign(|Flat(frags)|, h.page);
    CutIsFlat(img, x.o, sizes);
    OldSizes(l, es, Cut(img, x.o, sizes), idx, data);
    TableSize(l, es, frags);
  }

  lemma OldSizes(l: Layout, es: seq<seq<byte>>, frags: seq<seq<byte>>, idx: nat, data: seq<byte>)
    requires WellFormed(l) && Entries(l, es) && Sizes(frags) == SizesOf(l, es) && idx < |es|
    requires |Flat(frags[idx := data])| < U32
    ensures Resized(l, es, frags[idx := data], idx)
  {
    hide WellFormed, Flat;
    forall i | 0 <= i < |es| && i != idx ensures |frags[idx := data][i]| == SizesOf(l, es)[i] {
      SizesAt(frags, i);
    }
  }

  lemma UsableBounds(l: Layout, img: seq<byte>)
    requires Usable(l, img) && HasHeader(l, img)
    ensures var h := HeaderOf(l, img);
      h.page > 0 && var x := SectionsOf(l, h);
      && x.entries == h.num * l.structSize && x.p == RoundUp(h.ramdisk, h.page) && h.ramdisk < U32
      && (x.Total() <= |img| <==> InBounds(l, img, h, x))
      && (InBounds(l, img, h, x) && x.entries <= x.Table() + x.r ==> x.Table() + x.entries <= |img|)
  {
    hide WellFormed, RoundUp, ReadsInside, U32At;
    var h := HeaderOf(l, img);
    RoundUpIsAlign(l.v4Size, h.page);
    ReadsInsideExactly(l, img, h);
  }

  /** The image made of the old parts with one fragment replaced. */
  ghost function Rewritten(l: Layout, img: seq<byte>, name: seq<byte>, data: seq<byte>, idx: nat): seq<byte>
    requires CanReplace(l, img, name, data, idx)
  {
    var h := HeaderOf(l, img);
    var x := SectionsOf(l, h);
    var es := EntriesOf(l, img, x.Table(), h.num);
    FrontAndRest(l, img, h, x, es, idx, data);
    NewTotal(img, x.o, SizesOf(l, es), idx, data);
    Compose(l, Replaced(PartsOf(l, img, h, x, es), idx, data))
  }

  /** The entries lie inside their section and announce the ramdisk of the header. */
  predicate SoundSizes(l: Layout, h: Header, x: Sections, es: seq<seq<byte>>)
    requires WellFormed(l) && Entries(l, es)
  {
    x.entries <= x.r && Sum(SizesOf(l, es)) == h.ramdisk <= x.p
  }

  /** The sections of a usable image written anew; fails exactly when they are not sound or do not fit. */
  method Rebuild(l: Layout, img: seq<byte>, h: Header, x: Sections, es: seq<seq<byte>>, idx: nat, data: seq<byte>)
    returns (r: Result<seq<byte>>)
    requires InBounds(l, img, h, x) && x.entries == h.num * l.structSize && x.Table() + x.entries <= |img|
    requires x.p == RoundUp(h.ramdisk, h.page) && h.ramdisk < U32
    requires es == EntriesOf(l, img, x.Table(), h.num) && Entries(l, es) && idx < |es| && |data| < U32
    ensures r.Ok? <==> SoundSizes(l, h, x, es) && HasRoom(x, h.page, Sum(SizesOf(l, es)[idx := |data|]), |img|)
    ensures r.Ok? ==>
      Sound(l, img, h, x, es) && idx < |PartsOf(l, img, h, x, es).frags| &&
      var c := Replaced(PartsOf(l, img, h, x, es), idx, data);
      Fit(l, c) && |Body(l, c)| <= c.size && |c.footer| <= c.size && r.value == Compose(l, c)
  {
    hide WellFormed, Flat, Sum, Cut, SizesOf, Table, EntriesOf, FooterOf, Poke32, Front, Rest, Entries, RoundUp,
      DataUpdater.Holds, Padded, Body;
    var u := new DataUpdater(img);
    var ok, newP := WriteFront(u, l, h, x, es, idx, data);
    if !ok {
      return Err(Overflow);
    }
    ghost var sizes := SizesOf(l, es);
    ghost var frags := Cut(img, x.o, sizes)[idx := data];
    ghost var front := Front(l, img[..x.o], frags, h.page);
    NewSizes(l, img, h, x, es, idx, data);
    ok := WriteRest(u, l, h, x, es, idx, |data|, newP, frags, front);
    if !ok {
      return Err(Overflow);
    }
    FrontAndRest(l, img, h, x, es, idx, data);
    Finished(u, Body(l, Replaced(PartsOf(l, img, h, x, es), idx, data)));
    u.CopyAvbFooter(l);
    r := Ok(u.newData);
  }

  lemma NewSizes(l: Layout, img: seq<byte>, h: Header, x: Sections, es: seq<seq<byte>>, idx: nat, data: seq<byte>)
    requires InBounds(l, img, h, x) && Entries(l, es) && idx < |es|
    requires x.o + Sum(SizesOf(l, es)) <= |img|
    requires Sum(SizesOf(l, es)[idx := |data|]) + h.page <= U32
    ensures Resized(l, es, Cut(img, x.o, SizesOf(l, es))[idx := data], idx)
  {
    hide WellFormed, Flat, Cut;
    CutIsFlat(img, x.o, SizesOf(l, es));
    NewTotal(img, x.o, SizesOf(l, es), idx, data);
    OldSizes(l, es, Cut(img, x.o, SizesOf(l, es)), idx, data);
  }

  lemma Finished(u: DataUpdater, w: seq<byte>)
    requires u.Holds(w)
    ensures |w| <= |u.oldData| && u.newData == w + Zeros(|u.oldData| - |w|)
  {
  }

  /**
   * `replace_vendor_ramdisk_fragment`: it succeeds exactly when the image is sound, one entry has the
   * name, and the new fragment leaves room for everything behind it; and then the result is the image
   * made of the old parts with that fragment replaced.
   */
  method ReplaceVendorRamdiskFragment(l: Layout, name: seq<byte>, img: seq<byte>, data: seq<byte>)
    returns (r: Result<seq<byte>>, ghost idx: nat)
    requires Usable(l, img) && |data| < U32
    ensures r.Ok? <==> exists i :: CanReplace(l, img, name, data, i)
    ensures r.Ok? ==> CanReplace(l, img, name, data, idx) && r.value == Rewritten(l, img, name, data, idx)
  {
    hide WellFormed, Sum, SizesOf, EntriesOf, HasHeader, SectionsOf, HeaderOf, PartsOf, Entries, Body, Named,
      HasRoom, InBounds, Sound, Replaced, Fit;
    idx := 0;
    var ok := CheckVendorBootHdr(l, img);
    if !ok {
      return Err(BadHeader), idx;
    }
    HeaderFits(l, img);
    UsableBounds(l, img);
    var h := HeaderOf(l, img);
    var x := SectionsOf(l, h);
    if x.Total() > |img| {
      return Err(TooSmall), idx;
    }
    if h.num * l.structSize > x.Table() + x.r {
      return Err(TooManyEntries), idx;
    }
    var es := EntriesOf(l, img, x.Table(), h.num);
    EntriesAre(l, img, x.Table(), h.num);
    var found := FindUniqueRamdisk(l, name, es);
    if found.Err? {
      return Err(found.error), idx;
    }
    idx := found.value;
    NamedIs(l, es, idx, name);
    r := Rebuild(l, img, h, x, es, found.value, data);
    SoundIs(l, img, h, x, es);
    assert r.Ok? <==> CanReplace(l, img, name, data, idx);
    assert forall i :: CanReplace(l, img, name, data, i) ==> i == idx;
  }

  lemma HeaderFits(l: Layout, img: seq<byte>)
    requires HasHeader(l, img)
    ensures WellFormed(l) && |img| >= l.v4Size && HeaderOf(l, img).page > 0
  {
  }

  lemma NamedIs(l: Layout, es: seq<seq<byte>>, i: nat, name: seq<byte>)
    requires WellFormed(l) && Entries(l, es) && Named(l, es, i, name)
    ensures i < |es|
  {
  }

  lemma SoundIs(l: Layout, img: seq<byte>, h: Header, x: Sections, es: seq<seq<byte>>)
    requires InBounds(l, img, h, x) && x.entries == h.num * l.structSize
    requires x.Table() + h.num * l.structSize <= |img|
    requires es == EntriesOf(l, img, x.Table(), h.num) && WellFormed(l) && Entries(l, es)
    ensures Sound(l, img, h, x, es) <==> SoundSizes(l, h, x, es)
  {
  }
}
