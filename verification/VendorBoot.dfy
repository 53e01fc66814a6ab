/** A vendor_boot image as its sections: what it is made of, and how it is laid out in bytes. */
module VendorBoot {
  import opened Wire
  import opened Arith

  /** Where the fields of the headers and of a table entry are; their C declarations are not part of this model. */
  datatype Layout = Layout(
    magic: seq<byte>, versionAt: nat, pageSizeAt: nat, ramdiskSizeAt: nat, dtbSizeAt: nat, v3Size: nat,
    tableSizeAt: nat, entryNumAt: nat, entrySizeAt: nat, bootconfigSizeAt: nat, v4Size: nat,
    structSize: nat, sizeAt: nat, offsetAt: nat, nameAt: nat, nameSize: nat,
    footerSize: nat, footerMagic: seq<byte>)

  predicate Apart(a: nat, m: nat, b: nat, n: nat) {
    a + m <= b || b + n <= a
  }

  /** Fields lie inside their structures and do not overlap the ones that are rewritten. */
  predicate WellFormed(l: Layout) {
    && |l.magic| <= l.versionAt && l.versionAt + 4 <= l.v3Size <= l.v4Size
    && l.pageSizeAt + 4 <= l.v3Size && l.ramdiskSizeAt + 4 <= l.v3Size && l.dtbSizeAt + 4 <= l.v3Size
    && l.tableSizeAt + 4 <= l.v4Size && l.entryNumAt + 4 <= l.v4Size && l.entrySizeAt + 4 <= l.v4Size
    && l.bootconfigSizeAt + 4 <= l.v4Size
    && |l.magic| <= l.ramdiskSizeAt && Apart(l.versionAt, 4, l.ramdiskSizeAt, 4) && Apart(l.pageSizeAt, 4, l.ramdiskSizeAt, 4)
    && Apart(l.dtbSizeAt, 4, l.ramdiskSizeAt, 4) && Apart(l.tableSizeAt, 4, l.ramdiskSizeAt, 4)
    && Apart(l.entryNumAt, 4, l.ramdiskSizeAt, 4) && Apart(l.entrySizeAt, 4, l.ramdiskSizeAt, 4)
    && Apart(l.bootconfigSizeAt, 4, l.ramdiskSizeAt, 4)
    && l.sizeAt + 4 <= l.structSize && l.offsetAt + 4 <= l.structSize && l.nameAt + l.nameSize <= l.structSize
    && Apart(l.sizeAt, 4, l.offsetAt, 4)
    && Apart(l.sizeAt, 4, l.nameAt, l.nameSize) && Apart(l.offsetAt, 4, l.nameAt, l.nameSize)
    && 0 < |l.footerMagic| <= l.footerSize && l.footerMagic[0] != 0
  }

  // ---- fields in bytes ----

  function U32At(s: seq<byte>, at: nat): u32
    requires at + 4 <= |s|
  {
    FromLe32(s[at..at + 4])
  }

  function Poke32(s: seq<byte>, at: nat, v: u32): (r: seq<byte>)
    requires at + 4 <= |s|
    ensures |r| == |s|
  {
    s[..at] + Le32(v) + s[at + 4..]
  }

  lemma PokeRead(s: seq<byte>, at: nat, v: u32)
    requires at + 4 <= |s|
    ensures U32At(Poke32(s, at, v), at) == v
  {
    hide Le32, FromLe32;
    assert Poke32(s, at, v)[at..at + 4] == Le32(v);
    Le32RoundTrip(v);
  }

  lemma PokeApart(s: seq<byte>, at: nat, v: u32, b: nat, n: nat)
    requires at + 4 <= |s| && b + n <= |s| && Apart(at, 4, b, n)
    ensures Poke32(s, at, v)[b..b + n] == s[b..b + n]
  {
    hide Le32;
  }

  lemma PokeSame(s: seq<byte>, at: nat)
    requires at + 4 <= |s|
    ensures Poke32(s, at, U32At(s, at)) == s
  {
    hide Le32, FromLe32;
    Le32Inverse(s[at..at + 4]);
  }

  lemma PokeTwice(s: seq<byte>, at: nat, v: u32, w: u32)
    requires at + 4 <= |s|
    ensures Poke32(Poke32(s, at, v), at, w) == Poke32(s, at, w)
  {
    hide Le32;
  }

  lemma PokesCommute(s: seq<byte>, a: nat, v: u32, b: nat, w: u32)
    requires a + 4 <= |s| && b + 4 <= |s| && Apart(a, 4, b, 4)
    ensures Poke32(Poke32(s, a, v), b, w) == Poke32(Poke32(s, b, w), a, v)
  {
    hide Le32;
  }

  /** A field of the front part of a sequence. */
  lemma PokeFront(s: seq<byte>, t: seq<byte>, at: nat, v: u32)
    requires at + 4 <= |s|
    ensures Poke32(s + t, at, v) == Poke32(s, at, v) + t && U32At(s + t, at) == U32At(s, at)
  {
    hide Le32;
    assert (s + t)[at..at + 4] == s[at..at + 4];
  }

  lemma PokeBehind(s: seq<byte>, t: seq<byte>, at: nat, v: u32)
    requires at + 4 <= |t|
    ensures Poke32(s + t, |s| + at, v) == s + Poke32(t, at, v) && U32At(s + t, |s| + at) == U32At(t, at)
  {
    hide Le32;
    assert (s + t)[|s| + at..|s| + at + 4] == t[at..at + 4];
  }

  // ---- consecutive pieces ----

  function Sum(sizes: seq<nat>): nat {
    if sizes == [] then 0 else sizes[0] + Sum(sizes[1..])
  }

  function Sizes(ps: seq<seq<byte>>): (r: seq<nat>)
    ensures |r| == |ps|
  {
    if ps == [] then [] else [|ps[0]|] + Sizes(ps[1..])
  }

  /** Pieces of the given sizes, one behind the other, from `at` on. */
  function Cut(s: seq<byte>, at: nat, sizes: seq<nat>): (ps: seq<seq<byte>>)
    requires at + Sum(sizes) <= |s|
    ensures |ps| == |sizes|
    decreases |sizes|
  {
    if sizes == [] then [] else [s[at..at + sizes[0]]] + Cut(s, at + sizes[0], sizes[1..])
  }

  lemma FlatOfPair(p: seq<byte>, rest: seq<seq<byte>>)
    ensures Flat([p] + rest) == p + Flat(rest) && Sizes([p] + rest) == [|p|] + Sizes(rest)
  {
    assert ([p] + rest)[1..] == rest;
  }

  lemma {:induction false} CutIsFlat(s: seq<byte>, at: nat, sizes: seq<nat>)
    requires at + Sum(sizes) <= |s|
    ensures Flat(Cut(s, at, sizes)) == s[at..at + Sum(sizes)] && Sizes(Cut(s, at, sizes)) == sizes
    decreases |sizes|
  {
    if sizes != [] {
      var n, rest := sizes[0], Cut(s, at + sizes[0], sizes[1..]);
      CutIsFlat(s, at + n, sizes[1..]);
      FlatOfPair(s[at..at + n], rest);
      assert s[at..at + n] + s[at + n..at + n + Sum(sizes[1..])] == s[at..at + Sum(sizes)];
    }
  }

  lemma {:induction false} FlatIsCut(a: seq<byte>, ps: seq<seq<byte>>, z: seq<byte>)
    ensures Sum(Sizes(ps)) == |Flat(ps)|
    ensures Cut(a + Flat(ps) + z, |a|, Sizes(ps)) == ps
    decreases |ps|
  {
    if ps != [] {
      FlatIsCut(a + ps[0], ps[1..], z);
      Regroup(a, ps[0], Flat(ps[1..]), z);
      assert Sizes(ps)[1..] == Sizes(ps[1..]);
    }
  }

  lemma Regroup(a: seq<byte>, p: seq<byte>, r: seq<byte>, z: seq<byte>)
    ensures (a + p) + r + z == a + (p + r) + z
    ensures (a + (p + r) + z)[|a|..|a| + |p|] == p
  {
  }

  lemma {:induction false} SumAppend(a: seq<nat>, b: seq<nat>)
    ensures Sum(a + b) == Sum(a) + Sum(b)
    decreases |a|
  {
    if a == [] {
      assert a + b == b;
    } else {
      assert (a + b)[1..] == a[1..] + b;
      SumAppend(a[1..], b);
    }
  }

  lemma {:induction false} SizesAt(ps: seq<seq<byte>>, i: nat)
    requires i < |ps|
    ensures Sizes(ps)[i] == |ps[i]|
  {
    if i > 0 {
      SizesAt(ps[1..], i - 1);
    }
  }

  // ---- an image as its parts ----

  /** The sections of a version 4 image, each as it stands in the file but the ramdisk, which is in fragments. */
  datatype Parts = Parts(page: nat, header: seq<byte>, frags: seq<seq<byte>>, dtb: seq<byte>,
                         entries: seq<seq<byte>>, tablePad: seq<byte>, bootconfig: seq<byte>,
                         footer: seq<byte>, size: nat)

  /** `round_up`, with its wrap-around. */
  function RoundUp(value: nat, page: nat): nat
    requires page > 0
  {
    AlignDown(Trunc32(value + page - 1), page)
  }

  lemma RoundUpIsAlign(value: nat, page: nat)
    requires page > 0 && value + page - 1 < U32
    ensures RoundUp(value, page) == Align(value, page) && value <= RoundUp(value, page) < value + page
  {
    AlignBounds(value, page);
  }

  /** A table entry with its size, and its offset behind the fragments in front of it. */
  function Entry(l: Layout, e: seq<byte>, offset: nat, size: nat): (r: seq<byte>)
    requires WellFormed(l) && |e| == l.structSize
    ensures |r| == l.structSize
  {
    Poke32(Poke32(e, l.offsetAt, Trunc32(offset)), l.sizeAt, Trunc32(size))
  }

  function Table(l: Layout, entries: seq<seq<byte>>, frags: seq<seq<byte>>, offset: nat): (r: seq<seq<byte>>)
    requires WellFormed(l) && |entries| == |frags| && Entries(l, entries)
    ensures |r| == |entries| && Entries(l, r)
    decreases |entries|
  {
    if entries == [] then []
    else [Entry(l, entries[0], offset, |frags[0]|)] + Table(l, entries[1..], frags[1..], offset + |frags[0]|)
  }

  predicate Fit(l: Layout, c: Parts) {
    && WellFormed(l) && c.page > 0 && |c.header| >= l.v4Size && |c.entries| == |c.frags|
    && Entries(l, c.entries)
    && c.size + c.page <= U32 && |Flat(c.frags)| <= c.size
  }

  function RamdiskPad(c: Parts): nat
    requires c.page > 0 && |Flat(c.frags)| + c.page <= U32
  {
    RoundUpIsAlign(|Flat(c.frags)|, c.page);
    RoundUp(|Flat(c.frags)|, c.page) - |Flat(c.frags)|
  }

  /** The sections in order: header, fragments, zeros to the page, device tree, table, bootconfig. */
  function Body(l: Layout, c: Parts): seq<byte>
    requires Fit(l, c)
  {
    Poke32(c.header, l.ramdiskSizeAt, Trunc32(|Flat(c.frags)|)) + Flat(c.frags) + Zeros(RamdiskPad(c)) + c.dtb +
    Flat(Table(l, c.entries, c.frags, 0)) + c.tablePad + c.bootconfig
  }

  /** The whole file: the sections, zeros, and the footer at the very end. */
  function Compose(l: Layout, c: Parts): (r: seq<byte>)
    requires Fit(l, c) && |Body(l, c)| <= c.size && |c.footer| <= c.size
    ensures |r| == c.size
  {
    (Body(l, c) + Zeros(c.size - |Body(l, c)|))[..c.size - |c.footer|] + c.footer
  }

  // ---- an image taken apart ----

  datatype Header = Header(page: nat, ramdisk: nat, dtb: nat, table: nat, num: nat, entrySize: nat, bootconfig: nat)

  predicate HasHeader(l: Layout, img: seq<byte>) {
    && WellFormed(l) && |img| >= l.v4Size && l.magic <= img
    && U32At(img, l.versionAt) == 4 && U32At(img, l.pageSizeAt) > 0
  }

  function HeaderOf(l: Layout, img: seq<byte>): Header
    requires WellFormed(l) && |img| >= l.v4Size
  {
    Header(U32At(img, l.pageSizeAt), U32At(img, l.ramdiskSizeAt), U32At(img, l.dtbSizeAt), U32At(img, l.tableSizeAt),
           U32At(img, l.entryNumAt), U32At(img, l.entrySizeAt), U32At(img, l.bootconfigSizeAt))
  }

  /** The lengths of the page-aligned sections, and of the table entries inside theirs. */
  datatype Sections = Sections(o: nat, p: nat, q: nat, r: nat, s: nat, entries: nat) {
    function Table(): nat {
      o + p + q
    }

    function Total(): nat {
      o + p + q + r + s
    }
  }

  function SectionsOf(l: Layout, h: Header): Sections
    requires h.page > 0
  {
    Sections(RoundUp(l.v4Size, h.page), RoundUp(h.ramdisk, h.page), RoundUp(h.dtb, h.page), RoundUp(h.table, h.page),
             RoundUp(h.bootconfig, h.page), h.num * l.structSize)
  }

  function Repeat(n: nat, k: nat): (r: seq<nat>)
    ensures |r| == n && forall i :: 0 <= i < n ==> r[i] == k
  {
    if n == 0 then [] else [k] + Repeat(n - 1, k)
  }

  lemma {:induction false} RepeatSum(n: nat, k: nat)
    ensures Sum(Repeat(n, k)) == n * k
  {
    if n > 0 {
      RepeatSum(n - 1, k);
      assert Repeat(n, k)[1..] == Repeat(n - 1, k);
      Distribute(1, n - 1, k);
    }
  }

  /** Every entry is one structure long. */
  predicate Entries(l: Layout, es: seq<seq<byte>>) {
    forall i :: 0 <= i < |es| ==> |es[i]| == l.structSize
  }

  function EntriesOf(l: Layout, img: seq<byte>, at: nat, num: nat): (es: seq<seq<byte>>)
    requires at + num * l.structSize <= |img|
    ensures |es| == num
  {
    RepeatSum(num, l.structSize);
    Cut(img, at, Repeat(num, l.structSize))
  }

  lemma EntriesAre(l: Layout, img: seq<byte>, at: nat, num: nat)
    requires at + num * l.structSize <= |img|
    ensures Flat(EntriesOf(l, img, at, num)) == img[at..at + num * l.structSize]
    ensures Entries(l, EntriesOf(l, img, at, num))
  {
    RepeatSum(num, l.structSize);
    CutIsFlat(img, at, Repeat(num, l.structSize));
    var es := EntriesOf(l, img, at, num);
    forall i | 0 <= i < |es| ensures |es[i]| == l.structSize {
      SizesAt(es, i);
    }
  }

  /** What a table says the sizes of the fragments are. */
  function SizesOf(l: Layout, es: seq<seq<byte>>): (r: seq<nat>)
    requires WellFormed(l) && Entries(l, es)
    ensures |r| == |es| && forall i :: 0 <= i < |r| ==> r[i] == U32At(es[i], l.sizeAt)
  {
    if es == [] then [] else [U32At(es[0], l.sizeAt)] + SizesOf(l, es[1..])
  }

  predicate HasFooter(l: Layout, img: seq<byte>) {
    |img| >= l.footerSize && |l.footerMagic| <= l.footerSize && l.footerMagic <= img[|img| - l.footerSize..]
  }

  function FooterOf(l: Layout, img: seq<byte>): (f: seq<byte>)
    ensures |f| <= |img|
  {
    if HasFooter(l, img) then img[|img| - l.footerSize..] else []
  }

  /** The sections lie inside the image. */
  predicate InBounds(l: Layout, img: seq<byte>, h: Header, x: Sections) {
    && WellFormed(l) && h.page > 0 && |img| + h.page <= U32
    && l.v4Size <= x.o && x.Total() <= |img|
  }

  /** The entries lie inside their section, and their fragments make up the ramdisk that the header announces. */
  predicate Sound(l: Layout, img: seq<byte>, h: Header, x: Sections, es: seq<seq<byte>>) {
    && InBounds(l, img, h, x) && x.entries == h.num * l.structSize <= x.r
    && es == EntriesOf(l, img, x.Table(), h.num) && Entries(l, es)
    && Sum(SizesOf(l, es)) == h.ramdisk <= x.p
  }

  function PartsOf(l: Layout, img: seq<byte>, h: Header, x: Sections, es: seq<seq<byte>>): Parts
    requires Sound(l, img, h, x, es)
  {
    Parts(h.page, img[..x.o], Cut(img, x.o, SizesOf(l, es)), img[x.o + x.p..x.Table()], es,
          img[x.Table() + x.entries..x.Table() + x.r], img[x.Table() + x.r..x.Total()],
          FooterOf(l, img), |img|)
  }

  lemma PartsFit(l: Layout, img: seq<byte>, h: Header, x: Sections, es: seq<seq<byte>>)
    requires Sound(l, img, h, x, es)
    ensures var c := PartsOf(l, img, h, x, es);
      && Fit(l, c) && |c.footer| <= c.size
      && Sizes(c.frags) == SizesOf(l, es) && |Flat(c.frags)| == h.ramdisk
  {
    hide WellFormed, FooterOf, SizesOf, EntriesOf;
    CutIsFlat(img, x.o, SizesOf(l, es));
  }
}
