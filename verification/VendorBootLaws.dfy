/** What a rewritten vendor_boot image reads back as, and how a replacement is undone. */
module VendorBootLaws {
  import opened Wire
  import opened VendorBoot
  import opened VendorBootUpdate

  lemma SectionAt(out: seq<byte>, w: seq<byte>, s: seq<byte>)
    requires w + s <= out
    ensures out[|w|..|w| + |s|] == s && w <= out
  {
  }

  /** The sections fit the image, and so does the footer, if there is one; the two may overlap. */
  predicate Composable(l: Layout, c: Parts) {
    && Fit(l, c) && |Body(l, c)| <= c.size && |c.footer| <= c.size
    && (c.footer != [] ==> |c.footer| == l.footerSize && l.footerMagic <= c.footer)
  }

  /** The sections end before the footer. */
  predicate Clear(l: Layout, c: Parts) {
    Composable(l, c) && |Body(l, c)| + |c.footer| <= c.size
  }

  /** They do, or what the footer takes the place of are the same bytes. */
  predicate Untouched(l: Layout, c: Parts)
    requires Composable(l, c)
  {
    |Body(l, c)| + |c.footer| <= c.size || Body(l, c)[c.size - |c.footer|..] <= c.footer
  }

  /** The footer is written last: the sections are all there exactly when it leaves them as they are. */
  lemma BodyStands(l: Layout, c: Parts)
    requires Composable(l, c)
    ensures Body(l, c) <= Compose(l, c) <==> Untouched(l, c)
  {
    hide Body, Fit;
    var b, f, out, k := Body(l, c), c.footer, Compose(l, c), c.size - |c.footer|;
    assert out[..k] == (b + Zeros(c.size - |b|))[..k] && out[k..] == f;
    if |b| > k {
      assert b == b[..k] + b[k..] && out[..k] == b[..k];
      assert out[..|b|] == b[..k] + f[..|b| - k];
      assert b[k..] <= f <==> b[k..] == f[..|b| - k];
      SameFront(b[..k], b[k..], f[..|b| - k]);
    } else {
      assert out[..|b|] == b;
    }
  }

  lemma SameFront(a: seq<byte>, x: seq<byte>, y: seq<byte>)
    ensures a + x == a + y <==> x == y
  {
    assert (a + x)[|a|..] == x && (a + y)[|a|..] == y;
  }

  lemma ComposedIs(l: Layout, c: Parts)
    requires Clear(l, c)
    ensures Compose(l, c) == Body(l, c) + Zeros(c.size - |Body(l, c)| - |c.footer|) + c.footer
  {
    hide Body;
    var b := Body(l, c);
    assert Zeros(c.size - |b|) == Zeros(c.size - |b| - |c.footer|) + Zeros(|c.footer|);
  }

  /** Without a footer, the end of the composed image does not look like one either. */
  predicate NoneAppears(l: Layout, c: Parts)
    requires Composable(l, c)
  {
    c.footer == [] ==> !HasFooter(l, Compose(l, c))
  }

  /** The footer reads back exactly when none appears; and none does behind a footer's length of spare bytes. */
  lemma FooterReadsBack(l: Layout, c: Parts)
    requires Composable(l, c)
    ensures FooterOf(l, Compose(l, c)) == c.footer <==> NoneAppears(l, c)
    ensures c.footer != [] || |Body(l, c)| + l.footerSize <= c.size ==> NoneAppears(l, c)
  {
    hide Body, Fit;
    MagicIsNotZero(l, c);
    var out := Compose(l, c);
    if c.footer != [] {
      assert out[|out| - l.footerSize..] == c.footer;
    } else if |Body(l, c)| + l.footerSize <= c.size {
      assert out[|out| - l.footerSize..] == Zeros(l.footerSize);
      assert !(l.footerMagic <= Zeros(l.footerSize));
    }
  }

  lemma MagicIsNotZero(l: Layout, c: Parts)
    requires Fit(l, c)
    ensures 0 < |l.footerMagic| <= l.footerSize && l.footerMagic[0] != 0
  {
  }

  // ---- the sections of a composed image ----

  function Poked(l: Layout, c: Parts): seq<byte>
    requires Fit(l, c)
  {
    Poke32(c.header, l.ramdiskSizeAt, Trunc32(|Flat(c.frags)|))
  }

  /** Where everything is in a composed image. */
  lemma SectionsReadBack(l: Layout, c: Parts)
    requires Composable(l, c) && Untouched(l, c)
    ensures var out := Compose(l, c);
      var o, p, q, t := |c.header|, RoundUp(|Flat(c.frags)|, c.page), |c.dtb|, |Flat(Table(l, c.entries, c.frags, 0))|;
      var at := o + p + q;
      && at + t + |c.tablePad| + |c.bootconfig| == |Body(l, c)| <= |out|
      && Poked(l, c) + Flat(c.frags) <= out
      && out[..o] == Poked(l, c)
      && out[o + |Flat(c.frags)|..o + p] == Zeros(p - |Flat(c.frags)|)
      && out[o + p..at] == c.dtb
      && out[at..at + t] == Flat(Table(l, c.entries, c.frags, 0))
      && out[at + t..at + t + |c.tablePad|] == c.tablePad
      && out[at + t + |c.tablePad|..|Body(l, c)|] == c.bootconfig
  {
    hide WellFormed, Flat, Table, Poke32, Entries, Compose;
    BodyStands(l, c);
    var out := Compose(l, c);
    RoundUpIsAlign(|Flat(c.frags)|, c.page);
    var w0 := Poked(l, c);
    var w1 := w0 + Flat(c.frags);
    var w2 := w1 + Zeros(RamdiskPad(c));
    var w3 := w2 + c.dtb;
    var w4 := w3 + Flat(Table(l, c.entries, c.frags, 0));
    var w5 := w4 + c.tablePad;
    assert Body(l, c) == w5 + c.bootconfig;
    SectionAt(out, w5, c.bootconfig);
    SectionAt(out, w4, c.tablePad);
    SectionAt(out, w3, Flat(Table(l, c.entries, c.frags, 0)));
    SectionAt(out, w2, c.dtb);
    SectionAt(out, w1, Zeros(RamdiskPad(c)));
    SectionAt(out, w0, Flat(c.frags));
  }

  // ---- the header and the table of a composed image ----

  lemma FieldKept(l: Layout, header: seq<byte>, out: seq<byte>, v: u32, at: nat)
    requires l.ramdiskSizeAt + 4 <= |header| <= |out| && at + 4 <= |header|
    requires out[..|header|] == Poke32(header, l.ramdiskSizeAt, v)
    ensures at == l.ramdiskSizeAt ==> U32At(out, at) == v
    ensures Apart(at, 4, l.ramdiskSizeAt, 4) ==> U32At(out, at) == U32At(header, at)
  {
    hide FromLe32, Le32, Poke32;
    assert out[at..at + 4] == Poke32(header, l.ramdiskSizeAt, v)[at..at + 4];
    PokeRead(header, l.ramdiskSizeAt, v);
    if Apart(at, 4, l.ramdiskSizeAt, 4) {
      PokeApart(header, l.ramdiskSizeAt, v, at, 4);
    }
  }

  lemma MagicKept(l: Layout, header: seq<byte>, v: u32)
    requires l.ramdiskSizeAt + 4 <= |header| && |l.magic| <= l.ramdiskSizeAt
    ensures l.magic <= Poke32(header, l.ramdiskSizeAt, v) <==> l.magic <= header
  {
    hide Le32;
    assert Poke32(header, l.ramdiskSizeAt, v)[..|l.magic|] == header[..|l.magic|];
  }

  lemma PrefixField(img: seq<byte>, o: nat, at: nat)
    requires at + 4 <= o <= |img|
    ensures U32At(img[..o], at) == U32At(img, at)
  {
    assert img[..o][at..at + 4] == img[at..at + 4];
  }

  /** An image that begins with another one's header, but for the ramdisk size, has its other fields. */
  lemma HeaderReadsBack(l: Layout, img: seq<byte>, out: seq<byte>, o: nat, v: u32)
    requires HasHeader(l, img) && l.v4Size <= o <= |img| && o <= |out|
    requires out[..o] == Poke32(img[..o], l.ramdiskSizeAt, v)
    ensures HasHeader(l, out) && HeaderOf(l, out) == HeaderOf(l, img).(ramdisk := v)
  {
    hide FromLe32, Le32, Poke32, U32At;
    var header := img[..o];
    forall at: nat | at + 4 <= l.v4Size && Apart(at, 4, l.ramdiskSizeAt, 4) ensures U32At(out, at) == U32At(img, at) {
      FieldKept(l, header, out, v, at);
      PrefixField(img, o, at);
    }
    FieldKept(l, header, out, v, l.ramdiskSizeAt);
    MagicKept(l, header, v);
    assert l.magic <= img ==> l.magic <= header;
    assert l.magic <= out[..o] ==> l.magic <= out;
  }

  lemma EntryFields(l: Layout, e: seq<byte>, offset: u32, size: u32)
    requires WellFormed(l) && |e| == l.structSize
    ensures U32At(Entry(l, e, offset, size), l.sizeAt) == size
    ensures U32At(Entry(l, e, offset, size), l.offsetAt) == offset
    ensures NameOf(l, Entry(l, e, offset, size)) == NameOf(l, e)
  {
    hide FromLe32, Le32, Poke32, UpToZero;
    var e1 := Poke32(e, l.offsetAt, offset);
    PokeRead(e1, l.sizeAt, size);
    PokeRead(e, l.offsetAt, offset);
    PokeApart(e1, l.sizeAt, size, l.offsetAt, 4);
    PokeApart(e, l.offsetAt, offset, l.nameAt, l.nameSize);
    PokeApart(e1, l.sizeAt, size, l.nameAt, l.nameSize);
  }

  lemma EntryTwice(l: Layout, e: seq<byte>, o1: nat, s1: nat, o2: nat, s2: nat)
    requires WellFormed(l) && |e| == l.structSize
    ensures Entry(l, Entry(l, e, o1, s1), o2, s2) == Entry(l, e, o2, s2)
  {
    hide Poke32;
    var a, b := Trunc32(o1), Trunc32(o2);
    var x, y := Trunc32(s1), Trunc32(s2);
    var e1 := Poke32(e, l.offsetAt, a);
    PokesCommute(e1, l.sizeAt, x, l.offsetAt, b);
    PokeTwice(e, l.offsetAt, a, b);
    PokeTwice(Poke32(e, l.offsetAt, b), l.sizeAt, x, y);
  }

  /** Only the last sizes and offsets written into a table remain. */
  lemma {:induction false} TableTwice(l: Layout, es: seq<seq<byte>>, f1: seq<seq<byte>>, a: nat, f2: seq<seq<byte>>, b: nat)
    requires WellFormed(l) && Entries(l, es) && |f1| == |es| == |f2|
    ensures Table(l, Table(l, es, f1, a), f2, b) == Table(l, es, f2, b)
    decreases |es|
  {
    hide WellFormed, Entry;
    if es != [] {
      EntryTwice(l, es[0], a, |f1[0]|, b, |f2[0]|);
      TableTwice(l, es[1..], f1[1..], a + |f1[0]|, f2[1..], b + |f2[0]|);
    }
  }

  /** The sizes in a rewritten table are the fragments' sizes, its offsets their prefix sums, its names the old ones. */
  lemma {:induction false} TableReads(l: Layout, es: seq<seq<byte>>, frags: seq<seq<byte>>, offset: nat, i: nat)
    requires WellFormed(l) && Entries(l, es) && |frags| == |es| && i < |es| && offset + |Flat(frags)| < U32
    ensures var e := Table(l, es, frags, offset)[i];
      && U32At(e, l.sizeAt) == |frags[i]|
      && U32At(e, l.offsetAt) == offset + |Flat(frags[..i])|
      && NameOf(l, e) == NameOf(l, es[i])
  {
    hide WellFormed, Entry, NameOf, U32At;
    TableAt(l, es, frags, offset, i);
    PartsBelow(frags, i);
    EntryFields(l, es[i], offset + |Flat(frags[..i])|, |frags[i]|);
  }

  lemma TableSizes(l: Layout, es: seq<seq<byte>>, frags: seq<seq<byte>>)
    requires WellFormed(l) && Entries(l, es) && |frags| == |es| && |Flat(frags)| < U32
    ensures SizesOf(l, Table(l, es, frags, 0)) == Sizes(frags)
  {
    hide WellFormed, Table, NameOf, SizesOf, Sizes;
    var t := Table(l, es, frags, 0);
    forall i | 0 <= i < |es| ensures SizesOf(l, t)[i] == Sizes(frags)[i] {
      TableReads(l, es, frags, 0, i);
      SizesAt(frags, i);
    }
  }

  lemma {:induction false} EntrySizes(l: Layout, es: seq<seq<byte>>)
    requires Entries(l, es)
    ensures Sizes(es) == Repeat(|es|, l.structSize)
  {
    if es != [] {
      EntrySizes(l, es[1..]);
    }
  }

  // ---- reading a rewritten image back ----

  /** An image read with its own header: what `HeaderOf` and `SectionsOf` give. */
  ghost predicate ReadAs(l: Layout, img: seq<byte>, h: Header, x: Sections, es: seq<seq<byte>>) {
    && HasHeader(l, img) && h == HeaderOf(l, img) && h.page > 0 && x == SectionsOf(l, h)
    && Sound(l, img, h, x, es)
  }

  lemma NewSections(l: Layout, h: Header, x: Sections, total: nat)
    requires h.page > 0 && x == SectionsOf(l, h)
    ensures SectionsOf(l, h.(ramdisk := total)) == x.(p := RoundUp(total, h.page))
  {
  }

  /** The parts of the rewritten image, as they are written. */
  function WrittenParts(l: Layout, c: Parts): Parts
    requires Fit(l, c)
  {
    c.(header := Poked(l, c), entries := Table(l, c.entries, c.frags, 0))
  }

  /** The entries found in a composed image. */
  lemma EntriesReadBack(l: Layout, c: Parts, at: nat)
    requires Composable(l, c)
    requires at + |c.entries| * l.structSize <= |Compose(l, c)|
    requires Compose(l, c)[at..at + |c.entries| * l.structSize] == Flat(Table(l, c.entries, c.frags, 0))
    ensures EntriesOf(l, Compose(l, c), at, |c.entries|) == Table(l, c.entries, c.frags, 0)
  {
    hide WellFormed, Body, Table, Compose, Flat;
    var out, t, n := Compose(l, c), Table(l, c.entries, c.frags, 0), |c.entries| * l.structSize;
    EntrySizes(l, t);
    RepeatSum(|c.entries|, l.structSize);
    assert out == out[..at] + Flat(t) + out[at + n..];
    FlatIsCut(out[..at], t, out[at + n..]);
  }

  lemma FragmentsReadBack(out: seq<byte>, header: seq<byte>, frags: seq<seq<byte>>)
    requires header + Flat(frags) <= out
    ensures |header| + Sum(Sizes(frags)) <= |out| && Cut(out, |header|, Sizes(frags)) == frags
  {
    hide Flat, Cut, Sizes;
    var n := |header + Flat(frags)|;
    assert out == header + Flat(frags) + out[n..];
    FlatIsCut(header, frags, out[n..]);
  }

  /** A readable image, one of its entries, and room for a fragment of that size in its place. */
  ghost predicate Replaceable(l: Layout, img: seq<byte>, h: Header, x: Sections, es: seq<seq<byte>>, idx: nat, data: seq<byte>) {
    && ReadAs(l, img, h, x, es) && idx < |es| && |es| == h.num
    && HasRoom(x, h.page, Sum(SizesOf(l, es)[idx := |data|]), |img|)
  }

  /** The parts of the new image fit it. */
  lemma NewParts(l: Layout, img: seq<byte>, h: Header, x: Sections, es: seq<seq<byte>>, idx: nat, data: seq<byte>)
    requires Replaceable(l, img, h, x, es, idx, data)
    ensures idx < |PartsOf(l, img, h, x, es).frags|
    ensures Composable(l, Replaced(PartsOf(l, img, h, x, es), idx, data))
  {
    hide WellFormed, Flat, Table, Poke32, Entries, EntriesOf, SizesOf, Cut, Body, HeaderOf, HasHeader, SectionsOf, RoundUp, Sum, FooterOf;
    FrontAndRest(l, img, h, x, es, idx, data);
    NewTotal(img, x.o, SizesOf(l, es), idx, data);
    FooterShape(l, img);
  }

  /** The header and the table of a rewritten image. */
  lemma RewrittenHeads(l: Layout, img: seq<byte>, h: Header, x: Sections, es: seq<seq<byte>>, idx: nat, data: seq<byte>)
    requires Replaceable(l, img, h, x, es, idx, data) && idx < |PartsOf(l, img, h, x, es).frags|
    requires var c := Replaced(PartsOf(l, img, h, x, es), idx, data); Composable(l, c) && Untouched(l, c)
    ensures var c := Replaced(PartsOf(l, img, h, x, es), idx, data);
      var out, total := Compose(l, c), |Flat(c.frags)|;
      var newP := RoundUp(total, h.page);
      && total + h.page <= U32 && |out| == |img| && |Body(l, c)| == x.o + newP + x.q + x.r + x.s
      && HasHeader(l, out) && HeaderOf(l, out) == h.(ramdisk := total)
      && x.o + newP + x.q + h.num * l.structSize <= |out|
      && EntriesOf(l, out, x.o + newP + x.q, h.num) == Table(l, es, c.frags, 0)
  {
    hide WellFormed, Flat, Table, Poke32, Entries, EntriesOf, SizesOf, Cut, Body, Compose, FooterOf, HeaderOf, HasHeader,
      SectionsOf, RoundUp, Sum, Sizes, Front, Rest, Zeros, U32At, NameOf, Untouched;
    var c := Replaced(PartsOf(l, img, h, x, es), idx, data);
    FrontAndRest(l, img, h, x, es, idx, data);
    SectionsReadBack(l, c);
    TableSize(l, es, c.frags);
    HeaderReadsBack(l, img, Compose(l, c), x.o, |Flat(c.frags)|);
    EntriesReadBack(l, c, x.o + RoundUp(|Flat(c.frags)|, h.page) + x.q);
  }

  /** A rewritten image is sound again, under the old header but for the ramdisk size. */
  lemma RewrittenIsSound(l: Layout, img: seq<byte>, h: Header, x: Sections, es: seq<seq<byte>>, idx: nat, data: seq<byte>)
    requires Replaceable(l, img, h, x, es, idx, data) && idx < |PartsOf(l, img, h, x, es).frags|
    requires var c := Replaced(PartsOf(l, img, h, x, es), idx, data); Composable(l, c) && Untouched(l, c)
    ensures var c := Replaced(PartsOf(l, img, h, x, es), idx, data);
      var total := |Flat(c.frags)|;
      var h2, x2, es2 := h.(ramdisk := total), x.(p := RoundUp(total, h.page)), Table(l, es, c.frags, 0);
      && ReadAs(l, Compose(l, c), h2, x2, es2) && SizesOf(l, es2) == Sizes(c.frags)
  {
    hide WellFormed, Flat, Table, Poke32, Entries, EntriesOf, SizesOf, Cut, Body, Compose, FooterOf, HeaderOf, HasHeader,
      SectionsOf, RoundUp, Sum, Sizes, Front, Rest, Zeros, U32At, NameOf, PartsOf, Untouched;
    var c := Replaced(PartsOf(l, img, h, x, es), idx, data);
    var total := |Flat(c.frags)|;
    RewrittenHeads(l, img, h, x, es, idx, data);
    PartsFooter(l, img, h, x, es);
    FrontAndRest(l, img, h, x, es, idx, data);
    NewSections(l, h, x, total);
    TableSizes(l, es, c.frags);
    SumOfSizes(c.frags);
    RoundUpIsAlign(total, h.page);
  }

  /** `out` reads back as an image of the parts `c`, with zeros behind its ramdisk and a footer of its own. */
  ghost predicate ReadsBackAs(l: Layout, out: seq<byte>, h: Header, x: Sections, es: seq<seq<byte>>, c: Parts)
    requires Fit(l, c)
  {
    && ReadAs(l, out, h, x, es) && PartsOf(l, out, h, x, es) == WrittenParts(l, c).(footer := FooterOf(l, out))
    && out[x.o + h.ramdisk..x.o + x.p] == Zeros(x.p - h.ramdisk)
  }

  /**
   * Reading back: the rewritten image has the old header but for the ramdisk size, and its parts are the
   * old ones with the fragment replaced, the other fragments, device tree, table padding and bootconfig
   * byte for byte, the table's entries with the new sizes and offsets, exactly when the footer, which is
   * written last, leaves the sections untouched. The footer is the old one exactly when the end of an
   * image without a footer does not look like one.
   */
  lemma RewrittenReadsBack(l: Layout, img: seq<byte>, h: Header, x: Sections, es: seq<seq<byte>>, idx: nat, data: seq<byte>)
    requires Replaceable(l, img, h, x, es, idx, data)
    ensures idx < |PartsOf(l, img, h, x, es).frags| && Composable(l, Replaced(PartsOf(l, img, h, x, es), idx, data))
    ensures var c := Replaced(PartsOf(l, img, h, x, es), idx, data);
      var out := Compose(l, c);
      var total := |Flat(c.frags)|;
      var h2, x2, es2 := h.(ramdisk := total), x.(p := RoundUp(total, h.page)), Table(l, es, c.frags, 0);
      && (ReadsBackAs(l, out, h2, x2, es2, c) <==> Untouched(l, c))
      && (FooterOf(l, out) == c.footer <==> NoneAppears(l, c))
  {
    hide Untouched, NoneAppears, Replaceable, Flat, Table, Compose, FooterOf, RoundUp, Body, WellFormed, Entries, HasHeader,
      HeaderOf, SectionsOf, SizesOf, Cut, EntriesOf, HasRoom, Sum, WrittenParts, Zeros, InBounds;
    ReplaceableMeans(l, img, h, x, es, idx, data);
    NewParts(l, img, h, x, es, idx, data);
    var c := Replaced(PartsOf(l, img, h, x, es), idx, data);
    FooterReadsBack(l, c);
    if Untouched(l, c) {
      ReadsBack(l, img, h, x, es, idx, data);
    } else {
      NotReadBack(l, img, h, x, es, idx, data);
    }
  }

  lemma ReplaceableMeans(l: Layout, img: seq<byte>, h: Header, x: Sections, es: seq<seq<byte>>, idx: nat, data: seq<byte>)
    requires Replaceable(l, img, h, x, es, idx, data)
    ensures Sound(l, img, h, x, es) && idx < |es|
  {
    hide Sound;
  }

  /** Where the sections of a rewritten image are, in terms of those of the old one. */
  lemma RewrittenSlices(l: Layout, img: seq<byte>, h: Header, x: Sections, es: seq<seq<byte>>, idx: nat, data: seq<byte>)
    requires Replaceable(l, img, h, x, es, idx, data) && idx < |PartsOf(l, img, h, x, es).frags|
    requires var c := Replaced(PartsOf(l, img, h, x, es), idx, data); Composable(l, c) && Untouched(l, c)
    ensures var c := Replaced(PartsOf(l, img, h, x, es), idx, data);
      var out, total, p := Compose(l, c), |Flat(c.frags)|, RoundUp(|Flat(c.frags)|, h.page);
      var at := x.o + p + x.q;
      && total <= p && at + x.r + x.s <= |out| && x.entries <= x.r
      && Poked(l, c) + Flat(c.frags) <= out && |Poked(l, c)| == x.o
      && out[..x.o] == Poked(l, c) && out[x.o + total..x.o + p] == Zeros(p - total)
      && out[x.o + p..at] == c.dtb && out[at + x.entries..at + x.r] == c.tablePad
      && out[at + x.r..at + x.r + x.s] == c.bootconfig
  {
    hide WellFormed, Flat, Table, Poke32, Entries, EntriesOf, SizesOf, Cut, Body, Compose, FooterOf, HeaderOf, HasHeader,
      SectionsOf, RoundUp, Sum, Sizes, Zeros, U32At, NameOf, Untouched, Fit;
    InsideIs(l, img, h, x);
    var c := Replaced(PartsOf(l, img, h, x, es), idx, data);
    FrontAndRest(l, img, h, x, es, idx, data);
    TableSize(l, es, c.frags);
    RoundUpIsAlign(|Flat(c.frags)|, h.page);
    SectionsReadBack(l, c);
  }

  lemma ReadsBack(l: Layout, img: seq<byte>, h: Header, x: Sections, es: seq<seq<byte>>, idx: nat, data: seq<byte>)
    requires Replaceable(l, img, h, x, es, idx, data) && idx < |PartsOf(l, img, h, x, es).frags|
    requires var c := Replaced(PartsOf(l, img, h, x, es), idx, data); Composable(l, c) && Untouched(l, c)
    ensures var c := Replaced(PartsOf(l, img, h, x, es), idx, data);
      var out, total := Compose(l, c), |Flat(c.frags)|;
      var h2, x2, es2 := h.(ramdisk := total), x.(p := RoundUp(total, h.page)), Table(l, es, c.frags, 0);
      ReadsBackAs(l, out, h2, x2, es2, c)
  {
    hide WellFormed, Flat, Table, Poke32, Entries, EntriesOf, SizesOf, Cut, Body, Compose, FooterOf, HeaderOf, HasHeader,
      SectionsOf, RoundUp, Sum, Sizes, Zeros, U32At, NameOf, InBounds, HasRoom, Poked, WrittenParts, Untouched, Fit;
    var c := Replaced(PartsOf(l, img, h, x, es), idx, data);
    PartsEntries(l, img, h, x, es);
    RewrittenSlices(l, img, h, x, es, idx, data);
    RewrittenIsSound(l, img, h, x, es, idx, data);
    FragmentsReadBack(Compose(l, c), Poked(l, c), c.frags);
    PartsAre(l, Compose(l, c), h.(ramdisk := |Flat(c.frags)|), x.(p := RoundUp(|Flat(c.frags)|, h.page)), Table(l, es, c.frags, 0), c);
  }

  lemma PartsEntries(l: Layout, img: seq<byte>, h: Header, x: Sections, es: seq<seq<byte>>)
    requires Sound(l, img, h, x, es)
    ensures var c := PartsOf(l, img, h, x, es); c.entries == es && c.page == h.page && c.size == |img| && |c.frags| == |es|
    ensures WellFormed(l) && Entries(l, es) && h.page > 0
  {
  }

  lemma NotReadBack(l: Layout, img: seq<byte>, h: Header, x: Sections, es: seq<seq<byte>>, idx: nat, data: seq<byte>)
    requires Replaceable(l, img, h, x, es, idx, data) && idx < |PartsOf(l, img, h, x, es).frags|
    requires var c := Replaced(PartsOf(l, img, h, x, es), idx, data); Composable(l, c) && !Untouched(l, c)
    ensures var c := Replaced(PartsOf(l, img, h, x, es), idx, data);
      var total := |Flat(c.frags)|;
      !ReadsBackAs(l, Compose(l, c), h.(ramdisk := total), x.(p := RoundUp(total, h.page)), Table(l, es, c.frags, 0), c)
  {
    hide WellFormed, Flat, Table, Poke32, Entries, EntriesOf, SizesOf, Cut, Body, Compose, FooterOf, HeaderOf, HasHeader,
      SectionsOf, RoundUp, Sum, Sizes, Zeros, Untouched, ReadsBackAs;
    var c := Replaced(PartsOf(l, img, h, x, es), idx, data);
    var total := |Flat(c.frags)|;
    var h2, x2, es2 := h.(ramdisk := total), x.(p := RoundUp(total, h.page)), Table(l, es, c.frags, 0);
    BodyStands(l, c);
    if ReadsBackAs(l, Compose(l, c), h2, x2, es2, c) {
      PrefixOfParts(l, Compose(l, c), h2, x2, es2, c);
    }
  }

  /** Where the parts of an image that reads back are. */
  lemma SlicesOfParts(l: Layout, out: seq<byte>, h: Header, x: Sections, es: seq<seq<byte>>, c: Parts)
    requires Fit(l, c) && ReadsBackAs(l, out, h, x, es, c)
    ensures WellFormed(l) && Entries(l, es) && x.entries <= x.r && h.ramdisk <= x.p && x.Total() <= |out|
    ensures out[..x.o] == Poked(l, c) && out[x.o..x.o + h.ramdisk] == Flat(c.frags)
    ensures out[x.o + h.ramdisk..x.o + x.p] == Zeros(x.p - h.ramdisk) && out[x.o + x.p..x.Table()] == c.dtb
    ensures out[x.Table()..x.Table() + x.entries] == Flat(es)
    ensures out[x.Table() + x.entries..x.Table() + x.r] == c.tablePad && out[x.Table() + x.r..x.Total()] == c.bootconfig
  {
    hide WellFormed, Flat, Table, Poke32, Entries, EntriesOf, SizesOf, Cut, FooterOf, HeaderOf, HasHeader,
      SectionsOf, RoundUp, Sum, Sizes, Zeros, Compose, Body;
    SoundMeans(l, out, h, x, es);
    CutIsFlat(out, x.o, SizesOf(l, es));
    EntriesAre(l, out, x.Table(), h.num);
  }

  /** An image that reads back as the parts `c` begins with their sections. */
  lemma PrefixOfParts(l: Layout, out: seq<byte>, h: Header, x: Sections, es: seq<seq<byte>>, c: Parts)
    requires Fit(l, c) && ReadsBackAs(l, out, h, x, es, c)
    requires es == Table(l, c.entries, c.frags, 0) && h.ramdisk == |Flat(c.frags)| && x.p == RoundUp(h.ramdisk, c.page)
    ensures Body(l, c) <= out
  {
    hide WellFormed, Flat, Table, Poke32, Entries, RoundUp, Zeros, Compose, ReadsBackAs, Poked, Fit, Body;
    SlicesOfParts(l, out, h, x, es, c);
    BodyIs(l, c);
    SixPieces(out, x.o, x.o + h.ramdisk, x.o + x.p, x.Table(), x.Table() + x.entries, x.Table() + x.r, x.Total());
  }

  lemma BodyIs(l: Layout, c: Parts)
    requires Fit(l, c)
    ensures WellFormed(l) && c.page > 0 && |c.entries| == |c.frags| && Entries(l, c.entries)
    ensures |Flat(c.frags)| <= RoundUp(|Flat(c.frags)|, c.page)
    ensures Body(l, c) == Poked(l, c) + Flat(c.frags) + Zeros(RoundUp(|Flat(c.frags)|, c.page) - |Flat(c.frags)|) + c.dtb +
      Flat(Table(l, c.entries, c.frags, 0)) + c.tablePad + c.bootconfig
  {
    RoundUpIsAlign(|Flat(c.frags)|, c.page);
  }

  lemma SoundMeans(l: Layout, img: seq<byte>, h: Header, x: Sections, es: seq<seq<byte>>)
    requires Sound(l, img, h, x, es)
    ensures WellFormed(l) && Entries(l, es) && Sum(SizesOf(l, es)) == h.ramdisk <= x.p && x.entries <= x.r
    ensures x.entries == h.num * l.structSize && x.Total() <= |img| && es == EntriesOf(l, img, x.Table(), h.num)
  {
  }

  lemma SixPieces(s: seq<byte>, a: nat, b: nat, c: nat, d: nat, e: nat, f: nat, g: nat)
    requires a <= b <= c <= d <= e <= f <= g <= |s|
    ensures s[..a] + s[a..b] + s[b..c] + s[c..d] + s[d..e] + s[e..f] + s[f..g] == s[..g]
  {
    assert s[..g] == s[..f] + s[f..g];
    Seven(s[..f], a, b, c, d, e, f);
    assert s[..f][f..] == [] && s[..f][..a] == s[..a] && s[..f][a..b] == s[a..b] && s[..f][b..c] == s[b..c];
    assert s[..f][c..d] == s[c..d] && s[..f][d..e] == s[d..e] && s[..f][e..f] == s[e..f];
  }

  /** An image whose sections are those of `c` has the parts of `c`, with a footer of its own. */
  lemma PartsAre(l: Layout, out: seq<byte>, h: Header, x: Sections, es: seq<seq<byte>>, c: Parts)
    requires Sound(l, out, h, x, es) && Fit(l, c) && c.page == h.page && |out| == c.size
    requires out[..x.o] == Poked(l, c) && Cut(out, x.o, SizesOf(l, es)) == c.frags && es == Table(l, c.entries, c.frags, 0)
    requires out[x.o + x.p..x.Table()] == c.dtb && out[x.Table() + x.entries..x.Table() + x.r] == c.tablePad
    requires out[x.Table() + x.r..x.Total()] == c.bootconfig
    ensures PartsOf(l, out, h, x, es) == WrittenParts(l, c).(footer := FooterOf(l, out))
  {
    hide WellFormed, Flat, Table, Poke32, Entries, EntriesOf, SizesOf, Cut, FooterOf, Sum, Poked, InBounds, Compose, Body, Zeros;
  }

  lemma NamesKept(l: Layout, es: seq<seq<byte>>, frags: seq<seq<byte>>, idx: nat, name: seq<byte>)
    requires WellFormed(l) && Entries(l, es) && |frags| == |es| && |Flat(frags)| < U32
    ensures forall i :: Named(l, es, i, name) <==> Named(l, Table(l, es, frags, 0), i, name)
  {
    hide WellFormed, Table, NameOf, Flat;
    var t := Table(l, es, frags, 0);
    forall i: nat ensures Named(l, es, i, name) <==> Named(l, t, i, name) {
      if i < |es| {
        TableReads(l, es, frags, 0, i);
      }
    }
  }

  // ---- undoing a replacement ----

  /** Writing the parts of an image in their canonical form gives back the image. */
  ghost predicate Canonical(l: Layout, img: seq<byte>, h: Header, x: Sections, es: seq<seq<byte>>)
    requires Sound(l, img, h, x, es)
  {
    var c := PartsOf(l, img, h, x, es);
    Composable(l, c) && Compose(l, c) == img
  }

  /** Replacing in a rewritten image starts from the same parts as replacing in the first one. */
  lemma RewriteTwice(l: Layout, c: Parts, idx: nat, data: seq<byte>, f: seq<byte>)
    requires Fit(l, c) && idx < |c.frags| && Fit(l, Replaced(c, idx, data))
    ensures var w := WrittenParts(l, c).(footer := f);
      && Fit(l, w) && Fit(l, Replaced(w, idx, data))
      && Body(l, Replaced(w, idx, data)) == Body(l, Replaced(c, idx, data))
  {
    hide Flat, Table, Poke32, Entries;
    var d := Replaced(c, idx, data);
    FieldInHeader(l);
    PokeTwice(c.header, l.ramdiskSizeAt, Trunc32(|Flat(c.frags)|), Trunc32(|Flat(d.frags)|));
    TableTwice(l, c.entries, c.frags, 0, d.frags, 0);
  }

  lemma TakenBack(frags: seq<seq<byte>>, idx: nat, data: seq<byte>)
    requires idx < |frags|
    ensures frags[idx := data][idx := frags[idx]] == frags
  {
  }

  lemma RoomForOld(l: Layout, img: seq<byte>, h: Header, x: Sections, es: seq<seq<byte>>, idx: nat, data: seq<byte>)
    requires Sound(l, img, h, x, es) && idx < |es| && x.p == RoundUp(h.ramdisk, h.page)
    ensures idx < |PartsOf(l, img, h, x, es).frags|
    ensures var c := PartsOf(l, img, h, x, es);
      var sizes := Sizes(c.frags[idx := data]);
      && Sum(sizes[idx := |c.frags[idx]|]) == h.ramdisk
      && HasRoom(x, h.page, h.ramdisk, |img|)
  {
    hide Flat, Cut, Sum;
    var c := PartsOf(l, img, h, x, es);
    PartsFit(l, img, h, x, es);
    SizesUpdate(c.frags, idx, data);
    SizesAt(c.frags, idx);
    assert Sizes(c.frags)[idx := |data|][idx := |c.frags[idx]|] == Sizes(c.frags);
  }

  /** A canonical image with a fragment of that name, and room for its replacement under which the sections stand. */
  ghost predicate Undoable(l: Layout, img: seq<byte>, h: Header, x: Sections, es: seq<seq<byte>>, name: seq<byte>,
                           idx: nat, data: seq<byte>) {
    && ReadAs(l, img, h, x, es) && |es| == h.num && idx < |es|
    && CanReplace(l, img, name, data, idx) && Canonical(l, img, h, x, es)
    && idx < |PartsOf(l, img, h, x, es).frags|
    && var d := Replaced(PartsOf(l, img, h, x, es), idx, data);
    Composable(l, d) && Untouched(l, d)
  }

  /**
   * Replacing a fragment and then replacing it back with its old bytes: the second replacement is
   * possible, and for a canonical image it restores every byte exactly when no footer appears at the end
   * of the first replacement's result, which the second one would carry over.
   */
  lemma ReplaceAndRestore(l: Layout, img: seq<byte>, h: Header, x: Sections, es: seq<seq<byte>>, name: seq<byte>,
                          idx: nat, data: seq<byte>)
    requires Undoable(l, img, h, x, es, name, idx, data)
    ensures Sound(l, img, h, x, es) && idx < |PartsOf(l, img, h, x, es).frags| && CanReplace(l, img, name, data, idx)
    ensures Composable(l, Replaced(PartsOf(l, img, h, x, es), idx, data))
    ensures var former := PartsOf(l, img, h, x, es).frags[idx];
      var out := Rewritten(l, img, name, data, idx);
      && CanReplace(l, out, name, former, idx)
      && (Rewritten(l, out, name, former, idx) == img <==> NoneAppears(l, Replaced(PartsOf(l, img, h, x, es), idx, data)))
  {
    hide WellFormed, Flat, Table, Poke32, Entries, EntriesOf, SizesOf, Cut, Body, HeaderOf, HasHeader, CanReplace, Rewritten,
      RoundUp, Sum, Sizes, Named, Fit, Compose, Sound, InBounds, ReadAs, FooterOf, Undoable;
    UndoableMeans(l, img, h, x, es, name, idx, data);
    var c := PartsOf(l, img, h, x, es);
    var d := Replaced(c, idx, data);
    var former := c.frags[idx];
    var out := Rewritten(l, img, name, data, idx);
    SecondStep(l, img, h, x, es, name, idx, data);
    FooterReadsBack(l, d);
    FooterShape(l, out);
    BackAgain(l, img, c, Replaced(WrittenParts(l, d).(footer := FooterOf(l, out)), idx, former), FooterOf(l, out));
  }

  lemma UndoableMeans(l: Layout, img: seq<byte>, h: Header, x: Sections, es: seq<seq<byte>>, name: seq<byte>, idx: nat,
                      data: seq<byte>)
    requires Undoable(l, img, h, x, es, name, idx, data)
    ensures Sound(l, img, h, x, es) && CanReplace(l, img, name, data, idx)
    ensures var c := PartsOf(l, img, h, x, es); idx < |c.frags| && Composable(l, Replaced(c, idx, data))
  {
    hide WellFormed, Flat, Sound, PartsOf, Composable, Untouched, CanReplace;
  }

  lemma FooterShape(l: Layout, img: seq<byte>)
    ensures var f := FooterOf(l, img); f == [] || (|f| == l.footerSize && l.footerMagic <= f)
  {
  }

  /** The second replacement writes the first image's parts, under the footer of the first result. */
  lemma SecondStep(l: Layout, img: seq<byte>, h: Header, x: Sections, es: seq<seq<byte>>, name: seq<byte>,
                   idx: nat, data: seq<byte>)
    requires Undoable(l, img, h, x, es, name, idx, data)
    ensures var c := PartsOf(l, img, h, x, es); var former := c.frags[idx]; var d := Replaced(c, idx, data);
      var out := Rewritten(l, img, name, data, idx);
      && out == Compose(l, d) && Composable(l, c) && Compose(l, c) == img && c.footer == FooterOf(l, img) && |img| == c.size
      && CanReplace(l, out, name, former, idx) && |out| == |img| && idx < |WrittenParts(l, d).frags|
      && var back := Replaced(WrittenParts(l, d).(footer := FooterOf(l, out)), idx, former);
      && Fit(l, back) && Body(l, back) == Body(l, c) && back.size == c.size
      && Rewritten(l, out, name, former, idx) == Compose(l, back)
  {
    hide WellFormed, Flat, Table, Poke32, Entries, EntriesOf, SizesOf, Cut, Body, FooterOf, HeaderOf, HasHeader,
      RoundUp, Sum, Sizes, Named, Fit;
    var c := PartsOf(l, img, h, x, es);
    var d := Replaced(c, idx, data);
    var former := c.frags[idx];
    var out := Rewritten(l, img, name, data, idx);
    var total := |Flat(d.frags)|;
    var h2, x2, es2 := h.(ramdisk := total), x.(p := RoundUp(total, h.page)), Table(l, es, d.frags, 0);
    RewrittenReadsBack(l, img, h, x, es, idx, data);
    NamesKept(l, es, d.frags, idx, name);
    TableSizes(l, es, d.frags);
    RoomForOld(l, img, h, x, es, idx, data);
    FrontAndRest(l, out, h2, x2, es2, idx, former);
    TakenBack(c.frags, idx, data);
    PartsFit(l, img, h, x, es);
    RewriteTwice(l, d, idx, former, FooterOf(l, out));
  }

  /** The same sections under a footer `f` are the image exactly when it ends in it. */
  lemma BackAgain(l: Layout, img: seq<byte>, c: Parts, back: Parts, f: seq<byte>)
    requires Composable(l, c) && Compose(l, c) == img && c.footer == FooterOf(l, img)
    requires Fit(l, back) && Body(l, back) == Body(l, c) && back.size == c.size && back.footer == f && |f| <= c.size
    requires f == [] || (|f| == l.footerSize && l.footerMagic <= f)
    requires c.footer != [] ==> f == c.footer
    ensures Compose(l, back) == img <==> f == c.footer
  {
    hide Body, Fit, WellFormed;
    if f != [] && c.footer == [] {
      assert Compose(l, back)[c.size - |f|..] == f;
    }
  }

  // ---- which images are canonical ----

  lemma TwoSplits(a: seq<byte>, b: seq<byte>, c: seq<byte>, d: seq<byte>)
    requires |a| == |c|
    ensures a + b == c + d <==> a == c && b == d
  {
    if a + b == c + d {
      assert (a + b)[..|a|] == a && (a + b)[|a|..] == b;
      assert (c + d)[..|a|] == c && (c + d)[|a|..] == d;
    }
  }

  /** Two sequences cut at the same places, with three pairs of pieces that may differ. */
  lemma Pairwise(a: seq<byte>, x: seq<byte>, b: seq<byte>, t: seq<byte>, d: seq<byte>, y: seq<byte>, f: seq<byte>,
                 x2: seq<byte>, t2: seq<byte>, y2: seq<byte>)
    requires |x| == |x2| && |t| == |t2| && |y| == |y2|
    ensures a + x + b + t + d + y + f == a + x2 + b + t2 + d + y2 + f <==> x == x2 && t == t2 && y == y2
  {
    TwoSplits(a + x + b + t + d + y, f, a + x2 + b + t2 + d + y2, f);
    TwoSplits(a + x + b + t + d, y, a + x2 + b + t2 + d, y2);
    TwoSplits(a + x + b + t, d, a + x2 + b + t2, d);
    TwoSplits(a + x + b, t, a + x2 + b, t2);
    TwoSplits(a + x, b, a + x2, b);
    TwoSplits(a, x, a, x2);
  }

  lemma SameStretches(s: seq<byte>, s2: seq<byte>, a: seq<byte>, x: seq<byte>, b: seq<byte>, t: seq<byte>, d: seq<byte>,
                      y: seq<byte>, f: seq<byte>, x2: seq<byte>, t2: seq<byte>, y2: seq<byte>)
    requires |x| == |x2| && |t| == |t2| && |y| == |y2|
    requires s == a + x + b + t + d + y + f && s2 == a + x2 + b + t2 + d + y2 + f
    ensures s == s2 <==> x == x2 && t == t2 && y == y2
  {
    Pairwise(a, x, b, t, d, y, f, x2, t2, y2);
  }

  /** An image in seven stretches: up to the ramdisk's end, its padding, the tree, the table, and so on. */
  lemma Stretches(l: Layout, img: seq<byte>, h: Header, x: Sections, es: seq<seq<byte>>)
    requires Sound(l, img, h, x, es) && x.Total() + |FooterOf(l, img)| <= |img|
    ensures var c := PartsOf(l, img, h, x, es);
      img == img[..x.o + h.ramdisk] + img[x.o + h.ramdisk..x.o + x.p] + c.dtb + Flat(es) + img[x.Table() + x.entries..x.Total()] +
        img[x.Total()..|img| - |c.footer|] + c.footer
  {
    hide WellFormed, Entries, Flat, Cut, Sum, SizesOf, EntriesOf, FooterOf;
    EntriesAre(l, img, x.Table(), h.num);
    FooterAtEnd(l, img);
    Seven(img, x.o + h.ramdisk, x.o + x.p, x.Table(), x.Table() + x.entries, x.Total(), |img| - |FooterOf(l, img)|);
  }

  lemma InsideIs(l: Layout, img: seq<byte>, h: Header, x: Sections)
    requires InBounds(l, img, h, x)
    ensures h.page > 0 && x.Total() <= |img|
  {
  }

  lemma PartsFooter(l: Layout, img: seq<byte>, h: Header, x: Sections, es: seq<seq<byte>>)
    requires Sound(l, img, h, x, es)
    ensures var c := PartsOf(l, img, h, x, es); c.footer == FooterOf(l, img) && c.entries == es && WellFormed(l)
  {
  }

  lemma FooterAtEnd(l: Layout, img: seq<byte>)
    ensures FooterOf(l, img) == img[|img| - |FooterOf(l, img)|..]
  {
  }

  lemma Seven(s: seq<byte>, a: nat, b: nat, c: nat, d: nat, e: nat, f: nat)
    requires a <= b <= c <= d <= e <= f <= |s|
    ensures s == s[..a] + s[a..b] + s[b..c] + s[c..d] + s[d..e] + s[e..f] + s[f..]
  {
    assert s[..a] + s[a..b] == s[..b];
    assert s[..b] + s[b..c] == s[..c];
    assert s[..c] + s[c..d] == s[..d];
    assert s[..d] + s[d..e] == s[..e];
    assert s[..e] + s[e..f] == s[..f];
  }

  lemma SameTable(l: Layout, a: seq<seq<byte>>, b: seq<seq<byte>>)
    requires Entries(l, a) && Entries(l, b) && |a| == |b|
    ensures Flat(a) == Flat(b) <==> a == b
  {
    EntrySizes(l, a);
    EntrySizes(l, b);
    FlatIsCut([], a, []);
    FlatIsCut([], b, []);
  }

  lemma HeaderStays(l: Layout, img: seq<byte>, h: Header, x: Sections, es: seq<seq<byte>>)
    requires Sound(l, img, h, x, es) && U32At(img, l.ramdiskSizeAt) == h.ramdisk
    ensures var c := PartsOf(l, img, h, x, es);
      l.ramdiskSizeAt + 4 <= |c.header| && Poke32(c.header, l.ramdiskSizeAt, Trunc32(h.ramdisk)) == c.header
  {
    hide WellFormed, Entries, Cut, Sum, SizesOf, EntriesOf, FooterOf, Poke32, U32At;
    FieldInHeader(l);
    PrefixField(img, x.o, l.ramdiskSizeAt);
    PokeSame(img[..x.o], l.ramdiskSizeAt);
  }

  /** The sections of an image's parts, when the header already says the ramdisk's size. */
  lemma BodyOfParts(l: Layout, img: seq<byte>, h: Header, x: Sections, es: seq<seq<byte>>)
    requires Sound(l, img, h, x, es)
    requires U32At(img, l.ramdiskSizeAt) == h.ramdisk && x.p == RoundUp(h.ramdisk, h.page)
    ensures var c := PartsOf(l, img, h, x, es);
      |c.frags| == |es| && Fit(l, c) && |Flat(Table(l, es, c.frags, 0))| == |Flat(es)| == x.entries
      && Body(l, c) == c.header + Flat(c.frags) + Zeros(x.p - h.ramdisk) + c.dtb + Flat(Table(l, es, c.frags, 0)) +
           c.tablePad + c.bootconfig
  {
    hide WellFormed, Entries, Flat, Cut, Sum, SizesOf, EntriesOf, FooterOf, Table, Poke32, RoundUp, U32At, Zeros;
    var c := PartsOf(l, img, h, x, es);
    PartsFit(l, img, h, x, es);
    HeaderStays(l, img, h, x, es);
    TableSize(l, es, c.frags);
    FlatOfEntries(l, es);
  }

  /** The composed image in the same seven stretches. */
  lemma ComposedStretches(l: Layout, img: seq<byte>, h: Header, x: Sections, es: seq<seq<byte>>)
    requires Sound(l, img, h, x, es) && Clear(l, PartsOf(l, img, h, x, es))
    requires U32At(img, l.ramdiskSizeAt) == h.ramdisk && x.p == RoundUp(h.ramdisk, h.page)
    ensures var c := PartsOf(l, img, h, x, es);
      |c.frags| == |es| &&
      var t := Flat(Table(l, es, c.frags, 0));
      && |t| == |Flat(es)| && x.Total() + |c.footer| <= |img|
      && Compose(l, c) == img[..x.o + h.ramdisk] + Zeros(x.p - h.ramdisk) + c.dtb + t + img[x.Table() + x.entries..x.Total()] +
           Zeros(|img| - x.Total() - |c.footer|) + c.footer
  {
    hide WellFormed, Entries, Flat, Cut, Sum, SizesOf, EntriesOf, FooterOf, Table, Poke32, RoundUp, U32At, Zeros, Body, Compose;
    var c := PartsOf(l, img, h, x, es);
    BodyOfParts(l, img, h, x, es);
    CutIsFlat(img, x.o, SizesOf(l, es));
    ComposedIs(l, c);
    TwoInARow(img, 0, x.o, x.o + h.ramdisk);
    TwoInARow(img, x.Table() + x.entries, x.Table() + x.r, x.Total());
    assert img[0..x.o] == img[..x.o] && img[0..x.o + h.ramdisk] == img[..x.o + h.ramdisk];
    Regrouped(Compose(l, c), Body(l, c), c.header, Flat(c.frags), Zeros(x.p - h.ramdisk), c.dtb, Flat(Table(l, es, c.frags, 0)),
              c.tablePad, c.bootconfig, Zeros(|img| - x.Total() - |c.footer|), c.footer,
              img[..x.o + h.ramdisk], img[x.Table() + x.entries..x.Total()]);
  }

  lemma TwoInARow(s: seq<byte>, a: nat, b: nat, c: nat)
    requires a <= b <= c <= |s|
    ensures s[a..c] == s[a..b] + s[b..c]
  {
  }

  lemma Regrouped(out: seq<byte>, body: seq<byte>, p: seq<byte>, f: seq<byte>, z: seq<byte>, d: seq<byte>, t: seq<byte>,
                  a: seq<byte>, b: seq<byte>, y: seq<byte>, e: seq<byte>, pf: seq<byte>, ab: seq<byte>)
    requires body == p + f + z + d + t + a + b && out == body + y + e && pf == p + f && ab == a + b
    ensures out == pf + z + d + t + ab + y + e
  {
    assert body == pf + z + d + t + ab;
  }

  /** Zero padding behind the ramdisk, offsets that are prefix sums, zeros before the footer. */
  ghost predicate CanonicalForm(l: Layout, img: seq<byte>, h: Header, x: Sections, es: seq<seq<byte>>)
    requires Sound(l, img, h, x, es)
  {
    var frags := PartsOf(l, img, h, x, es).frags;
    && x.Total() + |FooterOf(l, img)| <= |img| && |frags| == |es|
    && img[x.o + h.ramdisk..x.o + x.p] == Zeros(x.p - h.ramdisk)
    && Table(l, es, frags, 0) == es
    && img[x.Total()..|img| - |FooterOf(l, img)|] == Zeros(|img| - x.Total() - |FooterOf(l, img)|)
  }

  /**
   * An image is canonical exactly when the padding behind the ramdisk and the bytes between the last
   * section and the footer are zero and every offset in its table is the sum of the sizes before it.
   */
  lemma CanonicalExactly(l: Layout, img: seq<byte>, h: Header, x: Sections, es: seq<seq<byte>>)
    requires ReadAs(l, img, h, x, es) && Clear(l, PartsOf(l, img, h, x, es))
    ensures Canonical(l, img, h, x, es) <==> CanonicalForm(l, img, h, x, es)
  {
    hide WellFormed, Entries, Flat, Cut, Sum, SizesOf, EntriesOf, FooterOf, Table, RoundUp, U32At, Compose, Body, PartsOf,
      Zeros, Fit, InBounds;
    InsideIs(l, img, h, x);
    var c := PartsOf(l, img, h, x, es);
    PartsFooter(l, img, h, x, es);
    ComposedStretches(l, img, h, x, es);
    var t := Table(l, es, c.frags, 0);
    Stretches(l, img, h, x, es);
    SameTable(l, t, es);
    SameStretches(Compose(l, c), img, img[..x.o + h.ramdisk], Zeros(x.p - h.ramdisk), c.dtb, Flat(t),
                  img[x.Table() + x.entries..x.Total()], Zeros(|img| - x.Total() - |c.footer|), c.footer,
                  img[x.o + h.ramdisk..x.o + x.p], Flat(es), img[x.Total()..|img| - |c.footer|]);
  }
}
