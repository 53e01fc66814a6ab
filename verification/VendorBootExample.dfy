/** Small images: what is said about replacing fragments applies to them, and where its conditions bite. */
module VendorBootExample {
  import opened Wire
  import opened VendorBoot
  import opened VendorBootUpdate
  import opened VendorBootLaws

  function Small(): Layout {
    Layout([7], 1, 5, 9, 13, 17, 17, 21, 25, 29, 33, 9, 0, 4, 8, 1, 1, [9])
  }

  /** A header that announces `num` entries, then one of one byte; no device tree, no bootconfig; then `tail`. */
  function Image(num: u32, name: byte, tail: seq<byte>): (img: seq<byte>)
    ensures |img| == 43 + |tail|
  {
    [7] + Le32(4) + Le32(1) + Le32(1) + Le32(0) + Le32(9) + Le32(num) + Le32(9) + Le32(0) +
    [42] + Le32(1) + Le32(0) + [name] + tail
  }

  function H(num: u32): Header {
    Header(1, 1, 0, 9, num, 9, 0)
  }

  function X(num: u32): Sections {
    Sections(33, 1, 0, 9, 0, num * 9)
  }

  lemma Fields(num: u32, name: byte, tail: seq<byte>)
    ensures WellFormed(Small())
    ensures HasHeader(Small(), Image(num, name, tail)) && HeaderOf(Small(), Image(num, name, tail)) == H(num)
  {
    hide FromLe32, Le32;
    var img := Image(num, name, tail);
    assert img[1..5] == Le32(4);
    assert img[5..9] == Le32(1);
    assert img[9..13] == Le32(1);
    assert img[13..17] == Le32(0);
    assert img[17..21] == Le32(9);
    assert img[21..25] == Le32(num);
    assert img[25..29] == Le32(9);
    assert img[29..33] == Le32(0);
    Le32RoundTrip(0);
    Le32RoundTrip(1);
    Le32RoundTrip(4);
    Le32RoundTrip(9);
    Le32RoundTrip(num);
  }

  lemma Lengths(num: u32)
    ensures SectionsOf(Small(), H(num)) == X(num)
  {
  }

  /** Two announced entries in a section of one pass both size checks, and the second one lies behind the image. */
  lemma ReadsLeaveTheImage(name: byte, tail: seq<byte>)
    requires |tail| < 9
    ensures var img := Image(2, name, tail);
      && HasHeader(Small(), img) && HeaderOf(Small(), img) == H(2)
      && PassesChecks(Small(), img, H(2)) && !ReadsInside(Small(), img, H(2))
  {
    hide HasHeader, HeaderOf, SectionsOf, ReadsInside;
    Fields(2, name, tail);
    Lengths(2);
    ReadsInsideExactly(Small(), Image(2, name, tail), H(2));
  }

  // ---- replacing the one fragment ----

  function TableEntry(name: byte): seq<byte> {
    Le32(1) + Le32(0) + [name]
  }

  lemma TableIs(name: byte, tail: seq<byte>)
    requires name != 0
    ensures EntriesOf(Small(), Image(1, name, tail), 34, 1) == [TableEntry(name)]
    ensures SizesOf(Small(), [TableEntry(name)]) == [1] && Sum([1]) == 1
    ensures NameOf(Small(), TableEntry(name)) == [name]
  {
    hide Le32, FromLe32;
    var img, e := Image(1, name, tail), TableEntry(name);
    assert img[34..43] == e;
    assert Repeat(1, 9) == [9] && [9][1..] == [];
    assert Cut(img, 43, []) == [];
    assert e[0..4] == Le32(1);
    Le32RoundTrip(1);
    assert [e][1..] == [] && SizesOf(Small(), []) == [];
    assert e[8..9] == [name] && [name][1..] == [];
    assert UpToZero([name]) == [name];
    assert [1][1..] == [];
  }

  lemma IsSound(name: byte, tail: seq<byte>)
    requires name != 0 && |tail| < 100
    ensures ReadAs(Small(), Image(1, name, tail), H(1), X(1), [TableEntry(name)])
    ensures Usable(Small(), Image(1, name, tail))
  {
    hide Le32, FromLe32, SizesOf, Sum, EntriesOf, HasHeader, HeaderOf, RoundUp, SectionsOf, ReadsInside, Image;
    Fields(1, name, tail);
    Lengths(1);
    TableIs(name, tail);
    ReadsInsideExactly(Small(), Image(1, name, tail), H(1));
  }

  /** The fragment can be replaced by anything that fits into its place and the bytes behind. */
  lemma Replaceable(name: byte, tail: seq<byte>, data: seq<byte>)
    requires name != 0 && |tail| < 100 && 1 <= |data| <= 1 + |tail|
    ensures CanReplace(Small(), Image(1, name, tail), [name], data, 0)
  {
    hide Le32, FromLe32, SizesOf, Sum, EntriesOf, HasHeader, HeaderOf, SectionsOf, Sound, NameOf, TableEntry, Image;
    Fields(1, name, tail);
    Lengths(1);
    TableIs(name, tail);
    IsSound(name, tail);
    SumOfOne(|data|);
    assert [1][0 := |data|] == [|data|];
    assert RoundUp(|data|, 1) == |data|;
  }

  lemma SumOfNone()
    ensures Sum([]) == 0
  {
  }

  lemma SumOfOne(n: nat)
    ensures Sum([n]) == n
  {
    assert [n][1..] == [] && Sum([]) == 0;
  }

  /** The footer of such an image is its last byte, if that is the magic. */
  function Foot(name: byte, tail: seq<byte>): seq<byte> {
    if (if tail == [] then name else tail[|tail| - 1]) == 9 then [9] else []
  }

  /** Zeros behind the sections, and perhaps a footer. */
  predicate Bare(name: byte, tail: seq<byte>) {
    |tail| < 100 && (tail != [] || name != 9) && forall i :: 0 <= i < |tail| - |Foot(name, tail)| ==> tail[i] == 0
  }

  function Fragments(name: byte, tail: seq<byte>, data: seq<byte>): Parts {
    Parts(1, Image(1, name, tail)[..33], [data], [], [TableEntry(name)], [], [], Foot(name, tail), 43 + |tail|)
  }

  lemma PartsAre(name: byte, tail: seq<byte>)
    requires name != 0 && |tail| < 100
    ensures Sound(Small(), Image(1, name, tail), H(1), X(1), [TableEntry(name)])
    ensures PartsOf(Small(), Image(1, name, tail), H(1), X(1), [TableEntry(name)]) == Fragments(name, tail, [42])
  {
    hide Le32, FromLe32, SizesOf, EntriesOf, HasHeader, HeaderOf, SectionsOf, Sum, FooterOf;
    IsSound(name, tail);
    TableIs(name, tail);
    var img := Image(1, name, tail);
    assert img[33..34] == [42];
    SumOfNone();
    assert [1][1..] == [];
    assert Cut(img, 34, []) == [];
    assert Cut(img, 33, [1]) == [[42]];
    FootIs(name, tail);
  }

  lemma OneByte(a: byte, b: byte)
    ensures [a] <= [b] <==> a == b
  {
    assert [b][..|[a]|] == [b] && [a][0] == a && [b][0] == b;
  }

  lemma FootIs(name: byte, tail: seq<byte>)
    ensures FooterOf(Small(), Image(1, name, tail)) == Foot(name, tail)
  {
    hide Le32;
    var img := Image(1, name, tail);
    var last := if tail == [] then name else tail[|tail| - 1];
    assert img[|img| - 1..] == [last];
    OneByte(9, last);
  }

  lemma EntryStays(name: byte)
    ensures Entry(Small(), TableEntry(name), 0, 1) == TableEntry(name)
  {
    hide Le32, FromLe32;
    var e := TableEntry(name);
    assert e[0..4] == Le32(1) && e[4..8] == Le32(0);
    Le32RoundTrip(1);
    Le32RoundTrip(0);
    PokeSame(e, 4);
    PokeSame(e, 0);
  }

  lemma HasRoomBehind(name: byte, tail: seq<byte>, data: seq<byte>)
    requires |tail| < 100 && 1 <= |data| <= 1 + |tail|
    ensures Composable(Small(), Fragments(name, tail, data))
    ensures Clear(Small(), Fragments(name, tail, data)) <==> |data| + |Foot(name, tail)| <= 1 + |tail|
    ensures |Body(Small(), Fragments(name, tail, data))| == 42 + |data|
  {
    hide Le32, FromLe32, Entry;
    assert [data][1..] == [] && Flat([data]) == data;
    assert RoundUp(|data|, 1) == |data|;
    var e := Table(Small(), [TableEntry(name)], [data], 0);
    assert [TableEntry(name)][1..] == [] && |e| == 1 && |e[0]| == 9;
    assert Flat(e) == e[0] + Flat(e[1..]) && e[1..] == [];
  }

  lemma TableStays(name: byte)
    ensures Table(Small(), [TableEntry(name)], [[42]], 0) == [TableEntry(name)]
  {
    hide Entry, TableEntry;
    EntryStays(name);
    assert [[42]][1..] == [] && [TableEntry(name)][1..] == [];
    assert Table(Small(), [], [], 1) == [];
  }

  lemma ZerosAround(name: byte, tail: seq<byte>)
    requires Bare(name, tail)
    ensures var img, n := Image(1, name, tail), |tail| - |Foot(name, tail)|;
      0 <= n && img[34..34] == Zeros(0) && img[43..43 + n] == Zeros(n)
  {
    hide Le32;
    assert |Foot(name, tail)| <= |tail|;
  }

  lemma IsCanonical(name: byte, tail: seq<byte>)
    requires name != 0 && Bare(name, tail)
    ensures Sound(Small(), Image(1, name, tail), H(1), X(1), [TableEntry(name)])
    ensures Canonical(Small(), Image(1, name, tail), H(1), X(1), [TableEntry(name)])
  {
    hide SizesOf, EntriesOf, HasHeader, HeaderOf, SectionsOf, Sound, ReadAs, Canonical, Clear, Entry, PartsOf, Table, Image,
      FooterOf, TableEntry, Composable;
    IsSound(name, tail);
    PartsAre(name, tail);
    HasRoomBehind(name, tail, [42]);
    TableStays(name);
    ZerosAround(name, tail);
    FootIs(name, tail);
    CanonicalExactly(Small(), Image(1, name, tail), H(1), X(1), [TableEntry(name)]);
  }

  lemma Gather(l: Layout, img: seq<byte>, h: Header, x: Sections, es: seq<seq<byte>>, name: seq<byte>, idx: nat,
               data: seq<byte>, c: Parts)
    requires ReadAs(l, img, h, x, es) && |es| == h.num && idx < |es|
    requires CanReplace(l, img, name, data, idx) && Canonical(l, img, h, x, es)
    requires c == PartsOf(l, img, h, x, es) && idx < |c.frags|
    requires var d := Replaced(c, idx, data); Composable(l, d) && Untouched(l, d)
    ensures Undoable(l, img, h, x, es, name, idx, data)
  {
  }

  /** The premises of the law about replacing and restoring can all be met at once, with or without spare bytes or a footer. */
  lemma LawApplies(name: byte, tail: seq<byte>, data: seq<byte>)
    requires name != 0 && Bare(name, tail) && 1 <= |data| && |data| + |Foot(name, tail)| <= 1 + |tail|
    ensures Undoable(Small(), Image(1, name, tail), H(1), X(1), [TableEntry(name)], [name], 0, data)
  {
    hide Undoable, CanReplace, ReadAs, Canonical, Composable, PartsOf, Image, TableEntry, Small, Sound;
    IsSound(name, tail);
    Replaceable(name, tail, data);
    PartsAre(name, tail);
    IsCanonical(name, tail);
    HasRoomBehind(name, tail, data);
    assert [[42]][0 := data] == [data];
    Gather(Small(), Image(1, name, tail), H(1), X(1), [TableEntry(name)], [name], 0, data, Fragments(name, tail, [42]));
  }

  /** The last byte of a table that ends at the end of the image is its entry's name. */
  lemma EndsInName(name: byte, tail: seq<byte>, data: seq<byte>)
    requires |tail| == 1 && |data| == 2
    ensures Composable(Small(), Fragments(name, tail, data))
    ensures |Body(Small(), Fragments(name, tail, data))| == 44 && Body(Small(), Fragments(name, tail, data))[43] == name
  {
    hide Le32, FromLe32;
    var c := Fragments(name, tail, data);
    HasRoomBehind(name, tail, data);
    assert [TableEntry(name)][1..] == [] && [data][1..] == [];
    var t := Table(Small(), c.entries, c.frags, 0);
    assert |t| == 1 && t[0][8] == name;
    assert Flat(t) == t[0] + Flat(t[1..]) && t[1..] == [];
  }

  lemma LooksLikeFooter(name: byte, data: seq<byte>)
    requires |data| == 2
    ensures Composable(Small(), Fragments(name, [0], data))
    ensures HasFooter(Small(), Compose(Small(), Fragments(name, [0], data))) <==> name == 9
  {
    hide Body, Fit, Image;
    EndsInName(name, [0], data);
    var out := Compose(Small(), Fragments(name, [0], data));
    assert out[|out| - 1..] == [name];
    OneByte(9, name);
  }

  /**
   * A fragment that uses up the spare byte leaves the table at the very end. When its last byte is the
   * footer's magic, the second replacement takes it for a footer and does not restore the image.
   */
  lemma RestoredUnlessMagic(name: byte, data: seq<byte>)
    requires name != 0 && |data| == 2
    ensures var img := Image(1, name, [0]);
      && CanReplace(Small(), img, [name], data, 0)
      && var out := Rewritten(Small(), img, [name], data, 0);
      && CanReplace(Small(), out, [name], [42], 0)
      && (Rewritten(Small(), out, [name], [42], 0) == img <==> name != 9)
  {
    hide Composable, Undoable, CanReplace, ReadAs, Canonical, PartsOf, Image, TableEntry, Small, Sound, Rewritten, HasFooter, Compose;
    var img := Image(1, name, [0]);
    LawApplies(name, [0], data);
    Replaceable(name, [0], data);
    PartsAre(name, [0]);
    LooksLikeFooter(name, data);
    assert [[42]][0 := data] == [data];
    ReplaceAndRestore(Small(), img, H(1), X(1), [TableEntry(name)], [name], 0, data);
  }

  // ---- a footer that destroys a section ----

  /** What is written when the table reaches into the place of the footer. */
  lemma FooterOnName(name: byte, data: seq<byte>)
    requires |data| == 2 && name != 9
    ensures Composable(Small(), Fragments(name, [9], data)) && !Untouched(Small(), Fragments(name, [9], data))
    ensures Compose(Small(), Fragments(name, [9], data))[43] == 9
  {
    hide Body, Fit, Image;
    EndsInName(name, [9], data);
    var c := Fragments(name, [9], data);
    assert Body(Small(), c)[43..] == [name];
    OneByte(name, 9);
  }

  lemma RewrittenIs(name: byte, tail: seq<byte>, data: seq<byte>)
    requires name != 0 && |tail| < 100 && 1 <= |data| <= 1 + |tail|
    ensures CanReplace(Small(), Image(1, name, tail), [name], data, 0)
    ensures Composable(Small(), Fragments(name, tail, data))
    ensures Rewritten(Small(), Image(1, name, tail), [name], data, 0) == Compose(Small(), Fragments(name, tail, data))
  {
    hide ReadAs, PartsOf, Image, TableEntry, Small, Sound, Compose, HasHeader, HeaderOf, SectionsOf, EntriesOf, SizesOf, NameOf;
    Fields(1, name, tail);
    Lengths(1);
    TableIs(name, tail);
    Replaceable(name, tail, data);
    PartsAre(name, tail);
    IsSound(name, tail);
    HasRoomBehind(name, tail, data);
    assert [[42]][0 := data] == [data];
  }

  /** In the image written by that replacement the name of the one entry is the footer's byte. */
  lemma NameIsGone(name: byte, out: seq<byte>)
    requires name != 9 && |out| == 44 && out[43] == 9
    ensures EntriesOf(Small(), out, 35, 1) == [out[35..44]] && NameOf(Small(), out[35..44]) == [9] != [name]
  {
    assert Repeat(1, 9) == [9] && [9][1..] == [];
    assert Cut(out, 44, []) == [];
    assert out[35..44][8..9] == [9] && [9][1..] == [];
    assert UpToZero([9]) == [9];
  }

  lemma HeaderAfter(name: byte, tail: seq<byte>, data: seq<byte>)
    requires name != 0 && |tail| == 1 && |data| == 2
    ensures Composable(Small(), Fragments(name, tail, data))
    ensures var out := Compose(Small(), Fragments(name, tail, data));
      && HasHeader(Small(), out) && HeaderOf(Small(), out) == H(1).(ramdisk := 2)
      && SectionsOf(Small(), HeaderOf(Small(), out)) == X(1).(p := 2)
  {
    hide Le32, FromLe32, HasHeader, HeaderOf, Image;
    var img, c := Image(1, name, tail), Fragments(name, tail, data);
    Fields(1, name, tail);
    HasRoomBehind(name, tail, data);
    var out := Compose(Small(), c);
    assert [data][1..] == [] && Flat([data]) == data;
    assert out[..33] == Body(Small(), c)[..33];
    HeaderReadsBack(Small(), img, out, 33, 2);
  }

  /**
   * The rewriter reports success and destroys a section: a fragment that moves the table into the place of
   * the footer loses the entry's name, and the result has no fragment of that name to be replaced.
   */
  lemma FooterDestroysName(name: byte, data: seq<byte>)
    requires name != 0 && name != 9 && |data| == 2
    ensures var img := Image(1, name, [9]);
      && CanReplace(Small(), img, [name], data, 0)
      && var out := Rewritten(Small(), img, [name], data, 0);
      && |out| == 44 && out[43] == 9
      && forall d: seq<byte>, i: nat :: !CanReplace(Small(), out, [name], d, i)
  {
    hide Composable, Untouched, Image, Small, Compose, Rewritten, HasHeader, HeaderOf, SectionsOf, EntriesOf, NameOf, Sound, HasRoom;
    RewrittenIs(name, [9], data);
    FooterOnName(name, data);
    HeaderAfter(name, [9], data);
    var out := Rewritten(Small(), Image(1, name, [9]), [name], data, 0);
    NameIsGone(name, out);
    forall d: seq<byte>, i: nat ensures !CanReplace(Small(), out, [name], d, i) {
    }
  }
}
