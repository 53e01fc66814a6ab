/** The table-driven CRC-32 of libsparse against the bit-at-a-time definition. */
module Crc {
  import opened Wire
  import opened CrcTable

  function Iterate<W>(n: nat, f: W -> W, c: W): W {
    if n == 0 then c else Iterate(n - 1, f, f(c))
  }

  function Xor(a: bv32, b: bv32): bv32 {
    a ^ b
  }

  function Word(b: byte): bv32 {
    (b as bv8) as bv32
  }

  const ONES: bv32 := 0xffffffff

  /** The register after the bytes of `s`, eight shifts a byte. */
  function Register(c: bv32, s: seq<byte>): bv32 {
    if s == [] then c
    else Iterate(8, BitStep, Xor(Register(c, s[..|s| - 1]), Word(s[|s| - 1])))
  }

  /** The CRC of `s`, continuing from the CRC `c` of what came before. */
  function Crc32(c: bv32, s: seq<byte>): bv32 {
    Xor(Register(Xor(c, ONES), s), ONES)
  }

  lemma Unroll<W>(f: W -> W, y: W)
    ensures Iterate(8, f, y) == f(f(f(f(f(f(f(f(y))))))))
  {
    var y2 := f(f(y));
    var y4 := f(f(y2));
    var y6 := f(f(y4));
    assert Iterate(8, f, y) == Iterate(6, f, y2) == Iterate(4, f, y4) == Iterate(2, f, y6);
  }

  method Lookup(i: bv32) returns (t: bv32)
    requires i <= 0xff
    ensures t == Iterate(8, BitStep, i)
  {
    TableHolds(i);
    Unroll(BitStep, i);
    return TableEntry(i);
  }

  // ---- shifting a whole byte at once ----

  /** A register with a feedback step that is a plain shift on words whose lowest bit is clear. */
  datatype Shifter<!W(!new)> = Shifter(xor: (W, W) -> W, step: W -> W, shift: W -> W, even: W -> bool)

  ghost predicate Linear<W(!new)>(a: Shifter<W>) {
    forall u, v {:trigger a.step(a.xor(u, v))} ::
      a.even(v) ==> a.step(a.xor(u, v)) == a.xor(a.step(u), a.shift(v))
  }

  predicate LowClear<W(!new)>(n: nat, a: Shifter<W>, y: W) {
    n == 0 || (a.even(y) && LowClear(n - 1, a, a.shift(y)))
  }

  /** Bits that are shifted out as zeros never feed back. */
  lemma {:induction false} IterateSplits<W(!new)>(n: nat, a: Shifter<W>, x: W, y: W)
    requires Linear(a) && LowClear(n, a, y)
    ensures Iterate(n, a.step, a.xor(x, y)) == a.xor(Iterate(n, a.step, x), Iterate(n, a.shift, y))
  {
    if n > 0 {
      IterateSplits(n - 1, a, a.step(x), a.shift(y));
    }
  }

  function Half(a: bv32): bv32 {
    a >> 1
  }

  predicate Even(a: bv32) {
    a & 1 == 0
  }

  function CrcShifter(): Shifter<bv32> {
    Shifter(Xor, BitStep, Half, Even)
  }

  lemma XorKeepsLow(x: bv32, y: bv32)
    requires y & 1 == 0
    ensures (x ^ y) & 1 == x & 1
  {
  }

  lemma XorUnderShift(x: bv32, y: bv32)
    ensures (x ^ y) >> 1 == (x >> 1) ^ (y >> 1)
  {
  }

  lemma XorSwap(a: bv32, b: bv32, p: bv32)
    ensures (a ^ b) ^ p == (a ^ p) ^ b
  {
  }

  lemma StepSplits(x: bv32, y: bv32)
    requires y & 1 == 0
    ensures BitStep(x ^ y) == BitStep(x) ^ (y >> 1)
  {
    XorKeepsLow(x, y);
    XorUnderShift(x, y);
    if x & 1 == 0 {
    } else {
      XorSwap(x >> 1, y >> 1, 0xedb88320);
    }
  }

  lemma CrcIsLinear()
    ensures Linear(CrcShifter())
  {
    forall u, v | Even(v) ensures BitStep(Xor(u, v)) == Xor(BitStep(u), Half(v)) {
      StepSplits(u, v);
    }
  }

  lemma EightHalves(y: bv32)
    requires y & 0xff == 0
    ensures Iterate(8, Half, y) == y >> 8
  {
    Unroll(Half, y);
  }

  lemma EightClear(y: bv32)
    requires y & 0xff == 0
    ensures LowClear(8, CrcShifter(), y)
  {
    var y1 := Half(y);
    var y2 := Half(y1);
    var y3 := Half(y2);
    var y4 := Half(y3);
    var y5 := Half(y4);
    var y6 := Half(y5);
    UnrollClear(CrcShifter(), y, y1, y2, y3, y4, y5, y6, Half(y6));
  }

  lemma UnrollClear<W(!new)>(a: Shifter<W>, y0: W, y1: W, y2: W, y3: W, y4: W, y5: W, y6: W, y7: W)
    requires y1 == a.shift(y0) && y2 == a.shift(y1) && y3 == a.shift(y2) && y4 == a.shift(y3)
    requires y5 == a.shift(y4) && y6 == a.shift(y5) && y7 == a.shift(y6)
    requires a.even(y0) && a.even(y1) && a.even(y2) && a.even(y3)
    requires a.even(y4) && a.even(y5) && a.even(y6) && a.even(y7)
    ensures LowClear(8, a, y0)
  {
    assert LowClear(2, a, y6);
    assert LowClear(4, a, y4);
    assert LowClear(6, a, y2);
  }

  function Low(c: bv32): bv32 {
    c & 0xff
  }

  function High(c: bv32): bv32 {
    (c >> 8) << 8
  }

  function DropByte(c: bv32): bv32 {
    c >> 8
  }

  /** Eight steps of a linear register split into the steps of its low part and the shift of the rest. */
  lemma SplitSteps<W(!new)>(a: Shifter<W>, low: W -> W, high: W -> W, drop: W -> W, x: W, c: W)
    requires Linear(a) && a.xor(low(x), high(c)) == x
    requires LowClear(8, a, high(c)) && Iterate(8, a.shift, high(c)) == drop(c)
    ensures Iterate(8, a.step, x) == a.xor(Iterate(8, a.step, low(x)), drop(c))
  {
    IterateSplits(8, a, low(x), high(c));
  }

  lemma HighIsClear(c: bv32)
    ensures High(c) & 0xff == 0
  {
  }

  lemma ShiftBack(c: bv32)
    ensures High(c) >> 8 == c >> 8
  {
  }

  lemma LowAndHigh(c: bv32, w: bv32)
    requires w <= 0xff
    ensures Xor(Low(Xor(c, w)), High(c)) == Xor(c, w)
  {
  }

  lemma HighClears(c: bv32)
    ensures LowClear(8, CrcShifter(), High(c))
  {
    HighIsClear(c);
    EightClear(High(c));
  }

  lemma HighShifts(c: bv32)
    ensures Iterate(8, Half, High(c)) == DropByte(c)
  {
    HighIsClear(c);
    ShiftBack(c);
    EightHalves(High(c));
  }

  /** The table step is eight bit steps. */
  lemma ByteStep(c: bv32, w: bv32)
    requires w <= 0xff
    ensures Iterate(8, BitStep, Xor(c, w)) == Xor(Iterate(8, BitStep, Low(Xor(c, w))), DropByte(c))
  {
    LowAndHigh(c, w);
    HighClears(c);
    HighShifts(c);
    CrcIsLinear();
    SplitSteps(CrcShifter(), Low, High, DropByte, Xor(c, w), c);
  }

  method Update(crc: bv32, b: byte) returns (r: bv32)
    ensures r == Iterate(8, BitStep, Xor(crc, Word(b)))
  {
    var t := Lookup(Low(Xor(crc, Word(b))));
    r := Xor(t, DropByte(crc));
    ByteStep(crc, Word(b));
  }

  lemma RegisterSnoc(c: bv32, buf: seq<byte>, p: nat)
    requires p < |buf|
    ensures Register(c, buf[..p + 1]) == Iterate(8, BitStep, Xor(Register(c, buf[..p]), Word(buf[p])))
  {
    assert buf[..p + 1][..p] == buf[..p];
  }

  /** The table-driven sum is the bit-at-a-time sum, for every start value and every buffer. */
  method SparseCrc32(crcIn: bv32, buf: seq<byte>) returns (r: bv32)
    ensures r == Crc32(crcIn, buf)
  {
    var crc := Xor(crcIn, ONES);
    var p := 0;
    while p < |buf|
      invariant 0 <= p <= |buf|
      invariant crc == Register(Xor(crcIn, ONES), buf[..p])
    {
      crc := Update(crc, buf[p]);
      RegisterSnoc(Xor(crcIn, ONES), buf, p);
      p := p + 1;
    }
    assert buf[..p] == buf;
    return Xor(crc, ONES);
  }

  // ---- streaming ----

  lemma {:induction false} RegisterAppend(c: bv32, s: seq<byte>, t: seq<byte>)
    ensures Register(c, s + t) == Register(Register(c, s), t)
    decreases |t|
  {
    if t == [] {
      assert s + t == s;
    } else {
      var k := |t| - 1;
      RegisterAppend(c, s, t[..k]);
      assert (s + t)[..|s + t| - 1] == s + t[..k];
    }
  }

  lemma DoubleComplement(c: bv32)
    ensures Xor(Xor(c, ONES), ONES) == c
  {
  }

  /** Summing a buffer piece by piece gives the sum of the whole. */
  lemma Streams(c: bv32, s: seq<byte>, t: seq<byte>)
    ensures Crc32(Crc32(c, s), t) == Crc32(c, s + t)
  {
    RegisterAppend(Xor(c, ONES), s, t);
    DoubleComplement(Register(Xor(c, ONES), s));
  }

  lemma EmptySum(c: bv32)
    ensures Crc32(c, []) == c
  {
    DoubleComplement(c);
  }
}
