/** Bytes, fixed-width integers and the little- and big-endian codecs shared by every component. */
module Wire {

  type byte = b: int | 0 <= b < 256

  const U16: nat := 0x1_0000
  const I32: nat := 0x8000_0000
  const U32: nat := 0x1_0000_0000

  type u16 = n: int | 0 <= n < 0x1_0000
  type u32 = n: int | 0 <= n < 0x1_0000_0000

  /** What is left of a value stored in an `unsigned int`. */
  function Trunc32(n: int): u32 {
    n % 0x1_0000_0000
  }

  function Le16(n: u16): (s: seq<byte>)
    ensures |s| == 2
  {
    [n % 256, n / 256]
  }

  function Le32(n: u32): (s: seq<byte>)
    ensures |s| == 4
  {
    [n % 256, n / 256 % 256, n / 65536 % 256, n / 16777216]
  }

  function FromLe16(s: seq<byte>): u16
    requires |s| == 2
  {
    var b0: int, b1: int := s[0], s[1];
    b0 + 256 * b1
  }

  function FromLe32(s: seq<byte>): u32
    requires |s| == 4
  {
    var b0: int, b1: int, b2: int, b3: int := s[0], s[1], s[2], s[3];
    b0 + 256 * b1 + 65536 * b2 + 16777216 * b3
  }

  lemma Le16RoundTrip(n: u16)
    ensures FromLe16(Le16(n)) == n
  {
  }

  lemma Le32RoundTrip(n: u32)
    ensures FromLe32(Le32(n)) == n
  {
    assert n == n % 256 + 256 * (n / 256);
    var n1 := n / 256;
    assert n1 == n1 % 256 + 256 * (n1 / 256);
    var n2 := n1 / 256;
    assert n2 == n2 % 256 + 256 * (n2 / 256);
    assert n2 == n / 65536 && n2 / 256 == n / 16777216;
  }

  lemma LowDigit(b: int, m: int)
    requires 0 <= b < 256 && 0 <= m
    ensures (b + 256 * m) % 256 == b && (b + 256 * m) / 256 == m
  {
  }

  lemma DigitsBehind(n: int)
    requires 0 <= n
    ensures n / 65536 == n / 256 / 256 && n / 16777216 == n / 256 / 256 / 256
  {
  }

  /** Four bytes read as a word and written back are the same four bytes. */
  lemma Le32Inverse(s: seq<byte>)
    requires |s| == 4
    ensures Le32(FromLe32(s)) == s
  {
    var b0: int, b1: int, b2: int, b3: int := s[0], s[1], s[2], s[3];
    var m2 := b2 + 256 * b3;
    var m1 := b1 + 256 * m2;
    LowDigit(b2, b3);
    LowDigit(b1, m2);
    LowDigit(b0, m1);
    assert FromLe32(s) == b0 + 256 * m1;
    DigitsBehind(b0 + 256 * m1);
  }

  function Zeros(n: nat): (s: seq<byte>)
    ensures |s| == n
  {
    seq(n, _ => 0)
  }

  /** `dst` with `src` stored at `at`. */
  function Overwrite(dst: seq<byte>, at: nat, src: seq<byte>): (r: seq<byte>)
    requires at + |src| <= |dst|
    ensures |r| == |dst|
  {
    dst[..at] + src + dst[at + |src|..]
  }

  // ---- pieces put end to end ----

  function Flat(ps: seq<seq<byte>>): seq<byte> {
    if ps == [] then [] else ps[0] + Flat(ps[1..])
  }

  lemma {:induction false} FlatAppend(a: seq<seq<byte>>, b: seq<seq<byte>>)
    ensures Flat(a + b) == Flat(a) + Flat(b)
    decreases |a|
  {
    if a == [] {
      assert a + b == b;
    } else {
      assert (a + b)[1..] == a[1..] + b;
      FlatAppend(a[1..], b);
    }
  }

  lemma FlatOne(p: seq<byte>)
    ensures Flat([p]) == p
  {
    assert [p][1..] == [];
  }

  lemma FlatSnoc(ps: seq<seq<byte>>, p: seq<byte>)
    ensures Flat(ps + [p]) == Flat(ps) + p
  {
    FlatAppend(ps, [p]);
    FlatOne(p);
  }
}
