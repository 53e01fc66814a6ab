/** The device side: a block device with a cursor, and the expansion of an image onto it. */
module Flashing {
  import opened Wire
  import opened Arith
  import opened Blocks
  import opened BackedBlockList
  import opened SparseFormat
  import opened OutputCalls
  import opened OutputFile
  import opened SparseFile
  import opened SparseFormatReader
  import opened SparseRead

  const MAX_WRITE_SIZE: nat := 1048576

  /** The device after an output has run over it from `at` on: written cells land, holes leave it alone. */
  function Paint(dev: seq<byte>, at: nat, cells: seq<Cell>): (r: seq<byte>)
    ensures |r| == |dev|
  {
    seq(|dev|, i requires 0 <= i < |dev| => if at <= i < at + |cells| && cells[i - at].Byte? then cells[i - at].b else dev[i])
  }

  lemma PaintAppend(dev: seq<byte>, at: nat, a: seq<Cell>, b: seq<Cell>)
    ensures Paint(Paint(dev, at, a), at + |a|, b) == Paint(dev, at, a + b)
  {
  }

  lemma PaintHoles(dev: seq<byte>, at: nat, n: nat)
    ensures Paint(dev, at, Holes(n)) == dev
  {
    hide Holes;
    forall k | 0 <= k < n ensures Holes(n)[k] == Hole {
      HolesAt(n, k);
    }
  }

  lemma PaintedAt(dev: seq<byte>, at: nat, cells: seq<Cell>, i: nat)
    requires i < |dev|
    ensures Paint(dev, at, cells)[i] ==
      if at <= i < at + |cells| && cells[i - at].Byte? then cells[i - at].b else dev[i]
  {
  }

  lemma OverwrittenAt(dev: seq<byte>, at: nat, data: seq<byte>, i: nat)
    requires at + |data| <= |dev| && i < |dev|
    ensures Overwrite(dev, at, data)[i] == if at <= i < at + |data| then data[i - at] else dev[i]
  {
  }

  lemma PaintBytes(dev: seq<byte>, at: nat, data: seq<byte>)
    requires at + |data| <= |dev|
    ensures Paint(dev, at, Cells(data)) == Overwrite(dev, at, data)
  {
    hide Cells, Paint, Overwrite;
    var p, o := Paint(dev, at, Cells(data)), Overwrite(dev, at, data);
    forall i | 0 <= i < |dev| ensures p[i] == o[i] {
      OverwrittenAt(dev, at, data, i);
      PaintedAt(dev, at, Cells(data), i);
      if at <= i < at + |data| {
        CellsAt(data, i - at);
      }
    }
  }

  lemma OverwriteAppend(dev: seq<byte>, at: nat, a: seq<byte>, b: seq<byte>)
    requires at + |a| + |b| <= |dev|
    ensures Overwrite(Overwrite(dev, at, a), at + |a|, b) == Overwrite(dev, at, a + b)
  {
  }

  /**
   * An open partition: its bytes, and the position of the file descriptor. A steady one, as a block device
   * is, refuses a seek only when it would end behind the last byte.
   */
  class PartitionHandle {
    const steady: bool
    var bytes: seq<byte>
    var cursor: nat

    constructor (bytes: seq<byte>, steady: bool)
      ensures this.bytes == bytes && this.steady == steady && cursor == 0
    {
      this.bytes, this.steady, cursor := bytes, steady, 0;
    }

    /** `write`: stores some non-empty beginning of `data`, or fails and stores nothing. */
    method Write(data: seq<byte>) returns (n: int)
      requires data != []
      modifies this
      ensures n < 0 ==> bytes == old(bytes) && cursor == old(cursor)
      ensures n >= 0 ==> 0 < n <= |data| && old(cursor) + n <= |old(bytes)|
      ensures n >= 0 ==> bytes == Overwrite(old(bytes), old(cursor), data[..n]) && cursor == old(cursor) + n
    {
      var k: int :| -1 <= k <= |data| && k != 0;
      if k < 0 || cursor + k > |bytes| {
        return -1;
      }
      bytes := Overwrite(bytes, cursor, data[..k]);
      cursor := cursor + k;
      n := k;
    }

    /** `lseek` from the current position; a failing seek moves nothing. */
    method SeekBy(n: nat) returns (ok: bool)
      modifies this`cursor
      ensures cursor == old(cursor) + if ok then n else 0
      ensures steady ==> (ok <==> old(cursor) + n <= |bytes|)
    {
      if steady {
        ok := cursor + n <= |bytes|;
      } else {
        ok :| ok || !ok;
      }
      if ok {
        cursor := cursor + n;
      }
    }

    method SeekTo(pos: nat)
      modifies this`cursor
      ensures cursor == pos
    {
      cursor := pos;
    }
  }

  /** `FlashRawDataChunk`: pieces of a mebibyte, each written as often as the device cuts it short. */
  method FlashRawDataChunk(handle: PartitionHandle, data: seq<byte>) returns (ok: bool)
    modifies handle
    ensures |handle.bytes| == |old(handle.bytes)|
    ensures ok && data != [] ==> old(handle.cursor) + |data| <= |old(handle.bytes)|
    ensures ok && data != [] ==> handle.bytes == Overwrite(old(handle.bytes), old(handle.cursor), data)
    ensures ok ==> handle.cursor == old(handle.cursor) + |data|
    ensures ok && data == [] ==> handle.bytes == old(handle.bytes)
  {
    hide Overwrite;
    var ret := 0;
    ghost var dev, at := handle.bytes, handle.cursor;
    while ret < |data|
      invariant 0 <= ret <= |data| && handle.cursor == at + ret
      invariant ret == 0 ==> handle.bytes == dev
      invariant ret > 0 ==> at + ret <= |dev| && handle.bytes == Overwrite(dev, at, data[..ret])
      decreases |data| - ret
    {
      var thisLen := Min(MAX_WRITE_SIZE, |data| - ret);
      var piece := data[ret..ret + thisLen];
      var n := handle.Write(piece);
      if n < 0 {
        return false;
      }
      StoredMore(dev, at, data, ret, n, piece);
      ret := ret + n;
    }
    assert data[..ret] == data;
    return true;
  }

  lemma StoredMore(dev: seq<byte>, at: nat, data: seq<byte>, ret: nat, n: nat, piece: seq<byte>)
    requires ret + |piece| <= |data| && piece == data[ret..ret + |piece|] && n <= |piece| && at + ret + n <= |dev|
    ensures Overwrite(Overwrite(dev, at, data[..ret]), at + ret, piece[..n]) == Overwrite(dev, at, data[..ret + n])
    ensures ret == 0 ==> Overwrite(dev, at, piece[..n]) == Overwrite(dev, at, data[..n])
  {
    assert data[..ret + n] == data[..ret] + piece[..n];
    OverwriteAppend(dev, at, data[..ret], piece[..n]);
    if ret == 0 {
      assert piece[..n] == data[..n];
    }
  }

  /** `WriteCallback`: null data moves the cursor, anything else is written. */
  method WriteCallback(handle: PartitionHandle, c: Call) returns (ok: bool)
    modifies handle
    ensures |handle.bytes| == |old(handle.bytes)|
    ensures ok ==> handle.bytes == Paint(old(handle.bytes), old(handle.cursor), CallCells(c))
    ensures ok ==> handle.cursor == old(handle.cursor) + CallLen(c)
    ensures !ok && c.Skip? ==> handle.bytes == old(handle.bytes) && handle.cursor == old(handle.cursor)
    ensures !ok && c.Skip? && handle.steady ==> old(handle.cursor) + CallLen(c) > |handle.bytes|
  {
    match c
    case Skip(n, _) =>
      PaintHoles(handle.bytes, handle.cursor, n);
      ok := handle.SeekBy(n);
    case Write(data, _) =>
      ghost var dev, at := handle.bytes, handle.cursor;
      ok := FlashRawDataChunk(handle, data);
      if ok && data != [] {
        PaintBytes(dev, at, data);
      }
  }

  // ---- a run of calls in which some seeks fail ----

  /** Given up; inside a dropped skip that broke off; and which calls took effect. */
  datatype Taking = Taking(failed: bool, broken: bool, took: seq<bool>)

  function TakeOne(t: Taking, c: Call, ok: bool): Taking {
    if t.failed || (t.broken && c.mark == Continued) then t.(took := t.took + [false])
    else Taking(!ok && c.mark == Checked, !ok && c.mark != Checked, t.took + [ok])
  }

  /** The writer's answers to its calls, when call `i`, if it is made, ends as `oks[i]`. */
  function Take(calls: seq<Call>, oks: seq<bool>): (t: Taking)
    requires |oks| == |calls|
    ensures |t.took| == |calls|
  {
    if calls == [] then Taking(false, false, [])
    else TakeOne(Take(calls[..|calls| - 1], oks[..|oks| - 1]), calls[|calls| - 1], oks[|oks| - 1])
  }

  /** The output of the calls that took effect, each where the cursor then was. */
  function Effect(calls: seq<Call>, took: seq<bool>): seq<Cell>
    requires |took| == |calls|
  {
    if calls == [] then []
    else Effect(calls[..|calls| - 1], took[..|took| - 1]) + if took[|took| - 1] then CallCells(calls[|calls| - 1]) else []
  }

  lemma TakeSnoc(calls: seq<Call>, oks: seq<bool>, c: Call, ok: bool)
    requires |oks| == |calls|
    ensures Take(calls + [c], oks + [ok]) == TakeOne(Take(calls, oks), c, ok)
  {
    assert (calls + [c])[..|calls|] == calls && (oks + [ok])[..|oks|] == oks;
  }

  lemma EffectSnoc(calls: seq<Call>, took: seq<bool>, c: Call, t: bool)
    requires |took| == |calls|
    ensures Effect(calls + [c], took + [t]) == Effect(calls, took) + if t then CallCells(c) else []
  {
    assert (calls + [c])[..|calls|] == calls && (took + [t])[..|took|] == took;
  }

  predicate TookAll(took: seq<bool>) {
    forall i :: 0 <= i < |took| ==> took[i]
  }

  lemma {:induction false} WholeEffect(calls: seq<Call>, took: seq<bool>)
    requires |took| == |calls| && TookAll(took)
    ensures Effect(calls, took) == Output(calls)
  {
    hide CallCells;
    if calls != [] {
      WholeEffect(calls[..|calls| - 1], took[..|took| - 1]);
    }
  }

  /**
   * Every call of the expansion in turn, with the writer's answer to each failure: one that it looks at
   * ends the expansion, a seek over a gap that fails is passed over. On success the device is painted with
   * the output of the calls that took effect; on a steady device with room these are all of them.
   */
  method Expand(handle: PartitionHandle, calls: seq<Call>) returns (ok: bool, ghost oks: seq<bool>)
    requires PlainShaped(calls)
    modifies handle
    ensures |handle.bytes| == |old(handle.bytes)|
    ensures ok ==> |oks| == |calls| && !Take(calls, oks).failed
    ensures ok ==> handle.bytes == Paint(old(handle.bytes), old(handle.cursor), Effect(calls, Take(calls, oks).took))
    ensures ok && handle.steady && old(handle.cursor) + |Output(calls)| <= |handle.bytes| ==> TookAll(Take(calls, oks).took)
  {
    hide Paint, Output, CallCells, Effect, Take, TookAll;
    var broken := false;
    var i := 0;
    oks := [];
    ghost var dev, at, fits := handle.bytes, handle.cursor, handle.cursor + |Output(calls)| <= |handle.bytes|;
    NothingPainted(dev, at);
    NothingTaken();
    assert calls[..0] == [];
    while i < |calls|
      invariant 0 <= i <= |calls| && |oks| == i && |handle.bytes| == |dev|
      invariant var t := Take(calls[..i], oks);
        && t == Taking(false, broken, t.took) && handle.cursor == at + |Effect(calls[..i], t.took)|
        && handle.bytes == Paint(dev, at, Effect(calls[..i], t.took))
      invariant handle.steady && fits ==> TookAll(Take(calls[..i], oks).took) && !broken
    {
      var c := calls[i];
      ghost var before := Take(calls[..i], oks);
      ghost var good := false;
      PlainCall(calls, i);
      if !(broken && c.mark == Continued) {
        if handle.steady && fits {
          WholeEffect(calls[..i], before.took);
          OutputPrefix(calls, i);
        }
        ok := WriteCallback(handle, c);
        if !ok && c.mark == Checked {
          return;
        }
        broken, good := !ok, ok;
      }
      assert calls[..i + 1] == calls[..i] + [c];
      TakeSnoc(calls[..i], oks, c, good);
      EffectSnoc(calls[..i], before.took, c, good);
      PaintAppend(dev, at, Effect(calls[..i], before.took), CallCells(c));
      TookSnoc(before.took, good);
      assert Effect(calls[..i], before.took) + [] == Effect(calls[..i], before.took);
      oks := oks + [good];
      i := i + 1;
    }
    assert calls[..i] == calls;
    ok := true;
  }

  lemma PlainCall(calls: seq<Call>, i: nat)
    requires PlainShaped(calls) && i < |calls|
    ensures calls[i].Write? ==> calls[i].mark == Checked
  {
  }

  lemma {:induction false} OutputPrefix(calls: seq<Call>, i: nat)
    requires i < |calls|
    ensures |Output(calls[..i])| + CallLen(calls[i]) <= |Output(calls)|
    decreases |calls|
  {
    hide CallCells, CallLen;
    var n := |calls| - 1;
    assert |Output(calls)| == |Output(calls[..n])| + CallLen(calls[n]);
    if i < n {
      OutputPrefix(calls[..n], i);
      assert calls[..n][..i] == calls[..i] && calls[..n][i] == calls[i];
    }
  }

  lemma TookSnoc(took: seq<bool>, t: bool)
    ensures TookAll(took + [t]) <==> TookAll(took) && t
  {
    var s := took + [t];
    if TookAll(s) {
      assert s[|took|] == t;
      forall i | 0 <= i < |took| ensures took[i] {
        assert s[i] == took[i];
      }
    }
  }

  lemma NothingTaken()
    ensures Take([], []) == Taking(false, false, []) && Effect([], []) == [] && TookAll([])
  {
  }

  // ---- when a lost seek matters ----

  /** No byte is written behind a seek that did not take effect. */
  predicate NothingBehindLoss(calls: seq<Call>, took: seq<bool>)
    requires |took| == |calls|
  {
    forall i, j :: 0 <= i < j < |calls| && !took[i] && CallLen(calls[i]) > 0 ==> calls[j].Skip? || calls[j].data == []
  }

  /** Only skips were lost. */
  predicate SkipsLost(calls: seq<Call>, took: seq<bool>)
    requires |took| == |calls|
  {
    forall i :: 0 <= i < |calls| && calls[i].Write? ==> took[i]
  }

  function CellOf(s: seq<Cell>, i: nat): Cell {
    if i < |s| then s[i] else Hole
  }

  /** The same bytes in the same places, whatever holes come last. */
  ghost predicate SamePaint(a: seq<Cell>, b: seq<Cell>) {
    forall i: nat :: CellOf(a, i) == CellOf(b, i)
  }

  lemma HolesBehind(a: seq<Cell>, b: seq<Cell>, m: nat, n: nat)
    requires SamePaint(a, b)
    ensures SamePaint(a + Holes(m), b + Holes(n))
  {
    hide Holes;
    forall i: nat ensures CellOf(a + Holes(m), i) == CellOf(b + Holes(n), i) {
      assert CellOf(a, i) == CellOf(b, i);
      if |a| <= i < |a| + m {
        HolesAt(m, i - |a|);
      }
      if |b| <= i < |b| + n {
        HolesAt(n, i - |b|);
      }
    }
  }

  /** Nothing of any length was lost. */
  predicate NothingLost(calls: seq<Call>, took: seq<bool>)
    requires |took| == |calls|
  {
    forall i :: 0 <= i < |calls| ==> took[i] || CallLen(calls[i]) == 0
  }

  lemma {:induction false} EffectSize(calls: seq<Call>, took: seq<bool>)
    requires |took| == |calls|
    ensures NothingLost(calls, took) ==> Effect(calls, took) == Output(calls)
    ensures !NothingLost(calls, took) ==> |Effect(calls, took)| < |Output(calls)|
    decreases |calls|
  {
    hide CallCells;
    if calls != [] {
      var n := |calls| - 1;
      EffectSize(calls[..n], took[..n]);
      assert NothingLost(calls, took) <==> NothingLost(calls[..n], took[..n]) && (took[n] || CallLen(calls[n]) == 0);
      assert |CallCells(calls[n])| == CallLen(calls[n]);
    }
  }

  /** How far the written bytes of an output reach. */
  function Extent(s: seq<Cell>): (e: nat)
    ensures e <= |s| && (e > 0 ==> s[e - 1].Byte?) && forall i :: e <= i < |s| ==> s[i] == Hole
  {
    if s == [] then 0 else if s[|s| - 1].Byte? then |s| else Extent(s[..|s| - 1])
  }

  lemma {:induction false} ExtentOfHoles(s: seq<Cell>, n: nat)
    ensures Extent(s + Holes(n)) == Extent(s)
  {
    if n > 0 {
      ExtentOfHoles(s, n - 1);
      CellsAssociate(s, Holes(n - 1), [Hole]);
      assert (s + Holes(n))[..|s| + n - 1] == s + Holes(n - 1);
    } else {
      assert s + Holes(0) == s;
    }
  }

  lemma ExtentOfBytes(s: seq<Cell>, data: seq<byte>)
    requires data != []
    ensures Extent(s + Cells(data)) == |s| + |data|
  {
    CellsAt(data, |data| - 1);
  }

  predicate Writes(c: Call) {
    c.Write? && c.data != []
  }

  lemma NothingBehindSnoc(calls: seq<Call>, took: seq<bool>)
    requires |took| == |calls| > 0
    ensures var n := |calls| - 1;
      NothingBehindLoss(calls, took) <==>
        (NothingBehindLoss(calls[..n], took[..n]) && (Writes(calls[n]) ==> NothingLost(calls[..n], took[..n])))
  {
    var n := |calls| - 1;
    var p, t := calls[..n], took[..n];
    if NothingBehindLoss(calls, took) {
      forall i, j | 0 <= i < j < n && !t[i] && CallLen(p[i]) > 0 ensures p[j].Skip? || p[j].data == [] {
        assert took[i] == t[i] && calls[j] == p[j];
      }
      if Writes(calls[n]) {
        forall i | 0 <= i < n ensures t[i] || CallLen(p[i]) == 0 {
          assert took[i] == t[i] && calls[i] == p[i];
        }
      }
    } else {
      var i, j :| 0 <= i < j < |calls| && !took[i] && CallLen(calls[i]) > 0 && Writes(calls[j]);
      assert t[i] == took[i] && p[i] == calls[i];
      if j < n {
        assert p[j] == calls[j];
      }
    }
  }

  /** Seeks lost behind the last written byte leave the same painting; any other loss leaves it too short. */
  lemma {:induction false} LossShifts(calls: seq<Call>, took: seq<bool>)
    requires |took| == |calls| && SkipsLost(calls, took)
    ensures NothingBehindLoss(calls, took) ==> SamePaint(Effect(calls, took), Output(calls))
    ensures !NothingBehindLoss(calls, took) ==> Extent(Effect(calls, took)) < Extent(Output(calls))
    decreases |calls|
  {
    hide NothingBehindLoss, NothingLost, SamePaint, Extent, Cells, Holes;
    if calls == [] {
      assert SamePaint([], []) by { SameNothing(); }
      assert NothingBehindLoss(calls, took) by { NothingToLose(); }
    } else {
      var n := |calls| - 1;
      var c, e, o := calls[n], Effect(calls[..n], took[..n]), Output(calls[..n]);
      LossShifts(calls[..n], took[..n]);
      NothingBehindSnoc(calls, took);
      EffectSize(calls[..n], took[..n]);
      match c
      case Skip(k, _) =>
        if NothingBehindLoss(calls[..n], took[..n]) {
          HolesBehind(e, o, if took[n] then k else 0, k);
        }
        ExtentOfHoles(e, k);
        ExtentOfHoles(o, k);
        CellsOfNothing(e);
        assert e + [] == e;
      case Write(data, _) =>
        CellsOfNothing(e);
        CellsOfNothing(o);
        if data != [] {
          ExtentOfBytes(e, data);
          ExtentOfBytes(o, data);
          SameItself(Output(calls));
        }
    }
  }

  lemma SameNothing()
    ensures SamePaint([], [])
  {
  }

  lemma SameItself(a: seq<Cell>)
    ensures SamePaint(a, a)
  {
  }

  lemma NothingToLose()
    ensures NothingBehindLoss([], [])
  {
  }

  lemma SamePainted(dev: seq<byte>, at: nat, a: seq<Cell>, b: seq<Cell>)
    requires SamePaint(a, b)
    ensures Paint(dev, at, a) == Paint(dev, at, b)
  {
    hide SamePaint, Paint;
    forall i | 0 <= i < |dev| ensures Paint(dev, at, a)[i] == Paint(dev, at, b)[i] {
      PaintedAt(dev, at, a, i);
      PaintedAt(dev, at, b, i);
      if i >= at {
        SameAt(a, b, i - at);
      }
    }
  }

  lemma SameAt(a: seq<Cell>, b: seq<Cell>, i: nat)
    requires SamePaint(a, b)
    ensures CellOf(a, i) == CellOf(b, i)
  {
  }

  /** Some device of that many bytes comes out differently. */
  lemma ShorterShows(a: seq<Cell>, b: seq<Cell>) returns (dev: seq<byte>)
    requires Extent(a) < Extent(b)
    ensures |dev| == |b| && Paint(dev, 0, a) != Paint(dev, 0, b)
  {
    hide Paint, Extent, Filled;
    var p := Extent(b) - 1;
    var other: byte := if b[p].b == 0 then 1 else 0;
    dev := Filled(|b|, other);
    PaintedAt(dev, 0, a, p);
    PaintedAt(dev, 0, b, p);
    DifferAt(Paint(dev, 0, a), Paint(dev, 0, b), p);
  }

  lemma DifferAt(s: seq<byte>, t: seq<byte>, p: nat)
    requires p < |s| && p < |t| && s[p] != t[p]
    ensures s != t
  {
  }

  function Filled(n: nat, v: byte): (s: seq<byte>)
    ensures |s| == n && forall i :: 0 <= i < n ==> s[i] == v
  {
    seq(n, _ => v)
  }

  /**
   * When only skips were lost, the painting is that of the whole output, on every device large enough for
   * it, exactly when no byte is written behind a lost seek.
   */
  lemma EffectExactly(calls: seq<Call>, took: seq<bool>)
    requires |took| == |calls| && SkipsLost(calls, took)
    ensures NothingBehindLoss(calls, took) <==>
      (forall dev: seq<byte> :: |dev| >= |Output(calls)| ==>
        Paint(dev, 0, Effect(calls, took)) == Paint(dev, 0, Output(calls)))
  {
    hide NothingBehindLoss, SkipsLost, SamePaint, Extent, Paint, Effect, Output;
    LossShifts(calls, took);
    var e, o := Effect(calls, took), Output(calls);
    if NothingBehindLoss(calls, took) {
      forall dev: seq<byte> | |dev| >= |o| ensures Paint(dev, 0, e) == Paint(dev, 0, o) {
        SamePainted(dev, 0, e, o);
      }
    } else {
      var dev := ShorterShows(e, o);
      assert Paint(dev, 0, e) != Paint(dev, 0, o);
    }
  }

  /** A run that is not given up has lost only skips. */
  lemma {:induction false} OnlySkipsLost(calls: seq<Call>, oks: seq<bool>)
    requires PlainShaped(calls) && |oks| == |calls| && !Take(calls, oks).failed
    ensures SkipsLost(calls, Take(calls, oks).took)
    decreases |calls|
  {
    if calls != [] {
      var n := |calls| - 1;
      PlainPrefix(calls);
      PlainCall(calls, n);
      OnlySkipsLost(calls[..n], oks[..n]);
    }
  }

  lemma PlainPrefix(calls: seq<Call>)
    requires PlainShaped(calls) && calls != []
    ensures PlainShaped(calls[..|calls| - 1])
  {
  }

  /** A block behind a gap of one block, in blocks of four bytes. */
  const BehindGap: Block := Block(1, 4, Data([1, 2, 3, 4], 0))

  const GapCalls: seq<Call> := [Skip(4, Dropped), Write([1, 2, 3, 4], Checked)]

  /**
   * The code does report success with a block in the wrong place: of the two calls it makes for this file
   * the seek over the gap fails, and the block behind it is written at the old position.
   */
  lemma MisplacedBehindGap(st: Store, dev: seq<byte>)
    requires |dev| == 8 && dev[4..] != [1, 2, 3, 4]
    ensures AllBacked(st, [BehindGap]) && GapCalls == PlainCalls(st, 4, 8, [BehindGap])
    ensures Output(GapCalls) == WholeImage(st, 4, 8, [BehindGap])
    ensures PlainShaped(GapCalls) && !Take(GapCalls, [false, true]).failed
    ensures Paint(dev, 0, Effect(GapCalls, Take(GapCalls, [false, true]).took)) == [1, 2, 3, 4] + dev[4..]
    ensures Paint(dev, 0, Output(GapCalls)) == dev[..4] + [1, 2, 3, 4]
    ensures [1, 2, 3, 4] + dev[4..] != dev[..4] + [1, 2, 3, 4]
  {
    hide Output, Effect, Take, Paint, WholeImage, PlainCalls, Cells, Holes;
    GapEffect();
    GapIsWritten(st);
    GapOutput();
    GapImage(st);
    PaintedFour(dev, [1, 2, 3, 4]);
    assert ([1, 2, 3, 4] + dev[4..])[4..] == dev[4..] && (dev[..4] + [1, 2, 3, 4])[4..] == [1, 2, 3, 4];
  }

  lemma PaintedFour(dev: seq<byte>, one: seq<byte>)
    requires |dev| == 8 && |one| == 4
    ensures Paint(dev, 0, Cells(one)) == one + dev[4..]
    ensures Paint(dev, 0, Holes(4) + Cells(one)) == dev[..4] + one
  {
    hide Paint, Cells, Holes;
    PaintBytes(dev, 0, one);
    PaintAppend(dev, 0, Holes(4), Cells(one));
    PaintHoles(dev, 0, 4);
    PaintBytes(dev, 4, one);
    assert dev[..0] + one + dev[4..] == one + dev[4..];
    assert dev[..4] + one + dev[8..] == dev[..4] + one;
  }

  lemma GapEffect()
    ensures !Take(GapCalls, [false, true]).failed && Take(GapCalls, [false, true]).took == [false, true]
    ensures Effect(GapCalls, [false, true]) == Cells([1, 2, 3, 4])
  {
    hide Cells;
    var skip, write := Skip(4, Dropped), Write([1, 2, 3, 4], Checked);
    assert [] + [skip] == [skip] && [skip] + [write] == GapCalls;
    assert [] + [false] == [false] && [false] + [true] == [false, true];
    NothingTaken();
    TakeSnoc([], [], skip, false);
    TakeSnoc([skip], [false], write, true);
    EffectSnoc([], [], skip, false);
    EffectSnoc([skip], [false], write, true);
    assert [] + Cells([1, 2, 3, 4]) == Cells([1, 2, 3, 4]);
  }

  lemma GapOutput()
    ensures Output(GapCalls) == Holes(4) + Cells([1, 2, 3, 4]) && PlainShaped(GapCalls)
  {
    hide Cells, Holes;
    var skip, write := Skip(4, Dropped), Write([1, 2, 3, 4], Checked);
    assert [] + [skip] == [skip] && [skip] + [write] == GapCalls;
    OutputSnoc([], skip);
    OutputSnoc([skip], write);
    assert Output([]) == [] && [] + Holes(4) == Holes(4);
  }

  lemma GapIsWritten(st: Store)
    ensures AllBacked(st, [BehindGap]) && PlainCalls(st, 4, 8, [BehindGap]) == GapCalls
  {
    var b := BehindGap;
    assert Align(4, 4) == 4 && End(4, b) == 2;
    assert [b][1..] == [] && EndOf(4, 2, []) == 2 && EndOf(4, 0, [b]) == 2;
    assert SkipCalls(0, false, true) == [] && SkipCalls(0, true, false) == [] && SkipCalls(0, true, true) == [];
    assert [1, 2, 3, 4][0..4] == [1, 2, 3, 4];
    assert PlainBlockCalls(st, 4, b) == [Write([1, 2, 3, 4], Checked)];
    assert PlainGapCalls(4, 0, 1) == [Skip(4, Dropped)];
    assert PlainCallsOf(st, 4, [b]) == PlainGapCalls(4, 0, 1) + PlainBlockCalls(st, 4, b) by {
      assert [b][..0] == [] && PlainCallsOf(st, 4, []) == [] && EndOf(4, 0, []) == 0;
    }
  }

  lemma GapImage(st: Store)
    ensures AllBacked(st, [BehindGap]) && WholeImage(st, 4, 8, [BehindGap]) == Holes(4) + Cells([1, 2, 3, 4])
  {
    hide Holes, Cells;
    assert [BehindGap][1..] == [];
    assert Align(4, 4) == 4 && Content(st, BehindGap) == [1, 2, 3, 4];
    assert ImageCells(st, 4, 2, []) == [] && EndOf(4, 2, []) == 2;
    CellsOfNothing(Cells([1, 2, 3, 4]));
    CellsOfNothing(Holes(4) + Cells([1, 2, 3, 4]));
  }

  lemma NothingPainted(dev: seq<byte>, at: nat)
    ensures Paint(dev, at, Output([])) == dev && |Output([])| == 0
  {
  }

  datatype FlashError = NotSparse | TooBig | Crashed | DeviceFailed

  datatype Flashed = Success | Failure(error: FlashError)

  /** The image behind a buffer that the importer takes, as it expands. */
  function Expansion(st: Store, f: Imported): seq<Cell>
    requires f.blockSize > 0 && AllBacked(st, f.blocks)
  {
    WholeImage(st, f.blockSize, f.len, f.blocks)
  }

  /** The expansion of a buffer that can be imported. */
  function ExpansionOf(st: Store, data: seq<byte>): seq<Cell>
    requires Import(data, false).Ok?
  {
    ImportInMemory(st, data, false);
    Expansion(st, Import(data, false).value)
  }

  /** If the buffer can be imported, its blocks end below block 2^32. */
  predicate EndsInRange(data: seq<byte>) {
    var got := Import(data, false);
    got.Ok? ==> got.value.blockSize > 0 && EndOf(got.value.blockSize, 0, got.value.blocks) < U32
  }

  /** The calls that expanding the buffer makes, and which of them may fail without notice. */
  ghost predicate ExpansionCalls(st: Store, data: seq<byte>, calls: seq<Call>)
    requires Import(data, false).Ok?
  {
    ImportInMemory(st, data, false);
    var f := Import(data, false).value;
    && calls == PlainCalls(st, f.blockSize, f.len, f.blocks)
    && PlainShaped(calls) && Output(calls) == ExpansionOf(st, data)
    && Loose(calls) == WholeLoose(st, f.blockSize, f.len, f.blocks)
  }

  /** The device has been painted by a run of these calls that the writer did not give up. */
  ghost predicate PaintedBy(st: Store, data: seq<byte>, dev: seq<byte>, at: nat, after: seq<byte>, calls: seq<Call>, oks: seq<bool>)
    requires Import(data, false).Ok?
  {
    && ExpansionCalls(st, data, calls) && |oks| == |calls| && !Take(calls, oks).failed
    && after == Paint(dev, at, Effect(calls, Take(calls, oks).took))
  }

  /**
   * What `FlashSparseData` reports, and what it does to the device, for every buffer. It crashes when the
   * importer does or when the blocks end behind the announced length. On a steady device that has room behind the cursor, success means that the whole expansion is in its place.
   */
  ghost predicate SparseOutcome(st: Store, data: seq<byte>, size: nat, dev: seq<byte>, at: nat, steady: bool, r: Flashed, after: seq<byte>) {
    && (r == Failure(NotSparse) <==> Refused(Import(data, false)))
    && (Import(data, false) == Err(ReadError.Aborted) ==> r == Failure(Crashed))
    && (Import(data, false).Ok? ==>
      var f := Import(data, false).value;
      f.blockSize > 0 &&
      var fits := EndOf(f.blockSize, 0, f.blocks) * f.blockSize <= f.len;
      && (r == Failure(Crashed) <==> !fits)
      && (r == Failure(TooBig) <==> (fits && |ExpansionOf(st, data)| > size))
      && (r == Success ==> exists calls, oks :: PaintedBy(st, data, dev, at, after, calls, oks))
      && (r == Success && steady && at + |ExpansionOf(st, data)| <= |dev| ==> after == Paint(dev, at, ExpansionOf(st, data))))
    && (r.Failure? && r.error != DeviceFailed ==> after == dev)
  }

  /**
   * `FlashSparseData`: the buffer has to be importable and its expansion has to fit; then, when the
   * device takes every write, it ends up painted with what took effect of the expansion.
   */
  method FlashSparseData(handle: PartitionHandle, data: seq<byte>, size: nat, st: Store) returns (r: Flashed)
    requires EndsInRange(data)
    modifies handle
    ensures |handle.bytes| == |old(handle.bytes)|
    ensures SparseOutcome(st, data, size, old(handle.bytes), old(handle.cursor), handle.steady, r, handle.bytes)
  {
    hide Import, Paint, WholeImage, WholeLoose, PlainCalls, EndOf, AllBacked, BackedBlockList.Linked, Output, Loose, Take, Effect, PlainShaped, TookAll;
    ghost var dev, at := handle.bytes, handle.cursor;
    ImportInMemory(st, data, false);
    var read, file := SparseFileImportBuf(data, false);
    if read.Aborted? {
      return Failure(Crashed);
    }
    if file == null {
      return Failure(NotSparse);
    }
    var status, expanded := file.Len(false, false, st);
    if status.Aborted? {
      return Failure(Crashed);
    }
    if expanded > 0 && expanded > size {
      return Failure(TooBig);
    }
    var calls;
    status, calls := file.CallbackNormal(st);
    var ok; ghost var oks;
    ok, oks := Expand(handle, calls);
    if !ok {
      return Failure(DeviceFailed);
    }
    assert PaintedBy(st, data, dev, at, handle.bytes, calls, oks);
    if handle.steady && at + |Output(calls)| <= |handle.bytes| {
      WholeEffect(calls, Take(calls, oks).took);
    }
    r := Success;
  }

  predicate LooksSparse(data: seq<byte>) {
    |data| >= 4 && FromLe32(data[0..4]) == SPARSE_HEADER_MAGIC
  }

  /** `FlashBlockDevice`: from the start of the device, by the first four bytes. */
  method FlashBlockDevice(handle: PartitionHandle, data: seq<byte>, size: nat, st: Store) returns (r: Flashed)
    requires LooksSparse(data) ==> EndsInRange(data)
    modifies handle
    ensures |handle.bytes| == |old(handle.bytes)|
    ensures r == Success && !LooksSparse(data) ==> |data| <= |old(handle.bytes)|
    ensures r == Success && !LooksSparse(data) ==> handle.bytes == data + old(handle.bytes)[|data|..]
    ensures LooksSparse(data) ==> SparseOutcome(st, data, size, old(handle.bytes), 0, handle.steady, r, handle.bytes)
  {
    hide Import, Paint, WholeImage, EndOf, AllBacked;
    handle.SeekTo(0);
    if |data| >= 4 && FromLe32(data[0..4]) == SPARSE_HEADER_MAGIC {
      r := FlashSparseData(handle, data, size, st);
    } else {
      var ok := FlashRawDataChunk(handle, data);
      r := if ok then Success else Failure(DeviceFailed);
    }
  }
}
