/** The trace of an output callback, and the plain image it spells out. */
module OutputCalls {
  import opened Wire
  import opened Arith
  import opened Blocks

  /**
   * What the writer does about a call that fails: it gives up (`Checked`), it goes on as if nothing had
   * happened (`Dropped`, the calls for skips and for the checksum chunk), or it has already left out
   * this call because an earlier one of the same dropped operation failed (`Continued`).
   */
  datatype Mark = Checked | Dropped | Continued

  /** One invocation of the output callback; `Skip` is the call with a null data pointer. */
  datatype Call = Write(data: seq<byte>, mark: Mark) | Skip(count: nat, mark: Mark)

  /** An output byte, or a position the output moved over without writing. */
  datatype Cell = Byte(b: byte) | Hole

  function CallLen(c: Call): nat {
    match c
    case Write(data, _) => |data|
    case Skip(n, _) => n
  }

  /** What `out_counter_write` has counted. */
  function CountedBytes(calls: seq<Call>): nat {
    if calls == [] then 0 else CountedBytes(calls[..|calls| - 1]) + CallLen(calls[|calls| - 1])
  }

  function Cells(data: seq<byte>): (s: seq<Cell>)
    ensures |s| == |data|
  {
    if data == [] then [] else Cells(data[..|data| - 1]) + [Byte(data[|data| - 1])]
  }

  function Holes(n: nat): (s: seq<Cell>)
    ensures |s| == n
  {
    if n == 0 then [] else Holes(n - 1) + [Hole]
  }

  function CallCells(c: Call): (s: seq<Cell>)
    ensures |s| == CallLen(c)
  {
    match c
    case Write(data, _) => Cells(data)
    case Skip(n, _) => Holes(n)
  }

  /** The whole output, position by position. */
  function Output(calls: seq<Call>): (s: seq<Cell>)
    ensures |s| == CountedBytes(calls)
  {
    if calls == [] then [] else Output(calls[..|calls| - 1]) + CallCells(calls[|calls| - 1])
  }

  /** The bytes handed over, for an output that never skips. */
  function Sent(calls: seq<Call>): seq<byte> {
    if calls == [] then []
    else Sent(calls[..|calls| - 1]) + (if calls[|calls| - 1].Write? then calls[|calls| - 1].data else [])
  }

  predicate AllWrites(calls: seq<Call>) {
    forall i :: 0 <= i < |calls| ==> calls[i].Write?
  }

  lemma OutputSnoc(calls: seq<Call>, c: Call)
    ensures Output(calls + [c]) == Output(calls) + CallCells(c)
  {
    assert (calls + [c])[..|calls|] == calls;
  }

  lemma SentSnoc(calls: seq<Call>, data: seq<byte>, mark: Mark)
    ensures Sent(calls + [Write(data, mark)]) == Sent(calls) + data
  {
    assert (calls + [Write(data, mark)])[..|calls|] == calls;
  }

  // ---- which failures are passed over ----

  function Same(n: nat, v: bool): (s: seq<bool>)
    ensures |s| == n && forall i :: 0 <= i < n ==> s[i] == v
  {
    if n == 0 then [] else Same(n - 1, v) + [v]
  }

  lemma SameAppend(m: nat, n: nat, v: bool)
    ensures Same(m, v) + Same(n, v) == Same(m + n, v)
  {
  }

  /** Position by position, whether the writer passes over a failure to put it out. */
  function Loose(calls: seq<Call>): (s: seq<bool>)
    ensures |s| == CountedBytes(calls)
  {
    if calls == [] then []
    else Loose(calls[..|calls| - 1]) + Same(CallLen(calls[|calls| - 1]), calls[|calls| - 1].mark != Checked)
  }

  lemma LooseSnoc(calls: seq<Call>, c: Call)
    ensures Loose(calls + [c]) == Loose(calls) + Same(CallLen(c), c.mark != Checked)
  {
    assert (calls + [c])[..|calls|] == calls;
  }

  /** `now` is `was` and more calls, all of them checked. */
  ghost predicate Adds(was: seq<Call>, now: seq<Call>) {
    was <= now && forall i :: |was| <= i < |now| ==> now[i].mark == Checked
  }

  lemma {:induction false} AddsLoose(was: seq<Call>, now: seq<Call>)
    requires Adds(was, now)
    ensures CountedBytes(was) <= CountedBytes(now)
    ensures Loose(now) == Loose(was) + Same(CountedBytes(now) - CountedBytes(was), false)
    decreases |now|
  {
    hide Same;
    if now == was {
      assert Loose(was) + Same(0, false) == Loose(was);
    } else {
      var p, c := now[..|now| - 1], now[|now| - 1];
      AddsLoose(was, p);
      SameAppend(CountedBytes(p) - CountedBytes(was), CallLen(c), false);
      JoinLoose(Loose(was), Same(CountedBytes(p) - CountedBytes(was), false), Same(CallLen(c), false));
    }
  }

  lemma JoinLoose(a: seq<bool>, b: seq<bool>, c: seq<bool>)
    ensures (a + b) + c == a + (b + c)
  {
  }

  /** A continued call follows a loose one, and loose writes are no longer than a chunk header. */
  predicate Shaped(calls: seq<Call>) {
    && (forall i :: 0 <= i < |calls| && calls[i].mark == Continued ==> i > 0 && calls[i - 1].mark != Checked)
    && (forall i :: 0 <= i < |calls| && calls[i].mark != Checked && calls[i].Write? ==> |calls[i].data| <= 12)
  }

  /** On a plain output only skips are loose. */
  predicate PlainShaped(calls: seq<Call>) {
    Shaped(calls) && forall i :: 0 <= i < |calls| && calls[i].Write? ==> calls[i].mark == Checked
  }

  lemma PlainIsShaped(calls: seq<Call>)
    requires PlainShaped(calls)
    ensures Shaped(calls)
  {
  }

  lemma AddsPlain(was: seq<Call>, now: seq<Call>)
    requires PlainShaped(was) && Adds(was, now)
    ensures PlainShaped(now)
  {
    AddsShaped(was, now);
    forall i | 0 <= i < |now| && now[i].Write? ensures now[i].mark == Checked {
      if i < |was| {
        assert was[i] == now[i];
      }
    }
  }

  lemma PlainSnoc(calls: seq<Call>, n: nat, mark: Mark)
    requires PlainShaped(calls) && (mark == Continued ==> calls != [] && calls[|calls| - 1].mark != Checked)
    ensures PlainShaped(calls + [Skip(n, mark)])
  {
    ShapedSnoc(calls, Skip(n, mark));
  }

  lemma AddsShaped(was: seq<Call>, now: seq<Call>)
    requires Shaped(was) && Adds(was, now)
    ensures Shaped(now)
  {
    forall i | 0 <= i < |now| && now[i].mark == Continued ensures i > 0 && now[i - 1].mark != Checked {
      assert was[i] == now[i];
      assert was[i - 1] == now[i - 1];
    }
    forall i | 0 <= i < |now| && now[i].mark != Checked && now[i].Write? ensures |now[i].data| <= 12 {
      assert was[i] == now[i];
    }
  }

  lemma ShapedSnoc(calls: seq<Call>, c: Call)
    requires Shaped(calls) && (c.mark == Continued ==> calls != [] && calls[|calls| - 1].mark != Checked)
    requires c.mark != Checked && c.Write? ==> |c.data| <= 12
    ensures Shaped(calls + [c])
  {
  }

  lemma {:induction false} SentIsCounted(calls: seq<Call>)
    requires AllWrites(calls)
    ensures CountedBytes(calls) == |Sent(calls)|
  {
    if calls != [] {
      SentIsCounted(calls[..|calls| - 1]);
    }
  }

  lemma {:induction false} CellsAt(data: seq<byte>, i: nat)
    requires i < |data|
    ensures Cells(data)[i] == Byte(data[i])
  {
    if i < |data| - 1 {
      CellsAt(data[..|data| - 1], i);
    }
  }

  lemma {:induction false} HolesAt(n: nat, i: nat)
    requires i < n
    ensures Holes(n)[i] == Hole
  {
    if i < n - 1 {
      HolesAt(n - 1, i);
    }
  }

  lemma {:induction false} CellsAppend(a: seq<byte>, b: seq<byte>)
    ensures Cells(a + b) == Cells(a) + Cells(b)
    decreases |b|
  {
    if b == [] {
      assert a + b == a;
    } else {
      var k := |b| - 1;
      CellsAppend(a, b[..k]);
      assert (a + b)[..|a + b| - 1] == a + b[..k];
      CellsAssociate(Cells(a), Cells(b[..k]), [Byte(b[k])]);
    }
  }

  lemma {:induction false} HolesAppend(m: nat, n: nat)
    ensures Holes(m) + Holes(n) == Holes(m + n)
    decreases n
  {
    if n > 0 {
      HolesAppend(m, n - 1);
      CellsAssociate(Holes(m), Holes(n - 1), [Hole]);
    }
  }

  lemma CellsOfNothing(s: seq<Cell>)
    ensures s + Holes(0) == s && s + Cells([]) == s
  {
  }

  // ---- the plain image of a block list ----

  /** Bytes followed by a skip to the block boundary. */
  function DataCells(bs: nat, data: seq<byte>): seq<Cell>
    requires bs > 0
  {
    AlignBounds(|data|, bs);
    Cells(data) + Holes(Align(|data|, bs) - |data|)
  }

  /** A fill is never followed by a skip. */
  function BlockCells(st: Store, bs: nat, b: Block): seq<Cell>
    requires bs > 0 && Backed(st, b)
  {
    if b.backing.Fill? then Cells(Content(st, b)) else DataCells(bs, Content(st, b))
  }

  function GapCells(bs: nat, last: nat, block: nat): seq<Cell> {
    if block > last then Holes((block - last) * bs) else []
  }

  function StepCells(st: Store, bs: nat, last: nat, b: Block): seq<Cell>
    requires bs > 0 && Backed(st, b)
  {
    GapCells(bs, last, b.block) + BlockCells(st, bs, b)
  }

  function ImageCells(st: Store, bs: nat, last: nat, s: seq<Block>): seq<Cell>
    requires bs > 0 && AllBacked(st, s)
    decreases |s|
  {
    if s == [] then []
    else StepCells(st, bs, last, s[0]) + ImageCells(st, bs, End(bs, s[0]), s[1..])
  }

  lemma CellsCons(st: Store, bs: nat, last: nat, b: Block, s: seq<Block>)
    requires bs > 0 && AllBacked(st, s) && Backed(st, b)
    ensures AllBacked(st, [b] + s)
    ensures ImageCells(st, bs, last, [b] + s) ==
      StepCells(st, bs, last, b) + ImageCells(st, bs, End(bs, b), s)
    ensures EndOf(bs, last, [b] + s) == EndOf(bs, End(bs, b), s)
  {
    assert ([b] + s)[1..] == s;
  }

  lemma CellsAssociate(a: seq<Cell>, b: seq<Cell>, c: seq<Cell>)
    ensures (a + b) + c == a + (b + c)
  {
  }

  lemma {:induction false} ImageAppend(st: Store, bs: nat, last: nat, s: seq<Block>, t: seq<Block>)
    requires bs > 0 && AllBacked(st, s) && AllBacked(st, t)
    ensures AllBacked(st, s + t)
    ensures ImageCells(st, bs, last, s + t) ==
      ImageCells(st, bs, last, s) + ImageCells(st, bs, EndOf(bs, last, s), t)
    decreases |s|
  {
    if s == [] {
      assert s + t == t;
    } else {
      var b, r := s[0], s[1..];
      assert s == [b] + r && s + t == [b] + (r + t);
      ImageAppend(st, bs, End(bs, b), r, t);
      CellsCons(st, bs, last, b, r);
      CellsCons(st, bs, last, b, r + t);
      CellsAssociate(StepCells(st, bs, last, b), ImageCells(st, bs, End(bs, b), r), ImageCells(st, bs, EndOf(bs, last, s), t));
    }
  }

  lemma ImageSnoc(st: Store, bs: nat, s: seq<Block>, b: Block)
    requires bs > 0 && AllBacked(st, s) && Backed(st, b)
    ensures AllBacked(st, s + [b])
    ensures ImageCells(st, bs, 0, s + [b]) ==
      ImageCells(st, bs, 0, s) + GapCells(bs, EndOf(bs, 0, s), b.block) + BlockCells(st, bs, b)
  {
    ImageAppend(st, bs, 0, s, [b]);
    var e := EndOf(bs, 0, s);
    CellsCons(st, bs, e, b, []);
    assert [b] + [] == [b] && ImageCells(st, bs, End(bs, b), []) == [];
    CellsAssociate(ImageCells(st, bs, 0, s), GapCells(bs, e, b.block), BlockCells(st, bs, b));
  }
}
