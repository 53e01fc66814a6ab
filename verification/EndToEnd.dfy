/** From a plain image on the host to the same image on the device, through every stage in between. */
module EndToEnd {
  import opened Wire
  import opened Arith
  import opened Blocks
  import opened Insertion
  import opened BackedBlockList
  import opened SparseFormat
  import opened SparseFormatReader
  import opened OutputCalls
  import opened SparseFile
  import opened RoundTrip
  import opened NormalImage
  import opened NormalReader
  import Resparse
  import opened ResparseRuns
  import opened ResparseSizes
  import opened ResparseFile
  import opened Flashing
  import Driver
  import Tcp

  // ---- a device and a map of bytes ----

  /** The device with the bytes of `m` in their places and everything else as it was. */
  ghost function Update(dev: seq<byte>, m: map<nat, byte>): (r: seq<byte>)
    ensures |r| == |dev|
  {
    seq(|dev|, i requires 0 <= i < |dev| => if i in m then m[i] else dev[i])
  }

  lemma UpdateUnion(dev: seq<byte>, a: map<nat, byte>, b: map<nat, byte>)
    ensures Update(Update(dev, a), b) == Update(dev, a + b)
  {
  }

  lemma UpdateNothing(dev: seq<byte>)
    ensures Update(dev, map[]) == dev
  {
  }

  lemma UpdateWithImage(dev: seq<byte>, image: seq<byte>)
    requires |image| <= |dev|
    ensures Update(dev, Region(0, image)) == image + dev[|image|..]
  {
  }

  lemma PaintIsUpdate(dev: seq<byte>, w: seq<Cell>, len: nat, m: map<nat, byte>)
    requires SpellsOut(w, len, m) && forall i :: i in m ==> i < len
    ensures Paint(dev, 0, w) == Update(dev, m)
  {
    var p, u := Paint(dev, 0, w), Update(dev, m);
    forall i | 0 <= i < |dev| ensures p[i] == u[i] {
      if i < len {
        assert w[i] == CellAt(m, i);
      }
    }
  }

  // ---- pieces are whole and small ----

  lemma CutWhole(bs: nat, s: seq<Block>, c: Resparse.CutPoint)
    requires bs > 0 && Whole(bs, s) && Resparse.InRange(s, c) && (c.split ==> c.m % bs == 0)
    ensures Whole(bs, Resparse.PieceOf(s, c)) && Whole(bs, Resparse.RestOf(bs, s, c))
  {
    if c.split {
      WholeDifference(bs, s[c.k].len, c.m);
    }
  }

  lemma WholeDifference(bs: nat, m: nat, n: nat)
    requires bs > 0 && m % bs == 0 && n % bs == 0 && n <= m
    ensures (m - n) % bs == 0
  {
    RoundingAgrees(m, bs);
    RoundingAgrees(n, bs);
    Distribute(m / bs, n / bs, bs);
    if m / bs < n / bs {
      MulMono(m / bs + 1, n / bs, bs);
      Distribute(m / bs, 1, bs);
    }
    DivRoundUpOfMultiple(m / bs - n / bs, bs);
  }

  lemma {:induction false} PiecesWhole(bs: nat, budget: nat, s: seq<Block>, i: nat)
    requires Cuttable(bs, budget, s) && Whole(bs, s) && i < |CutAll(bs, budget, s)|
    ensures Whole(bs, CutAll(bs, budget, s)[i])
    decreases TotalLen(s)
  {
    hide Resparse.NextCut, Whole;
    RoundShrinks(bs, budget, s);
    var c := Resparse.NextCut(bs, budget, s);
    CutWhole(bs, s, c);
    if c.more && i > 0 {
      PiecesWhole(bs, budget, Resparse.RestOf(bs, s, c), i - 1);
    }
  }

  lemma {:induction false} BlockInBody(bs: nat, last: nat, p: seq<Block>, k: nat)
    requires bs > 0 && k < |p| && !p[k].backing.Fill?
    ensures p[k].len <= Resparse.Body(bs, last, p)
    decreases |p|
  {
    AlignBounds(p[k].len, bs);
    if k > 0 {
      BlockInBody(bs, End(bs, p[0]), p[1..], k - 1);
    }
  }

  /** A list that fits a download: in order, whole blocks, no raw block too large for the format. */
  ghost predicate Sendable(st: Store, bs: nat, len: nat, p: seq<Block>) {
    && bs > 0 && Ordered(bs, 0, p) && AllBacked(st, p) && (len % bs == 0 ==> Whole(bs, p))
    && (forall k :: 0 <= k < |p| ==> p[k].backing.Fill? || p[k].len < U32)
  }

  lemma PieceSendable(st: Store, bs: nat, len: nat, maxLen: u32, s: seq<Block>, i: nat)
    requires maxLen >= Resparse.OVERHEAD && Cuttable(bs, Resparse.Budget(maxLen), s) && AllBacked(st, s)
    requires len % bs == 0 ==> Whole(bs, s)
    requires i < |CutAll(bs, Resparse.Budget(maxLen), s)|
    ensures var p := CutAll(bs, Resparse.Budget(maxLen), s)[i];
      Sendable(st, bs, len, p) && EndOf(bs, 0, p) <= EndOf(bs, 0, s)
  {
    hide CutAll, FitsLimit, FillsLimit, AllBacked, Ordered, EndOf, Whole;
    var budget := Resparse.Budget(maxLen);
    var p := CutAll(bs, budget, s)[i];
    if len % bs == 0 {
      PiecesWhole(bs, budget, s, i);
    }
    PieceBodies(bs, budget, s, i);
    PieceWithin(bs, budget, s, i);
    PiecesDenote(st, bs, budget, s);
    SmallBlocks(bs, budget, p);
  }

  lemma SmallBlocks(bs: nat, budget: nat, p: seq<Block>)
    requires bs > 0 && FitsLimit(bs, budget, p) && budget + 12 < U32
    ensures forall k :: 0 <= k < |p| ==> p[k].backing.Fill? || p[k].len < U32
  {
    hide Resparse.Body;
    forall k | 0 <= k < |p| && !p[k].backing.Fill? ensures p[k].len < U32 {
      BlockInBody(bs, 0, p, k);
    }
  }

  // ---- one piece on the device ----

  lemma MagicIsThere(st: Store, bs: nat, len: nat, p: seq<Block>)
    requires bs > 0 && AllBacked(st, p)
    ensures LooksSparse(SparseBytes(st, bs, len, p, false))
  {
    hide EncodeChunks, AllChunks, CountChunks, Le32, FromLe32, Le16;
    var data := SparseBytes(st, bs, len, p, false);
    assert data[0..4] == Le32(SPARSE_HEADER_MAGIC);
    Le32RoundTrip(SPARSE_HEADER_MAGIC);
  }

  /** What the device makes of a written piece: an image of the full length, holding the piece's bytes. */
  lemma PieceExpands(st: Store, bs: u32, len: nat, p: seq<Block>)
    requires Sendable(st, bs, len, p) && bs % 4 == 0 && EndOf(bs, 0, p) * bs <= len
    requires len > 0 && len % bs == 0 && DivRoundUp(len, bs) < I32
    ensures var data := SparseBytes(st, bs, len, p, false);
      && LooksSparse(data) && EndsInRange(data) && Import(data, false).Ok?
      && var f := Import(data, false).value;
      && f.blockSize == bs && f.len == len && EndOf(bs, 0, f.blocks) * bs <= len
      && |ExpansionOf(st, data)| == len
      && SpellsOut(ExpansionOf(st, data), len, Denote(st, bs, p))
      && (forall i :: i in Denote(st, bs, p) ==> i < len)
  {
    hide Import, SparseBytes, Ordered, EndOf, AllBacked, Denote, WholeImage, SpellsOut, FromLe32;
    var data := SparseBytes(st, bs, len, p, false);
    ImportIsIdentity(st, bs, len, p);
    MagicIsThere(st, bs, len, p);
    var f := Import(data, false).value;
    NormalIsImage(st, bs, len, f.blocks);
    RoundingAgrees(len, bs);
    EndBelow(bs, EndOf(bs, 0, f.blocks), len);
    forall i | i in Denote(st, bs, p) ensures i < len {
      DenoteDomain(st, bs, 0, p, i);
    }
  }

  lemma EndBelow(bs: nat, end: nat, len: nat)
    requires bs > 0 && end * bs <= len && DivRoundUp(len, bs) < I32
    ensures end < I32
  {
    DivRoundUpSplit(len, end, bs);
  }

  /**
   * Flashing one piece of a file changes the bytes of its own blocks to what they hold, and no others.
   */
  lemma PieceUpdates(st: Store, bs: u32, len: nat, p: seq<Block>, dev: seq<byte>)
    requires Sendable(st, bs, len, p) && bs % 4 == 0 && EndOf(bs, 0, p) * bs <= len
    requires len > 0 && len % bs == 0 && DivRoundUp(len, bs) < I32
    ensures var data := SparseBytes(st, bs, len, p, false);
      && Import(data, false).Ok?
      && Paint(dev, 0, ExpansionOf(st, data)) == Update(dev, Denote(st, bs, p))
  {
    hide Import, SparseBytes, Ordered, EndOf, AllBacked, Denote, ExpansionOf, SpellsOut, Paint, Update;
    PieceExpands(st, bs, len, p);
    PaintIsUpdate(dev, ExpansionOf(st, SparseBytes(st, bs, len, p, false)), len, Denote(st, bs, p));
  }

  /** What flashing a piece can come to; on a steady device of at least `size` bytes a success is complete. */
  lemma PieceOutcome(st: Store, bs: u32, len: nat, p: seq<Block>, size: nat, dev: seq<byte>, steady: bool, r: Flashed, after: seq<byte>)
    requires Sendable(st, bs, len, p) && bs % 4 == 0 && EndOf(bs, 0, p) * bs <= len
    requires len > 0 && len % bs == 0 && DivRoundUp(len, bs) < I32
    requires SparseOutcome(st, SparseBytes(st, bs, len, p, false), size, dev, 0, steady, r, after)
    ensures r == Success ==> len <= size
    ensures r == Success && steady && size <= |dev| ==> after == Update(dev, Denote(st, bs, p))
    ensures r.Failure? && r.error != DeviceFailed ==> len > size && r.error == TooBig && after == dev
  {
    hide Import, SparseBytes, Ordered, EndOf, AllBacked, Denote, ExpansionOf, SpellsOut, Paint, Update;
    PieceExpands(st, bs, len, p);
    PieceUpdates(st, bs, len, p, dev);
  }

  // ---- all pieces, one after the other ----

  /** The device after the pieces have been flashed in order. */
  ghost function UpdateAll(st: Store, bs: nat, dev: seq<byte>, ps: seq<seq<Block>>): seq<byte>
    requires forall i :: 0 <= i < |ps| ==> AllBacked(st, ps[i])
    decreases |ps|
  {
    if ps == [] then dev else UpdateAll(st, bs, Update(dev, Denote(st, bs, ps[0])), ps[1..])
  }

  lemma {:induction false} UpdatesAddUp(st: Store, bs: nat, dev: seq<byte>, ps: seq<seq<Block>>)
    requires forall i :: 0 <= i < |ps| ==> AllBacked(st, ps[i])
    ensures UpdateAll(st, bs, dev, ps) == Update(dev, DenoteAll(st, bs, ps))
    decreases |ps|
  {
    hide AllBacked, Denote, Update;
    if ps == [] {
      UpdateNothing(dev);
    } else {
      var d := Update(dev, Denote(st, bs, ps[0]));
      UpdatesAddUp(st, bs, d, ps[1..]);
      UpdateUnion(dev, Denote(st, bs, ps[0]), DenoteAll(st, bs, ps[1..]));
    }
  }

  /**
   * The pieces of a list that means a whole image, flashed in order onto any device that is large
   * enough: the image, and behind it whatever was there before.
   */
  lemma PiecesRestoreImage(st: Store, bs: nat, budget: nat, s: seq<Block>, image: seq<byte>, dev: seq<byte>)
    requires Cuttable(bs, budget, s) && AllBacked(st, s) && Denote(st, bs, s) == Region(0, image)
    requires |image| <= |dev|
    ensures var ps := CutAll(bs, budget, s);
      && (forall i :: 0 <= i < |ps| ==> AllBacked(st, ps[i]))
      && UpdateAll(st, bs, dev, ps) == image + dev[|image|..]
  {
    hide CutAll, Cuttable, AllBacked, Denote, Region, Update, UpdateAll;
    PiecesDenote(st, bs, budget, s);
    UpdatesAddUp(st, bs, dev, CutAll(bs, budget, s));
    UpdateWithImage(dev, image);
  }

  // ---- the whole way, as one run ----

  datatype Outcome = Flashed | BadLimit | HostCrashed | DownloadFailed | DeviceRefused(error: FlashError)

  /**
   * What one file goes through: sent in chunks over TCP, each chunk a message, received in a DATA phase
   * of the announced size however the stream is split, imported and expanded.
   */
  method FlashFile(s: SparseFile, handle: PartitionHandle, size: nat, st: Store) returns (r: Outcome)
    requires s.Valid() && Sendable(st, s.blockSize, s.len, s.list.contents) && EndOf(s.blockSize, 0, s.list.contents) < U32
    requires s.blockSize % 4 == 0 && 0 < s.blockSize < U32 && s.len > 0 && DivRoundUp(s.len, s.blockSize) < I32
    modifies handle
    ensures |handle.bytes| == |old(handle.bytes)|
    ensures r != BadLimit
    ensures r == Flashed ==> s.len % s.blockSize == 0 && s.len <= size
    ensures r == Flashed && handle.steady && size <= |handle.bytes| ==>
      handle.bytes == Update(old(handle.bytes), Denote(st, s.blockSize, s.list.contents))
    ensures r != Flashed && s.len % s.blockSize == 0 && s.len <= size ==>
      (r == HostCrashed || r == DownloadFailed || r == DeviceRefused(DeviceFailed))
    ensures r == HostCrashed <==> EndOf(s.blockSize, 0, s.list.contents) * s.blockSize > s.len
  {
    hide Import, SparseBytes, Ordered, EndOf, AllBacked, Denote, ExpansionOf, SpellsOut, Paint, Update, Whole,
      BackedBlockList.Linked, Flat, Driver.FullButLast, DivRoundUp, SparseOutcome, EndsInRange, LooksSparse;
    ghost var bs, len, p := s.blockSize, s.len, s.list.contents;
    ghost var dev := handle.bytes;
    var outcome, data := SendOverTcp(s, st);
    match outcome {
      case Crashed => return HostCrashed;
      case BadArgument => return DownloadFailed;
      case IoError => return DownloadFailed;
      case Finished =>
    }
    MagicIsThere(st, bs, len, p);
    if len % bs == 0 {
      PieceExpands(st, bs, len, p);
    } else {
      Misfit(st, bs, len, p);
    }
    var flashed := FlashBlockDevice(handle, data, size, st);
    if len % bs == 0 {
      PieceOutcome(st, bs, len, p, size, dev, handle.steady, flashed, handle.bytes);
    } else {
      NotTaken(st, data, size, dev, handle.steady, flashed, handle.bytes);
    }
    r := if flashed == Success then Flashed else DeviceRefused(flashed.error);
  }

  /** The download of one file over a TCP connection: if it ends well the device has the file's bytes. */
  method SendOverTcp(s: SparseFile, st: Store) returns (outcome: Driver.Outcome, data: seq<byte>)
    requires s.Valid() && AllBacked(st, s.list.contents) && EndOf(s.blockSize, 0, s.list.contents) < U32
    ensures outcome == Driver.Crashed <==> EndOf(s.blockSize, 0, s.list.contents) * s.blockSize > s.len
    ensures outcome == Driver.Finished ==> data == SparseBytes(st, s.blockSize, s.len, s.list.contents, false)
  {
    hide SparseBytes, EndOf, AllBacked, BackedBlockList.Linked, Flat, Driver.FullButLast, Driver.Feed, Driver.Fitting, Driver.StrictKept,
      Driver.Complete, Driver.KeptBytes, Driver.Flushed, Driver.FileCalls, Tcp.Frames;
    var wire := new Tcp.TcpSocket([]);
    var host := new Tcp.TcpTransport(wire);
    NothingOnWire();
    var transport := new Driver.Transport(host);
    var announced; ghost var calls, fates;
    outcome, announced, calls, fates := Driver.Download(transport, s, false, st);
    data := [];
    if outcome == Driver.Finished {
      Driver.FileHasBytes(st, s.blockSize, s.len, s.list.contents, false);
      data := Receive(wire.outgoing, announced, transport.sends);
    }
  }

  lemma NothingOnWire()
    ensures Tcp.Frames([]) == []
  {
  }

  /** The device's side of the download: a DATA phase over what is on the wire. */
  method Receive(onWire: seq<byte>, announced: nat, ghost sends: seq<seq<byte>>) returns (data: seq<byte>)
    requires onWire == Tcp.Frames(sends) && Driver.FullButLast(sends)
    requires announced == |Flat(sends)| && 0 < announced < Tcp.U64
    ensures data == Flat(sends)
  {
    hide Flat, Tcp.Frames, Tcp.Holds, Tcp.Messages, Driver.FullButLast;
    var socket := new Tcp.TcpSocket(onWire);
    var device := new Tcp.ClientTcpTransport(socket);
    device.downloading := true;
    SendsAreMessages(sends);
    var r; ghost var cur, ds;
    r, cur, ds := device.Read(announced, [], sends, []);
    data := r.data;
    assert data + (cur + Flat(ds)) == Flat(sends);
  }

  lemma SendsAreMessages(sends: seq<seq<byte>>)
    requires Driver.FullButLast(sends) && 0 < |Flat(sends)| < Tcp.U64
    ensures Tcp.Messages(sends) && sends != []
    ensures Tcp.Holds(Tcp.Frames(sends), 0, [], sends, []) && [] + Flat(sends) == Flat(sends)
  {
    EachInFlat(sends);
    assert sends != [] by { NotNothing(sends); }
    Tcp.FramedHolds(sends);
    assert [] + Tcp.Frames(sends) == Tcp.Frames(sends);
  }

  lemma NotNothing(sends: seq<seq<byte>>)
    requires Flat(sends) != []
    ensures sends != []
  {
  }

  lemma {:induction false} EachInFlat(sends: seq<seq<byte>>)
    ensures forall i :: 0 <= i < |sends| ==> |sends[i]| <= |Flat(sends)|
  {
    if sends != [] {
      EachInFlat(sends[1..]);
    }
  }

  lemma NotTaken(st: Store, data: seq<byte>, size: nat, dev: seq<byte>, steady: bool, r: Flashed, after: seq<byte>)
    requires SparseOutcome(st, data, size, dev, 0, steady, r, after) && Refused(Import(data, false))
    ensures r == Failure(NotSparse)
  {
  }

  /** A file whose length is no whole number of blocks cannot be imported. */
  lemma Misfit(st: Store, bs: u32, len: nat, p: seq<Block>)
    requires Sendable(st, bs, len, p) && EndOf(bs, 0, p) * bs <= len && len % bs != 0
    requires DivRoundUp(len, bs) < I32
    ensures var data := SparseBytes(st, bs, len, p, false);
      Refused(Import(data, false)) && EndsInRange(data)
  {
    hide Import, SparseBytes, Ordered, EndOf, AllBacked, Denote, PaddedDenote, Whole, AllChunks;
    ImportOfWrite(st, bs, len, p, false, false);
  }

  lemma {:induction false} UpdateAllSnoc(st: Store, bs: nat, dev: seq<byte>, ps: seq<seq<Block>>, p: seq<Block>)
    requires AllBacked(st, p) && forall i :: 0 <= i < |ps| ==> AllBacked(st, ps[i])
    ensures forall i :: 0 <= i < |ps + [p]| ==> AllBacked(st, (ps + [p])[i])
    ensures UpdateAll(st, bs, dev, ps + [p]) == Update(UpdateAll(st, bs, dev, ps), Denote(st, bs, p))
    decreases |ps|
  {
    hide AllBacked, Denote, Update;
    if ps == [] {
      assert [] + [p] == [p] && [p][1..] == [];
    } else {
      assert (ps + [p])[1..] == ps[1..] + [p];
      UpdateAllSnoc(st, bs, Update(dev, Denote(st, bs, ps[0])), ps[1..], p);
    }
  }

  /** `flash_partition_files`: the files in order, up to the first that does not get through. */
  method FlashPartitionFiles(files: seq<SparseFile>, handle: PartitionHandle, st: Store, bs: nat, len: nat,
                             ghost ps: seq<seq<Block>>, ghost avoid: set<object>) returns (r: Outcome)
    requires Holding(files, ps, bs, len, avoid)
    requires bs % 4 == 0 && 0 < bs < U32 && len > 0 && DivRoundUp(len, bs) < I32
    requires forall i :: 0 <= i < |ps| ==> AllBacked(st, ps[i])
    requires forall i :: 0 <= i < |ps| ==> Sendable(st, bs, len, ps[i]) && EndOf(bs, 0, ps[i]) < U32
    modifies handle
    ensures |handle.bytes| == |old(handle.bytes)|
    ensures r != BadLimit
    ensures r == Flashed && handle.steady ==> handle.bytes == UpdateAll(st, bs, old(handle.bytes), ps)
    ensures r == Flashed && ps != [] ==> len % bs == 0 && len <= |handle.bytes|
    ensures r != Flashed && len % bs == 0 && len <= |handle.bytes| ==>
      (r == HostCrashed || r == DownloadFailed || r == DeviceRefused(DeviceFailed))
    ensures r == HostCrashed ==> exists i :: 0 <= i < |ps| && EndOf(bs, 0, ps[i]) * bs > len
  {
    hide Ordered, EndOf, AllBacked, Denote, Update, UpdateAll, BackedBlockList.Linked, DivRoundUp;
    var i := 0;
    ghost var dev := handle.bytes;
    UpdateAllOfNone(st, bs, dev);
    assert ps[..0] == [];
    while i < |files|
      invariant 0 <= i <= |files| && |handle.bytes| == |dev|
      invariant Holding(files, ps, bs, len, avoid)
      invariant handle.steady ==> handle.bytes == UpdateAll(st, bs, dev, ps[..i])
      invariant i > 0 ==> len % bs == 0 && len <= |dev|
    {
      assert HoldsPiece(files[i], ps[i], bs, len, avoid);
      r := FlashFile(files[i], handle, |handle.bytes|, st);
      if r != Flashed {
        return;
      }
      assert ps[..i + 1] == ps[..i] + [ps[i]];
      UpdateAllSnoc(st, bs, dev, ps[..i], ps[i]);
      i := i + 1;
    }
    assert ps[..i] == ps;
    r := Flashed;
  }

  lemma UpdateAllOfNone(st: Store, bs: nat, dev: seq<byte>)
    ensures UpdateAll(st, bs, dev, []) == dev
  {
  }

  /** The list that reading an image leaves, and the pieces a limit cuts it into. */
  lemma ImagePieces(st: Store, bs: nat, image: seq<byte>, s: seq<Block>, maxSize: u32, dev: seq<byte>)
    requires maxSize >= Resparse.OVERHEAD && Resparse.LimitOk(bs, Resparse.Budget(maxSize))
    requires ReadSoFar(st, bs, [], s, image, 0, |image|) && DivRoundUp(|image|, bs) < I32 && |image| > 0
    requires EndOf(bs, 0, s) == DivRoundUp(|image|, bs)
    requires |image| % bs == 0 ==> Whole(bs, s)
    ensures Cuttable(bs, Resparse.Budget(maxSize), s)
    ensures var ps := CutAll(bs, Resparse.Budget(maxSize), s);
      && (forall i :: 0 <= i < |ps| ==> Sendable(st, bs, |image|, ps[i]) && EndOf(bs, 0, ps[i]) < U32)
      && (forall i :: 0 <= i < |ps| && |image| % bs == 0 ==> EndOf(bs, 0, ps[i]) * bs <= |image|)
      && (forall i :: 0 <= i < |ps| ==> AllBacked(st, ps[i]))
      && (|image| <= |dev| ==> UpdateAll(st, bs, dev, ps) == image + dev[|image|..])
  {
    hide CutAll, Resparse.Body, AllBacked, Ordered, EndOf, Whole, Denote, Region, Update, UpdateAll, Sendable;
    var budget := Resparse.Budget(maxSize);
    var ps := CutAll(bs, budget, s);
    assert image[0..|image|] == image;
    EmptyUnion(Region(0, image));
    NothingDenoted(st, bs);
    PiecesDenote(st, bs, budget, s);
    if |image| <= |dev| {
      PiecesRestoreImage(st, bs, budget, s, image, dev);
    }
    RoundingAgrees(|image|, bs);
    forall i | 0 <= i < |ps|
      ensures Sendable(st, bs, |image|, ps[i]) && EndOf(bs, 0, ps[i]) < U32
      ensures |image| % bs == 0 ==> EndOf(bs, 0, ps[i]) * bs <= |image|
    {
      PieceSendable(st, bs, |image|, maxSize, s, i);
      MulMono(EndOf(bs, 0, ps[i]), EndOf(bs, 0, s), bs);
    }
  }

  lemma NothingDenoted(st: Store, bs: nat)
    ensures Denote(st, bs, []) == map[]
  {
  }

  /**
   * The whole way of a plain image: read into blocks, cut to the download limit in two passes, sent piece
   * by piece over TCP, parsed and expanded by the device. If it ends well, the image was a whole number of
   * blocks and a device that refuses seeks only past its end holds the image and keeps everything behind
   * it; and for such an image and a device that has room, only the transport or the device's own writes
   * can make it end otherwise.
   */
  method FlashImage(fd: nat, blockSize: nat, maxSize: int, handle: PartitionHandle, st: Store) returns (r: Outcome)
    requires fd in st.fds && |st.fds[fd]| > 0
    requires blockSize % 4 == 0 && 0 < blockSize < U32 && DivRoundUp(|st.fds[fd]|, blockSize) < I32
    requires 0 < maxSize < U32 ==> maxSize >= Resparse.OVERHEAD && Resparse.LimitOk(blockSize, Resparse.Budget(maxSize))
    modifies handle
    ensures r == BadLimit <==> !(0 < maxSize < U32)
    ensures |handle.bytes| == |old(handle.bytes)|
    ensures r == Flashed ==> |st.fds[fd]| % blockSize == 0 && |st.fds[fd]| <= |handle.bytes|
    ensures r == Flashed && handle.steady ==> handle.bytes == st.fds[fd] + old(handle.bytes)[|st.fds[fd]|..]
    ensures r != Flashed && r != BadLimit && |st.fds[fd]| % blockSize == 0 && |st.fds[fd]| <= |handle.bytes| ==>
      (r == DownloadFailed || r == DeviceRefused(DeviceFailed))
  {
    hide CutAll, Resparse.LimitOk, AllBacked, Ordered, EndOf, Whole, Denote, Region, UpdateAll, Sendable,
      BackedBlockList.Linked, DivRoundUp, HoldsPiece, ReadSoFar;
    ghost var image := st.fds[fd];
    ghost var dev := handle.bytes;
    var src := new FdReader(st.fds[fd], 0);
    var s := new SparseFile(blockSize, |st.fds[fd]|);
    EmptyIsReadable(st, blockSize);
    var read := DoReadNormal(s, fd, src, 0, |st.fds[fd]|, st);
    if 0 < maxSize < U32 {
      ImagePieces(st, blockSize, image, s.list.contents, maxSize, dev);
    }
    ReadIsBacked(st, blockSize, [], s.list.contents, image, 0, |image|);
    ghost var ps := if 0 < maxSize < U32 then CutAll(blockSize, Resparse.Budget(maxSize), s.list.contents) else [];
    var died, files := ResparseInTwoPasses(s, maxSize, st);
    if died {
      return BadLimit;
    }
    r := FlashPartitionFiles(files, handle, st, blockSize, |st.fds[fd]|, ps, {s.list} + s.list.repr);
  }

  lemma ReadIsBacked(st: Store, bs: nat, s0: seq<Block>, s: seq<Block>, file: seq<byte>, start: nat, offset: nat)
    requires bs > 0 && AllBacked(st, s0) && ReadSoFar(st, bs, s0, s, file, start, offset)
    ensures AllBacked(st, s)
  {
  }

  lemma EmptyIsReadable(st: Store, bs: nat)
    requires bs > 0
    ensures Ordered(bs, 0, []) && AllBacked(st, []) && Whole(bs, []) && EndOf(bs, 0, []) == 0
  {
  }
}
