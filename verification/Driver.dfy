/** Sending a sparse file to the device: the announced size, and the writer's calls re-cut for the transport. */
module Driver {
  import opened Wire
  import opened Arith
  import opened Blocks
  import opened BackedBlockList
  import opened SparseFormat
  import opened OutputCalls
  import opened OutputFile
  import opened SparseFile
  import Tcp

  const TRANSPORT_CHUNK_SIZE: nat := 1024
  const MAX_DOWNLOAD_SIZE: nat := 0xffff_ffff

  /**
   * A transport that takes a whole buffer or fails, and the buffers it has taken: TCP, which is closed by
   * its first failure, or another one, which may fail and still take what comes after.
   */
  class Transport {
    const tcp: Tcp.TcpTransport?
    var sends: seq<seq<byte>>
    ghost var failures: nat

    constructor (tcp: Tcp.TcpTransport?)
      requires tcp != null ==> tcp.open && tcp.socket.outgoing == []
      ensures this.tcp == tcp && sends == [] && failures == 0 && Valid()
    {
      this.tcp, sends, failures := tcp, [], 0;
    }

    ghost function Wires(): set<object> {
      if tcp == null then {} else {tcp, tcp.socket}
    }

    /** Over TCP the messages are on the wire as long as the connection is open, until the first failure. */
    ghost predicate Valid()
      reads this, Wires()
    {
      tcp != null ==>
        && (tcp.open <==> failures == 0)
        && (tcp.open ==> tcp.socket.outgoing == Tcp.Frames(sends))
    }

    method Write(data: seq<byte>) returns (ok: bool)
      requires Valid() && 0 < |data| < Tcp.U64
      modifies this, Wires()
      ensures Valid() && sends == (if ok then old(sends) + [data] else old(sends))
      ensures failures == old(failures) + if ok then 0 else 1
      ensures tcp != null && old(failures) > 0 ==> !ok
    {
      hide Tcp.Frames, Tcp.Frame;
      if tcp != null {
        Tcp.FramesSnoc(sends, data);
        ok := tcp.Write(data);
      } else {
        ok :| ok || !ok;
      }
      if ok {
        sends := sends + [data];
      } else {
        failures := failures + 1;
      }
    }
  }

  /** Every send so far was a nonzero multiple of the transport chunk. */
  predicate FullChunks(sends: seq<seq<byte>>) {
    forall i :: 0 <= i < |sends| ==> |sends[i]| > 0 && |sends[i]| % TRANSPORT_CHUNK_SIZE == 0
  }

  /** Full chunks, and perhaps one shorter send at the very end. */
  predicate FullButLast(sends: seq<seq<byte>>) {
    && (forall i :: 0 <= i < |sends| - 1 ==> |sends[i]| > 0 && |sends[i]| % TRANSPORT_CHUNK_SIZE == 0)
    && (sends != [] ==> |sends[|sends| - 1]| > 0)
  }

  /** `SendBuffer`: a buffer of no bytes is refused. */
  method SendBuffer(transport: Transport, buf: seq<byte>) returns (ok: bool)
    requires transport.Valid() && |buf| < Tcp.U64
    modifies transport, transport.Wires()
    ensures transport.Valid()
    ensures ok ==> buf != [] && transport.sends == old(transport.sends) + [buf] && transport.failures == old(transport.failures)
    ensures !ok ==> transport.sends == old(transport.sends)
    ensures !ok && buf != [] ==> transport.failures == old(transport.failures) + 1
    ensures ok ==> transport.tcp == null || old(transport.failures) == 0
  {
    if buf == [] {
      return false;
    }
    ok := transport.Write(buf);
  }

  // ---- one call of the callback ----

  /** What one call leaves: its result, the bytes held back, and what has been sent. */
  datatype Recut = Recut(ok: bool, held: seq<byte>, out: seq<seq<byte>>)

  /** How the two sends that a call may make end. */
  datatype Fate = Fate(chunk: bool, rest: bool)

  /**
   * The callback on `data` with `held` held back: below a chunk nothing is sent; otherwise the first chunk,
   * then all whole chunks of the rest. A failing first send keeps its chunk held back for the next call;
   * whatever of the data was not in it is lost.
   */
  function Cut(held: seq<byte>, data: seq<byte>, fate: Fate): Recut
    requires |held| <= TRANSPORT_CHUNK_SIZE
  {
    var n := Min(TRANSPORT_CHUNK_SIZE - |held|, |data|);
    var chunk := held + data[..n];
    if |chunk| < TRANSPORT_CHUNK_SIZE then Recut(true, chunk, [])
    else if !fate.chunk then Recut(false, chunk, [])
    else
      var m := TRANSPORT_CHUNK_SIZE * ((|data| - n) / TRANSPORT_CHUNK_SIZE);
      if m == 0 then Recut(true, data[n..], [chunk])
      else if !fate.rest then Recut(false, [], [chunk])
      else Recut(true, data[n + m..], [chunk, data[n..n + m]])
  }

  /** How much of the data a failing call still accounts for. */
  function KeptOnFailure(held: seq<byte>, data: seq<byte>): nat
    requires |held| <= TRANSPORT_CHUNK_SIZE
  {
    Min(TRANSPORT_CHUNK_SIZE - |held|, |data|)
  }

  /** `SparseWriteCallback`, for whatever way its sends end. */
  method SparseWriteCallback(transport: Transport, tpbufIn: seq<byte>, data: seq<byte>)
    returns (ok: bool, tpbuf: seq<byte>, ghost fate: Fate)
    requires transport.Valid() && |tpbufIn| <= TRANSPORT_CHUNK_SIZE && |data| < Tcp.U64
    modifies transport, transport.Wires()
    ensures transport.Valid() && |tpbuf| <= TRANSPORT_CHUNK_SIZE
    ensures var r := Cut(tpbufIn, data, fate);
      ok == r.ok && tpbuf == r.held && transport.sends == old(transport.sends) + r.out
    ensures ok ==> transport.failures == old(transport.failures)
    ensures !ok ==> transport.failures > old(transport.failures)
    ensures transport.tcp != null && old(transport.failures) > 0 ==> Cut(tpbufIn, data, fate).out == []
  {
    var total := 0;
    var toWrite := Min(TRANSPORT_CHUNK_SIZE - |tpbufIn|, |data|);
    tpbuf := tpbufIn + data[..toWrite];
    fate := Fate(true, true);
    if |tpbuf| < TRANSPORT_CHUNK_SIZE {
      return true, tpbuf, fate;
    }
    ok := SendBuffer(transport, tpbuf);
    if !ok {
      fate := Fate(false, true);
      return;
    }
    tpbuf := [];
    total := total + toWrite;
    var nchunks := (|data| - total) / TRANSPORT_CHUNK_SIZE;
    var nbytes := TRANSPORT_CHUNK_SIZE * nchunks;
    if nbytes > 0 {
      ok := SendBuffer(transport, data[total..total + nbytes]);
      if !ok {
        fate := Fate(true, false);
        return;
      }
    }
    total := total + nbytes;
    if |data| - total > 0 {
      tpbuf := data[total..];
    }
    ok := true;
  }

  /**
   * No call loses or moves a byte when it succeeds: what was held back and the data go out in nonzero
   * multiples of a chunk, with less than a chunk held back. A failing one loses what did not fit its
   * first chunk, and nothing else.
   */
  lemma CutKeeps(held: seq<byte>, data: seq<byte>, fate: Fate)
    requires |held| <= TRANSPORT_CHUNK_SIZE
    ensures var r, n := Cut(held, data, fate), KeptOnFailure(held, data);
      && FullChunks(r.out)
      && (r.ok ==> |r.held| < TRANSPORT_CHUNK_SIZE && Flat(r.out) + r.held == held + data)
      && (!r.ok ==> Flat(r.out) + r.held == held + data[..n])
      && (!r.ok ==> r.held == [] || |r.held| == TRANSPORT_CHUNK_SIZE)
      && (!r.ok && |data| < TRANSPORT_CHUNK_SIZE ==> |r.held| == TRANSPORT_CHUNK_SIZE)
      && (fate == Fate(true, true) ==> r.ok)
  {
    hide Flat;
    var n := KeptOnFailure(held, data);
    var chunk := held + data[..n];
    var m := TRANSPORT_CHUNK_SIZE * ((|data| - n) / TRANSPORT_CHUNK_SIZE);
    FlatOne(chunk);
    FlatNothing();
    FlatTwo(chunk, data[n..n + m]);
    assert n == |data| ==> data[..n] == data;
    assert held + data == held + data[..n] + data[n..n + m] + data[n + m..];
    assert m == 0 ==> held + data == chunk + data[n..];
  }

  lemma FlatNothing()
    ensures Flat([]) == []
  {
  }

  lemma FlatTwo(a: seq<byte>, b: seq<byte>)
    ensures Flat([a, b]) == a + b
  {
    FlatOne(b);
    assert [a, b][1..] == [b];
  }

  // ---- the whole file through the callback ----

  /**
   * Where the download stands: given up, inside a dropped operation that broke off, what is held back,
   * what has been sent, and how many bytes of each call it accounts for.
   */
  datatype Feeding = Feeding(failed: bool, broken: bool, held: seq<byte>, out: seq<seq<byte>>, kept: seq<nat>)

  /** One call of the writer: not made at all, or made with the writer's answer to its failure. */
  function FeedOne(f: Feeding, c: Call, fate: Fate): Feeding
    requires c.Write? && |f.held| <= TRANSPORT_CHUNK_SIZE
  {
    if f.failed || (f.broken && c.mark == Continued) then f.(kept := f.kept + [0])
    else
      var r := Cut(f.held, c.data, fate);
      Feeding(!r.ok && c.mark == Checked, !r.ok && c.mark != Checked, r.held, f.out + r.out,
              f.kept + [if r.ok then |c.data| else KeptOnFailure(f.held, c.data)])
  }

  function Feed(calls: seq<Call>, fates: seq<Fate>): (f: Feeding)
    requires AllWrites(calls) && |fates| == |calls|
    ensures |f.held| <= TRANSPORT_CHUNK_SIZE && |f.kept| == |calls|
  {
    if calls == [] then Feeding(false, false, [], [], [])
    else
      var p := Feed(calls[..|calls| - 1], fates[..|fates| - 1]);
      HeldBounded(p.held, calls[|calls| - 1].data, fates[|fates| - 1]);
      FeedOne(p, calls[|calls| - 1], fates[|fates| - 1])
  }

  lemma HeldBounded(held: seq<byte>, data: seq<byte>, fate: Fate)
    requires |held| <= TRANSPORT_CHUNK_SIZE
    ensures |Cut(held, data, fate).held| <= TRANSPORT_CHUNK_SIZE
  {
    CutKeeps(held, data, fate);
  }

  lemma FeedSnoc(calls: seq<Call>, fates: seq<Fate>, c: Call, fate: Fate)
    requires AllWrites(calls) && |fates| == |calls| && c.Write?
    ensures AllWrites(calls + [c]) && Feed(calls + [c], fates + [fate]) == FeedOne(Feed(calls, fates), c, fate)
  {
    assert (calls + [c])[..|calls|] == calls && (fates + [fate])[..|fates|] == fates;
  }

  /** The bytes accounted for: of each call its first `kept` ones. */
  function KeptBytes(calls: seq<Call>, kept: seq<nat>): seq<byte>
    requires AllWrites(calls) && Fitting(calls, kept)
  {
    if calls == [] then []
    else KeptBytes(calls[..|calls| - 1], kept[..|kept| - 1]) + calls[|calls| - 1].data[..kept[|kept| - 1]]
  }

  predicate Fitting(calls: seq<Call>, kept: seq<nat>)
    requires AllWrites(calls)
  {
    |kept| == |calls| && forall i :: 0 <= i < |calls| ==> kept[i] <= |calls[i].data|
  }

  /** Every checked call is accounted for in full. */
  predicate StrictKept(calls: seq<Call>, kept: seq<nat>)
    requires AllWrites(calls) && |kept| == |calls|
  {
    forall i :: 0 <= i < |calls| && calls[i].mark == Checked ==> kept[i] == |calls[i].data|
  }

  predicate Complete(calls: seq<Call>, kept: seq<nat>)
    requires AllWrites(calls) && |kept| == |calls|
  {
    forall i :: 0 <= i < |calls| ==> kept[i] == |calls[i].data|
  }

  lemma KeptSnoc(calls: seq<Call>, kept: seq<nat>, c: Call, k: nat)
    requires AllWrites(calls) && Fitting(calls, kept) && c.Write? && k <= |c.data|
    ensures AllWrites(calls + [c]) && Fitting(calls + [c], kept + [k])
    ensures KeptBytes(calls + [c], kept + [k]) == KeptBytes(calls, kept) + c.data[..k]
  {
    assert (calls + [c])[..|calls|] == calls && (kept + [k])[..|kept|] == kept;
  }

  /** What holds of one more call. */
  lemma FeedOneKeeps(calls: seq<Call>, f: Feeding, c: Call, fate: Fate)
    requires AllWrites(calls) && Fitting(calls, f.kept) && c.Write? && |f.held| <= TRANSPORT_CHUNK_SIZE
    requires FullChunks(f.out) && Flat(f.out) + f.held == KeptBytes(calls, f.kept)
    requires !f.failed ==> StrictKept(calls, f.kept)
    requires f.broken ==> |f.held| == TRANSPORT_CHUNK_SIZE || f.held == []
    ensures var g := FeedOne(f, c, fate);
      && AllWrites(calls + [c]) && Fitting(calls + [c], g.kept)
      && FullChunks(g.out) && Flat(g.out) + g.held == KeptBytes(calls + [c], g.kept)
      && (!g.failed && !f.failed ==> StrictKept(calls + [c], g.kept))
      && (g.broken ==> |g.held| == TRANSPORT_CHUNK_SIZE || g.held == [])
  {
    hide Flat, KeptBytes, Cut, FullChunks;
    var k := FeedOne(f, c, fate).kept[|calls|];
    KeptSnoc(calls, f.kept, c, k);
    if f.failed || (f.broken && c.mark == Continued) {
      assert c.data[..0] == [];
    } else {
      var r := Cut(f.held, c.data, fate);
      CutKeeps(f.held, c.data, fate);
      FlatAppend(f.out, r.out);
      FullAppend(f.out, r.out);
      assert c.data[..|c.data|] == c.data;
      SameSplit(Flat(f.out), Flat(r.out), r.held, f.held, c.data[..k]);
    }
  }

  lemma SameSplit(a: seq<byte>, b: seq<byte>, h: seq<byte>, held: seq<byte>, d: seq<byte>)
    requires b + h == held + d
    ensures (a + b) + h == (a + held) + d
  {
    assert (a + b) + h == a + (b + h);
  }

  lemma FullAppend(a: seq<seq<byte>>, b: seq<seq<byte>>)
    requires FullChunks(a) && FullChunks(b)
    ensures FullChunks(a + b)
  {
  }

  /**
   * Over every run: the sends and what is held back are exactly the bytes accounted for, and as long as
   * the download is not given up these are all bytes of all checked calls.
   */
  lemma {:induction false} FeedKeeps(calls: seq<Call>, fates: seq<Fate>)
    requires AllWrites(calls) && |fates| == |calls|
    ensures var f := Feed(calls, fates);
      && Fitting(calls, f.kept) && FullChunks(f.out) && Flat(f.out) + f.held == KeptBytes(calls, f.kept)
      && (!f.failed ==> StrictKept(calls, f.kept))
      && (f.broken ==> |f.held| == TRANSPORT_CHUNK_SIZE || f.held == [])
    decreases |calls|
  {
    hide Flat, FullChunks, FeedOne;
    if calls == [] {
      FlatNothing();
      NothingFed();
    } else {
      var n := |calls| - 1;
      FeedKeeps(calls[..n], fates[..n]);
      FeedOneKeeps(calls[..n], Feed(calls[..n], fates[..n]), calls[n], fates[n]);
      assert calls[..n] + [calls[n]] == calls;
      FailedStays(Feed(calls[..n], fates[..n]), calls[n], fates[n]);
    }
  }

  lemma NothingFed()
    ensures FullChunks([]) && KeptBytes([], []) == []
  {
  }

  lemma FailedStays(f: Feeding, c: Call, fate: Fate)
    requires c.Write? && |f.held| <= TRANSPORT_CHUNK_SIZE
    ensures f.failed ==> FeedOne(f, c, fate).failed
  {
  }

  lemma {:induction false} KeptSize(calls: seq<Call>, kept: seq<nat>)
    requires AllWrites(calls) && Fitting(calls, kept)
    ensures |KeptBytes(calls, kept)| <= |Sent(calls)|
    ensures |KeptBytes(calls, kept)| == |Sent(calls)| <==> Complete(calls, kept)
    ensures Complete(calls, kept) ==> KeptBytes(calls, kept) == Sent(calls)
    decreases |calls|
  {
    if calls != [] {
      var n := |calls| - 1;
      KeptSize(calls[..n], kept[..n]);
      assert Complete(calls, kept) <==> Complete(calls[..n], kept[..n]) && kept[n] == |calls[n].data| by {
        CompleteParts(calls, kept);
      }
      assert calls[n].data[..|calls[n].data|] == calls[n].data;
    }
  }

  lemma CompleteParts(calls: seq<Call>, kept: seq<nat>)
    requires AllWrites(calls) && |kept| == |calls| > 0
    ensures var n := |calls| - 1;
      Complete(calls, kept) <==> Complete(calls[..n], kept[..n]) && kept[n] == |calls[n].data|
  {
  }

  /** The last send: what is held back, if anything. */
  function Flushed(f: Feeding): seq<seq<byte>> {
    if f.held == [] then f.out else f.out + [f.held]
  }

  /**
   * What a download that is not given up has sent: the writer's bytes exactly when no failing call lost
   * any, and never more than that; all sends but the last are nonzero multiples of a chunk.
   */
  lemma SentExactly(calls: seq<Call>, fates: seq<Fate>)
    requires AllWrites(calls) && |fates| == |calls|
    ensures var f := Feed(calls, fates);
      && Fitting(calls, f.kept) && Flat(Flushed(f)) == KeptBytes(calls, f.kept) && FullButLast(Flushed(f))
      && (Flat(Flushed(f)) == Sent(calls) <==> Complete(calls, f.kept))
      && (|Flat(Flushed(f))| == |Sent(calls)| <==> Complete(calls, f.kept))
  {
    hide Flat, Feed, KeptBytes, Complete, Sent;
    var f := Feed(calls, fates);
    FeedKeeps(calls, fates);
    KeptSize(calls, f.kept);
    FlatSnoc(f.out, f.held);
    assert Flat(f.out) + [] == Flat(f.out);
  }

  /** Without a failing send nothing is lost. */
  lemma {:induction false} NothingLost(calls: seq<Call>, fates: seq<Fate>)
    requires AllWrites(calls) && |fates| == |calls| && forall i :: 0 <= i < |fates| ==> fates[i] == Fate(true, true)
    ensures var f := Feed(calls, fates); !f.failed && !f.broken && Complete(calls, f.kept)
    decreases |calls|
  {
    hide Cut;
    if calls != [] {
      var n := |calls| - 1;
      NothingLost(calls[..n], fates[..n]);
      CutKeeps(Feed(calls[..n], fates[..n]).held, calls[n].data, fates[n]);
      CompleteParts(calls, Feed(calls, fates).kept);
    }
  }

  /**
   * Call `i` loses bytes exactly when it is left out behind a failure of its own operation, or its send
   * fails and it has more bytes than the chunk held back has room for.
   */
  lemma {:induction false} LostExactly(calls: seq<Call>, fates: seq<Fate>, i: nat)
    requires AllWrites(calls) && |fates| == |calls| && i < |calls| && !Feed(calls, fates).failed
    ensures var before, c := Feed(calls[..i], fates[..i]), calls[i];
      && !before.failed
      && (Feed(calls, fates).kept[i] < |c.data| <==>
        (if before.broken && c.mark == Continued then c.data != []
         else !Cut(before.held, c.data, fates[i]).ok && |c.data| > TRANSPORT_CHUNK_SIZE - |before.held|))
    decreases |calls|
  {
    hide Cut;
    var n := |calls| - 1;
    var p := Feed(calls[..n], fates[..n]);
    FailedStays(p, calls[n], fates[n]);
    if i < n {
      LostExactly(calls[..n], fates[..n], i);
      assert calls[..n][..i] == calls[..i] && fates[..n][..i] == fates[..i];
    }
  }

  /** The writer's calls in turn, each with the writer's answer to its failure; `fates` is how its sends ended. */
  method FeedCalls(transport: Transport, calls: seq<Call>) returns (ok: bool, tpbuf: seq<byte>, ghost fates: seq<Fate>)
    requires transport.Valid() && transport.sends == [] && transport.failures == 0
    requires AllWrites(calls) && Shaped(calls) && forall i :: 0 <= i < |calls| ==> |calls[i].data| < Tcp.U64
    modifies transport, transport.Wires()
    ensures transport.Valid()
    ensures ok ==> |fates| == |calls|
    ensures ok ==> (var f := Feed(calls, fates); !f.failed && tpbuf == f.held && transport.sends == f.out)
    ensures ok && transport.failures == 0 ==> Complete(calls, Feed(calls, fates).kept)
    ensures ok && transport.tcp != null && transport.failures > 0 ==> |tpbuf| == TRANSPORT_CHUNK_SIZE
  {
    hide Cut, Feed, AllWrites, Shaped, Complete;
    var broken := false;
    var i := 0;
    tpbuf, fates := [], [];
    FeedNothing();
    assert calls[..0] == [];
    while i < |calls|
      invariant 0 <= i <= |calls| && |fates| == i && transport.Valid() && |tpbuf| <= TRANSPORT_CHUNK_SIZE
      invariant AllWrites(calls[..i])
      invariant Feed(calls[..i], fates) == Feeding(false, broken, tpbuf, transport.sends, Feed(calls[..i], fates).kept)
      invariant transport.failures == 0 ==> Complete(calls[..i], Feed(calls[..i], fates).kept) && !broken
      invariant transport.tcp != null && transport.failures > 0 ==> |tpbuf| == TRANSPORT_CHUNK_SIZE
    {
      var c := calls[i];
      ghost var before := Feed(calls[..i], fates);
      ghost var fate := Fate(true, true);
      CallFits(calls, i);
      assert calls[..i + 1] == calls[..i] + [c];
      if !(broken && c.mark == Continued) {
        ghost var held := tpbuf;
        ok, tpbuf, fate := SparseWriteCallback(transport, tpbuf, c.data);
        CutKeeps(held, c.data, fate);
        if !ok && c.mark == Checked {
          return;
        }
        broken := !ok;
      }
      FeedSnoc(calls[..i], fates, c, fate);
      fates := fates + [fate];
      CompleteSnoc(calls[..i], before.kept, c, Feed(calls[..i + 1], fates).kept[i]);
      i := i + 1;
    }
    assert calls[..i] == calls;
    ok := true;
  }

  lemma FeedNothing()
    ensures AllWrites([]) && Feed([], []) == Feeding(false, false, [], [], []) && Complete([], [])
  {
  }

  lemma CallFits(calls: seq<Call>, i: nat)
    requires AllWrites(calls) && Shaped(calls) && i < |calls|
    ensures calls[i].Write? && (calls[i].mark != Checked ==> |calls[i].data| <= 12)
    ensures AllWrites(calls[..i]) && AllWrites(calls[..i + 1])
  {
  }

  lemma CompleteSnoc(calls: seq<Call>, kept: seq<nat>, c: Call, k: nat)
    requires AllWrites(calls) && |kept| == |calls| && c.Write?
    ensures AllWrites(calls + [c])
    ensures Complete(calls + [c], kept + [k]) <==> Complete(calls, kept) && k == |c.data|
  {
    assert AllWrites(calls + [c]);
    CompleteParts(calls + [c], kept + [k]);
    assert (calls + [c])[..|calls|] == calls && (kept + [k])[..|kept|] == kept;
  }

  datatype Outcome = Finished | BadArgument | Crashed | IoError

  /** The calls that writing a file makes, what they send, and which of them may fail without notice. */
  ghost predicate FileCalls(st: Store, bs: nat, len: nat, s: seq<Block>, crc: bool, calls: seq<Call>)
    requires bs > 0 && AllBacked(st, s)
  {
    && calls == SparseCalls(st, bs, len, s, crc)
    && AllWrites(calls) && Shaped(calls) && Sent(calls) == SparseBytes(st, bs, len, s, crc)
    && Loose(calls) == SparseLoose(st, bs, len, s, crc)
  }

  /**
   * `Download` of a sparse file. The size announced first is the size of the file. When the download is
   * reported as sent, every byte of every data and fill chunk has been sent in order, and the file's bytes
   * have been sent exactly when no failing call of a skip or of the checksum lost any; over TCP, and
   * wherever no send failed, that is always so. Every send but the last is a nonzero multiple of the
   * chunk size.
   */
  method Download(transport: Transport, s: SparseFile, useCrc: bool, st: Store)
    returns (outcome: Outcome, announced: nat, ghost calls: seq<Call>, ghost fates: seq<Fate>)
    requires s.Valid() && AllBacked(st, s.list.contents) && EndOf(s.blockSize, 0, s.list.contents) < U32
    requires transport.Valid() && transport.sends == [] && transport.failures == 0
    modifies transport, transport.Wires()
    ensures transport.Valid()
    ensures outcome == Crashed <==> EndOf(s.blockSize, 0, s.list.contents) * s.blockSize > s.len
    ensures outcome == BadArgument <==>
      EndOf(s.blockSize, 0, s.list.contents) * s.blockSize <= s.len &&
      |SparseBytes(st, s.blockSize, s.len, s.list.contents, useCrc)| > MAX_DOWNLOAD_SIZE
    ensures outcome == Finished ==>
      && announced == |SparseBytes(st, s.blockSize, s.len, s.list.contents, useCrc)| <= MAX_DOWNLOAD_SIZE
      && FileCalls(st, s.blockSize, s.len, s.list.contents, useCrc, calls) && |fates| == |calls|
    ensures outcome == Finished ==>
      (var f := Feed(calls, fates);
      && !f.failed && transport.sends == Flushed(f) && FullButLast(transport.sends)
      && Fitting(calls, f.kept) && StrictKept(calls, f.kept) && Flat(transport.sends) == KeptBytes(calls, f.kept)
      && (Flat(transport.sends) == SparseBytes(st, s.blockSize, s.len, s.list.contents, useCrc) <==> Complete(calls, f.kept))
      && (announced == |Flat(transport.sends)| <==> Complete(calls, f.kept))
      && (transport.tcp != null || transport.failures == 0 ==> Complete(calls, f.kept)))
    ensures outcome == Finished && transport.tcp != null ==> transport.failures == 0
  {
    hide Flat, Sent, SparseBytes, SparseLoose, Loose, Shaped, EndOf, AllBacked, BackedBlockList.Linked, FullChunks, FullButLast,
      CountedBytes, AllWrites, Feed, KeptBytes, Complete, Fitting, StrictKept, Cut, SparseCalls;
    calls, fates := [], [];
    var status, size := s.Len(true, useCrc, st);
    if status.Aborted? {
      return Crashed, 0, calls, fates;
    }
    FileHasBytes(st, s.blockSize, s.len, s.list.contents, useCrc);
    if size <= 0 || size > MAX_DOWNLOAD_SIZE {
      return BadArgument, 0, calls, fates;
    }
    announced := size;
    var commandOk: bool :| commandOk || !commandOk;
    if !commandOk {
      return IoError, announced, calls, fates;
    }
    var trace;
    status, trace := s.CallbackSparse(useCrc, st);
    CallsAreSmall(trace);
    var ok, tpbuf;
    ok, tpbuf, fates := FeedCalls(transport, trace);
    calls := trace;
    if !ok {
      return IoError, announced, calls, fates;
    }
    SentExactly(calls, fates);
    FeedKeeps(calls, fates);
    if tpbuf != [] {
      ok := SendBuffer(transport, tpbuf);
      if !ok {
        return IoError, announced, calls, fates;
      }
    }
    outcome := Finished;
  }

  lemma {:induction false} CallsAreSmall(calls: seq<Call>)
    requires AllWrites(calls)
    ensures forall i :: 0 <= i < |calls| ==> |calls[i].data| <= |Sent(calls)|
  {
    if calls != [] {
      CallsAreSmall(calls[..|calls| - 1]);
      forall i | 0 <= i < |calls| ensures |calls[i].data| <= |Sent(calls)| {
        if i < |calls| - 1 {
          assert calls[..|calls| - 1][i] == calls[i];
        }
      }
    }
  }

  lemma FileHasBytes(st: Store, bs: nat, len: nat, s: seq<Block>, crc: bool)
    requires bs > 0 && AllBacked(st, s)
    ensures |SparseBytes(st, bs, len, s, crc)| > 0
  {
    hide EncodeChunks, AllChunks;
  }

  // ---- a download that is reported as sent and is not complete ----

  function RunOfFour(h: seq<byte>, c: seq<byte>, d: seq<byte>, k: seq<byte>): seq<Call> {
    [Write(h, Checked), Write(c, Checked), Write(d, Checked), Write(k, Dropped)]
  }

  /** Eight of the last twelve bytes fill a chunk whose send fails. */
  const LAST_FAILS: seq<Fate> := [Fate(true, true), Fate(true, true), Fate(true, true), Fate(false, true)]

  lemma FeedHolds(calls: seq<Call>, fates: seq<Fate>, data: seq<byte>, held: seq<byte>, kept: seq<nat>)
    requires AllWrites(calls) && |fates| == |calls| && Feed(calls, fates) == Feeding(false, false, held, [], kept)
    requires |held| + |data| < TRANSPORT_CHUNK_SIZE
    ensures AllWrites(calls + [Write(data, Checked)])
    ensures Feed(calls + [Write(data, Checked)], fates + [Fate(true, true)]) ==
      Feeding(false, false, held + data, [], kept + [|data|])
  {
    FeedSnoc(calls, fates, Write(data, Checked), Fate(true, true));
    assert data[..|data|] == data;
  }

  lemma FeedBreaks(calls: seq<Call>, fates: seq<Fate>, data: seq<byte>, held: seq<byte>, kept: seq<nat>)
    requires AllWrites(calls) && |fates| == |calls| && Feed(calls, fates) == Feeding(false, false, held, [], kept)
    requires |held| == 1016 && |data| == 12
    ensures AllWrites(calls + [Write(data, Dropped)])
    ensures Feed(calls + [Write(data, Dropped)], fates + [Fate(false, true)]) ==
      Feeding(false, true, held + data[..8], [], kept + [8])
  {
    FeedSnoc(calls, fates, Write(data, Dropped), Fate(false, true));
  }

  lemma FedFour(h: seq<byte>, c: seq<byte>, d: seq<byte>, k: seq<byte>)
    requires |h| == 28 && |c| == 12 && |d| == 976 && |k| == 12
    ensures AllWrites(RunOfFour(h, c, d, k))
    ensures var f := Feed(RunOfFour(h, c, d, k), LAST_FAILS);
      !f.failed && f.out == [] && f.held == h + c + d + k[..8] && f.kept == [28, 12, 976, 8]
  {
    hide Feed, AllWrites;
    var t := Fate(true, true);
    var one, two := [Write(h, Checked)], [Write(h, Checked), Write(c, Checked)];
    var three := two + [Write(d, Checked)];
    FeedNothing();
    assert [] + [Write(h, Checked)] == one && [] + [t] == [t] && [] + h == h && [] + [28] == [28];
    FeedHolds([], [], h, [], []);
    assert one + [Write(c, Checked)] == two && [t] + [t] == [t, t] && [28] + [12] == [28, 12];
    FeedHolds(one, [t], c, h, [28]);
    assert [t, t] + [t] == [t, t, t] && [28, 12] + [976] == [28, 12, 976];
    FeedHolds(two, [t, t], d, h + c, [28, 12]);
    assert three + [Write(k, Dropped)] == RunOfFour(h, c, d, k) && [t, t, t] + [Fate(false, true)] == LAST_FAILS;
    FeedBreaks(three, [t, t, t], k, h + c + d, [28, 12, 976]);
  }

  lemma SentFour(h: seq<byte>, c: seq<byte>, d: seq<byte>, k: seq<byte>)
    ensures Sent(RunOfFour(h, c, d, k)) == h + c + d + k
    ensures Loose(RunOfFour(h, c, d, k)) == Same(|h|, false) + Same(|c|, false) + Same(|d|, false) + Same(|k|, true)
  {
    hide Same;
    var one, two := [Write(h, Checked)], [Write(h, Checked), Write(c, Checked)];
    var three := two + [Write(d, Checked)];
    SentSnoc([], h, Checked);
    SentSnoc(one, c, Checked);
    SentSnoc(two, d, Checked);
    SentSnoc(three, k, Dropped);
    LooseSnoc([], Write(h, Checked));
    LooseSnoc(one, Write(c, Checked));
    LooseSnoc(two, Write(d, Checked));
    LooseSnoc(three, Write(k, Dropped));
    assert [] + [Write(h, Checked)] == one && one + [Write(c, Checked)] == two;
    assert three + [Write(k, Dropped)] == RunOfFour(h, c, d, k);
    assert Sent([]) == [] && Loose([]) == [] && [] + h == h && [] + Same(|h|, false) == Same(|h|, false);
  }

  /** 976 bytes of data in blocks of four, and one skipped block behind them. */
  const Gapped: Block := Block(0, 976, Data(Zeros(976), 0))

  lemma GappedChunks(st: Store)
    ensures Ordered(4, 0, [Gapped]) && AllBacked(st, [Gapped]) && EndOf(4, 0, [Gapped]) == 244
    ensures AllChunks(st, 4, 980, [Gapped]) == [RawChunk(244, Zeros(976)), DontCareChunk(1)]
    ensures CountChunks(4, 980, [Gapped]) == 2
  {
    assert [Gapped][1..] == [];
    assert Align(976, 4) == 976 && Content(st, Gapped) == Zeros(976);
    assert Padded(st, 4, Gapped) == Zeros(976);
    assert ChunksOf(st, 4, 244, []) == [] && CountBlocks(4, 244, []) == 0;
    assert ChunksOf(st, 4, 0, [Gapped]) == [RawChunk(244, Zeros(976))];
    assert TailChunk(4, 980, 244) == [DontCareChunk(1)];
  }

  lemma GappedBytes(st: Store)
    requires AllBacked(st, [Gapped])
    ensures SparseBytes(st, 4, 980, [Gapped], false) ==
      SparseHeader(4, 245, 2) + ChunkHeader(CHUNK_TYPE_RAW, 244, 976) + Zeros(976) + ChunkHeader(CHUNK_TYPE_DONT_CARE, 1, 0)
    ensures SparseLoose(st, 4, 980, [Gapped], false) ==
      Same(28, false) + Same(12, false) + Same(976, false) + Same(12, true)
  {
    hide SparseHeader, ChunkHeader, AllChunks, CountChunks, Same, Zeros;
    GappedChunks(st);
    var a, b := RawChunk(244, Zeros(976)), DontCareChunk(1);
    EncodeCons(a, [b]);
    EncodeOne(b);
    assert [a] + [b] == [a, b] && [a, b] + [] == [a, b];
    BareChunk(b);
    assert EncodeChunk(a) == ChunkHeader(CHUNK_TYPE_RAW, 244, 976) + Zeros(976);
    EmittedSnoc(28, [a], b);
    EmittedSnoc(28, [], a);
    assert [] + [a] == [a];
    SameAppend(12, 976, false);
    JoinLoose(Same(28, false), Same(12, false), Same(976, false));
  }

  /** The four calls that the writer makes for that file. */
  lemma GappedCalls(st: Store)
    requires AllBacked(st, [Gapped])
    ensures SparseCalls(st, 4, 980, [Gapped], false) ==
      RunOfFour(SparseHeader(4, 245, 2), ChunkHeader(CHUNK_TYPE_RAW, 244, 976), Zeros(976), ChunkHeader(CHUNK_TYPE_DONT_CARE, 1, 0))
  {
    hide SparseHeader, ChunkHeader, Zeros, AllChunks, CountChunks;
    GappedChunks(st);
    var h, c := SparseHeader(4, 245, 2), ChunkHeader(CHUNK_TYPE_RAW, 244, 976);
    assert Align(976, 4) == 976 && DivRoundUp(976, 4) == 244 && DivRoundUp(980, 4) == 245;
    assert RawHeader(4, 976) == c && ZeroCalls(0) == [];
    assert Zeros(976)[0..976] == Zeros(976);
    assert BlockCalls(st, 4, Gapped) == [Write(c, Checked), Write(Zeros(976), Checked)];
    assert CallsOf(st, 4, [Gapped]) == BlockCalls(st, 4, Gapped) by {
      assert [Gapped][..0] == [] && CallsOf(st, 4, []) == [] && EndOf(4, 0, []) == 0;
    }
    assert TailCalls(4, 980, 244) == SkipChunkCalls(1);
  }

  /** A run over the calls of that file that the writer does not give up and that sends 1024 bytes. */
  ghost predicate Sends1024(st: Store, calls: seq<Call>, fates: seq<Fate>) {
    && AllBacked(st, [Gapped]) && FileCalls(st, 4, 980, [Gapped], false, calls) && |fates| == |calls|
    && !Feed(calls, fates).failed && |Flat(Flushed(Feed(calls, fates)))| == 1024
  }

  /**
   * The loss is real: the very calls that the writer makes for this file, with the one send that they lead to failing inside the
   * skip, leave a full chunk held back. When the flush takes it, the download is reported as sent with
   * 1024 of 1028 bytes.
   */
  lemma LostInASkip(st: Store)
    ensures AllBacked(st, [Gapped]) && EndOf(4, 0, [Gapped]) * 4 <= 980
    ensures exists calls, fates :: Sends1024(st, calls, fates)
    ensures |SparseBytes(st, 4, 980, [Gapped], false)| == 1028
  {
    hide SparseHeader, ChunkHeader, SparseBytes, SparseLoose, SparseCalls, Sent, Loose, Feed, Flat, Zeros;
    var h, c, d, k := SparseHeader(4, 245, 2), ChunkHeader(CHUNK_TYPE_RAW, 244, 976), Zeros(976), ChunkHeader(CHUNK_TYPE_DONT_CARE, 1, 0);
    var calls := RunOfFour(h, c, d, k);
    GappedChunks(st);
    GappedBytes(st);
    GappedCalls(st);
    SentFour(h, c, d, k);
    FedFour(h, c, d, k);
    var held := h + c + d + k[..8];
    FlatOne(held);
    assert [] + [held] == [held];
    assert Shaped(calls);
    assert Sends1024(st, calls, LAST_FAILS);
  }
}
