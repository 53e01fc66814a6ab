/** Length-framed messages over a byte stream that splits sends and receives as it likes. */
module Tcp {
  import opened Wire
  import opened Arith

  const U64: nat := 0x1_0000_0000_0000_0000
  const LENGTH_SIZE: nat := 8

  // ---- the big-endian message length ----

  function Pow256(k: nat): (p: nat)
    ensures p > 0
  {
    if k == 0 then 1 else 256 * Pow256(k - 1)
  }

  function BigEndian(n: nat, k: nat): (s: seq<byte>)
    ensures |s| == k
  {
    if k == 0 then [] else BigEndian(n / 256, k - 1) + [n % 256]
  }

  function FromBigEndian(s: seq<byte>): nat {
    if s == [] then 0 else FromBigEndian(s[..|s| - 1]) * 256 + s[|s| - 1] as int
  }

  /** A length survives the trip through `k` bytes exactly when it is below 256^k. */
  lemma {:induction false} BigEndianRoundTrip(n: nat, k: nat)
    ensures FromBigEndian(BigEndian(n, k)) == n <==> n < Pow256(k)
    ensures FromBigEndian(BigEndian(n, k)) < Pow256(k)
  {
    if k > 0 {
      BigEndianRoundTrip(n / 256, k - 1);
      var s := BigEndian(n, k);
      assert s[..|s| - 1] == BigEndian(n / 256, k - 1);
    }
  }

  lemma {:induction false} BigEndianInverse(s: seq<byte>)
    ensures BigEndian(FromBigEndian(s), |s|) == s
  {
    if s != [] {
      var p, b: int := s[..|s| - 1], s[|s| - 1];
      BigEndianInverse(p);
      var m := FromBigEndian(p);
      assert (m * 256 + b) / 256 == m && (m * 256 + b) % 256 == b;
      assert s == p + [s[|s| - 1]];
    }
  }

  lemma DivTwice(n: nat, a: nat, b: nat)
    requires a > 0 && b > 0
    ensures a * b > 0 && n / a / b == n / (a * b)
  {
    assert a * b >= a by { MulMono(1, b, a); }
    var q := n / a / b;
    DivMod(n, a);
    DivMod(n / a, b);
    var r1, r2 := n % a, n / a % b;
    assert n == (q * b + r2) * a + r1;
    Distribute(q * b, r2, a);
    assert q * b * a == q * (a * b);
    MulMono(r2, b - 1, a);
    Distribute(b, 1, a);
    QuotientUnique(n, a * b, q);
  }

  lemma EightBytes()
    ensures Pow256(8) == U64
  {
    assert Pow256(2) == 0x1_0000;
    assert Pow256(4) == 0x1_0000_0000 by { assert Pow256(3) == 0x100_0000; }
    assert Pow256(6) == 0x1_0000_0000_0000 by { assert Pow256(5) == 0x100_0000_0000; }
    assert Pow256(7) == 0x100_0000_0000_0000;
  }

  method EncodeMessageLength(length: nat) returns (buffer: seq<byte>)
    requires length < U64
    ensures buffer == BigEndian(length, LENGTH_SIZE)
  {
    buffer := [];
    EightBytes();
    assert length / Pow256(8) == 0;
    for i := 0 to 8
      invariant buffer == BigEndian(length / Pow256(8 - i), i)
    {
      DivTwice(length, Pow256(7 - i), 256);
      buffer := buffer + [length / Pow256(7 - i) % 256];
    }
    assert Pow256(0) == 1;
  }

  method ExtractMessageLength(buffer: seq<byte>) returns (ret: nat)
    requires |buffer| == LENGTH_SIZE
    ensures ret == FromBigEndian(buffer) && ret < U64
  {
    hide FromBigEndian, BigEndian, Pow256;
    ret := 0;
    assert FromBigEndian(buffer[..0]) == 0 by { NoBytes(buffer); }
    for i := 0 to 8
      invariant ret == FromBigEndian(buffer[..i]) * Pow256(8 - i)
    {
      OneMoreByte(buffer, i);
      ret := ret + buffer[i] as int * Pow256(7 - i);
    }
    assert Pow256(0) == 1 by { NoBytes(buffer); }
    assert buffer[..8] == buffer;
    BigEndianInverse(buffer);
    BigEndianRoundTrip(ret, 8);
    EightBytes();
  }

  lemma NoBytes(buffer: seq<byte>)
    ensures FromBigEndian(buffer[..0]) == 0 && Pow256(0) == 1
  {
  }

  lemma OneMoreByte(buffer: seq<byte>, i: nat)
    requires |buffer| == LENGTH_SIZE && i < 8
    ensures FromBigEndian(buffer[..i + 1]) * Pow256(7 - i) ==
      FromBigEndian(buffer[..i]) * Pow256(8 - i) + buffer[i] as int * Pow256(7 - i)
  {
    assert buffer[..i + 1][..i] == buffer[..i];
    Shifted(FromBigEndian(buffer[..i]), buffer[i], Pow256(7 - i));
  }

  lemma Shifted(m: nat, b: int, p: nat)
    ensures m * (256 * p) + b * p == (m * 256 + b) * p
  {
  }

  // ---- messages in a stream ----

  /** A message as it goes over the wire. */
  function Frame(d: seq<byte>): seq<byte> {
    BigEndian(|d|, LENGTH_SIZE) + d
  }

  function Frames(ds: seq<seq<byte>>): seq<byte> {
    if ds == [] then [] else Frame(ds[0]) + Frames(ds[1..])
  }

  predicate Messages(ds: seq<seq<byte>>) {
    forall i :: 0 <= i < |ds| ==> 0 < |ds[i]| < U64
  }

  lemma {:induction false} FramesSnoc(ds: seq<seq<byte>>, d: seq<byte>)
    ensures Frames(ds + [d]) == Frames(ds) + Frame(d) && Flat(ds + [d]) == Flat(ds) + d
  {
    hide Frame;
    if ds == [] {
      assert [] + [d] == [d] && [d][1..] == [];
    } else {
      assert (ds + [d])[1..] == ds[1..] + [d];
      FramesSnoc(ds[1..], d);
    }
  }

  /** Both ends of a connection: what is still to arrive, and what has been sent. */
  class TcpSocket {
    var incoming: seq<byte>
    var outgoing: seq<byte>

    constructor (incoming: seq<byte>)
      ensures this.incoming == incoming && outgoing == []
    {
      this.incoming, outgoing := incoming, [];
    }

    /** `socket_send_buffers`: some non-empty beginning of the buffers, or failure. */
    method SendBuffers(buffers: seq<seq<byte>>) returns (sent: int)
      requires Flat(buffers) != []
      modifies this`outgoing
      ensures sent == -1 || 0 < sent <= |Flat(buffers)|
      ensures outgoing == old(outgoing) + if sent > 0 then Flat(buffers)[..sent] else []
    {
      sent := *;
      if !(0 < sent <= |Flat(buffers)|) {
        sent := -1;
      }
      if sent > 0 {
        outgoing := outgoing + Flat(buffers)[..sent];
      }
    }

    /** `Receive`: some of what is to arrive; nothing or failure once the peer is gone. */
    method Receive(length: nat) returns (bytes: int, data: seq<byte>)
      requires length > 0
      modifies this`incoming
      ensures incoming == [] || bytes > 0
      ensures bytes > 0 ==> bytes == |data| <= length && old(incoming) == data + incoming
      ensures bytes <= 0 ==> old(incoming) == incoming == []
    {
      if incoming == [] {
        bytes :| bytes == 0 || bytes == -1;
        return bytes, [];
      }
      bytes := *;
      if !(0 < bytes <= length && bytes <= |incoming|) {
        bytes := 1;
      }
      data := incoming[..bytes];
      incoming := incoming[bytes..];
    }

    /** `ReceiveAll`: as many of `length` bytes as will ever arrive; none of them is failure. */
    method ReceiveAll(length: nat) returns (total: int, data: seq<byte>)
      modifies this`incoming
      ensures total == if length > 0 && old(incoming) == [] then -1 else |data|
      ensures |data| == if length <= |old(incoming)| then length else |old(incoming)|
      ensures old(incoming) == data + incoming
    {
      data := [];
      while |data| < length
        invariant |data| <= length && old(incoming) == data + incoming
        decreases length - |data|
      {
        var bytes, more := Receive(length - |data|);
        if bytes <= 0 {
          if |data| == 0 {
            return -1, data;
          }
          return |data|, data;
        }
        data := data + more;
      }
      total := |data|;
    }
  }

  /** Nothing is left, or the last buffer has bytes to send. */
  predicate EndsInBytes(buffers: seq<seq<byte>>) {
    buffers == [] || buffers[|buffers| - 1] != []
  }

  /**
   * Drops `sent` bytes from the front of the buffers: whole ones go, one may be shortened. An empty buffer
   * at the end never goes.
   */
  method SkipSent(buffersIn: seq<seq<byte>>, sentIn: nat) returns (buffers: seq<seq<byte>>)
    requires sentIn <= |Flat(buffersIn)|
    ensures Flat(buffers) == Flat(buffersIn)[sentIn..]
    ensures EndsInBytes(buffers) <==> EndsInBytes(buffersIn)
    ensures |buffers| <= |buffersIn|
  {
    buffers := buffersIn;
    var sent := sentIn;
    while sent > 0
      invariant 0 <= sent <= |Flat(buffers)| && Flat(buffers)[sent..] == Flat(buffersIn)[sentIn..]
      invariant EndsInBytes(buffers) <==> EndsInBytes(buffersIn)
      invariant |buffers| <= |buffersIn|
      decreases |buffers|
    {
      if |buffers[0]| > sent {
        var rest := buffers[0][sent..];
        assert ([rest] + buffers[1..])[1..] == buffers[1..];
        assert Flat(buffers)[sent..] == rest + Flat(buffers[1..]);
        buffers := [rest] + buffers[1..];
        break;
      }
      assert Flat(buffers)[sent..] == Flat(buffers[1..])[sent - |buffers[0]|..];
      sent := sent - |buffers[0]|;
      buffers := buffers[1..];
    }
  }

  /** `TcpSocket::Send(vector)`: everything, in order, over as many sends as it takes. */
  method SendAll(socket: TcpSocket, buffersIn: seq<seq<byte>>) returns (ok: bool)
    requires EndsInBytes(buffersIn)
    modifies socket`outgoing
    ensures ok ==> socket.outgoing == old(socket.outgoing) + Flat(buffersIn)
    ensures old(socket.outgoing) <= socket.outgoing <= old(socket.outgoing) + Flat(buffersIn)
  {
    hide Flat;
    var buffers := buffersIn;
    ghost var all := Flat(buffersIn);
    while buffers != []
      invariant EndsInBytes(buffers)
      invariant |Flat(buffers)| <= |all| && Flat(buffers) == all[|all| - |Flat(buffers)|..]
      invariant socket.outgoing == old(socket.outgoing) + all[..|all| - |Flat(buffers)|]
      decreases |Flat(buffers)|
    {
      SomethingLeft(buffers);
      var sent := socket.SendBuffers(buffers);
      if sent == -1 {
        return false;
      }
      ghost var was := Flat(buffers);
      buffers := SkipSent(buffers, sent);
      assert all[|all| - |was|..][sent..] == all[|all| - |was| + sent..];
      assert all[..|all| - |was|] + was[..sent] == all[..|all| - |was| + sent];
    }
    NothingLeft();
    assert all[..|all|] == all;
    ok := true;
  }

  lemma NothingLeft()
    ensures Flat([]) == []
  {
  }

  lemma {:induction false} SomethingLeft(buffers: seq<seq<byte>>)
    requires buffers != [] && EndsInBytes(buffers)
    ensures Flat(buffers) != []
  {
    if |buffers| > 1 {
      SomethingLeft(buffers[1..]);
    }
  }

  // ---- the two ends ----

  /** Writes one message: its length and its bytes. */
  method WriteMessage(socket: TcpSocket, data: seq<byte>) returns (ok: bool)
    requires 0 < |data| < U64
    modifies socket`outgoing
    ensures ok ==> socket.outgoing == old(socket.outgoing) + Frame(data)
  {
    var header := EncodeMessageLength(|data|);
    TwoBuffers(header, data);
    ok := SendAll(socket, [header, data]);
  }

  lemma TwoBuffers(a: seq<byte>, b: seq<byte>)
    ensures Flat([a, b]) == a + b
  {
    assert [a, b][1..] == [b] && [b][1..] == [];
    assert Flat([b]) == b + Flat([]);
  }

  /** The rest of a message already begun, whole messages, and whatever follows them. */
  ghost predicate Holds(incoming: seq<byte>, left: nat, cur: seq<byte>, ds: seq<seq<byte>>, rest: seq<byte>) {
    left == |cur| && Messages(ds) && incoming == cur + Frames(ds) + rest
  }

  datatype Header = Length(n: nat, after: seq<byte>) | Closed

  /** The next message length in a stream; lengths of zero are passed over. */
  function NextHeader(incoming: seq<byte>): Header
    decreases |incoming|
  {
    if |incoming| < LENGTH_SIZE then Closed
    else
      var n := FromBigEndian(incoming[..LENGTH_SIZE]);
      if n == 0 then NextHeader(incoming[LENGTH_SIZE..]) else Length(n, incoming[LENGTH_SIZE..])
  }

  lemma NextMessage(incoming: seq<byte>, ds: seq<seq<byte>>, rest: seq<byte>)
    requires Holds(incoming, 0, [], ds, rest) && ds != []
    ensures var h := NextHeader(incoming);
      h.Length? && h.n == |ds[0]| && Holds(h.after, |ds[0]|, ds[0], ds[1..], rest)
    ensures Flat(ds) == ds[0] + Flat(ds[1..])
  {
    hide FromBigEndian, BigEndian, Pow256;
    var h := BigEndian(|ds[0]|, LENGTH_SIZE);
    var r := ds[0] + Frames(ds[1..]) + rest;
    assert incoming == h + r;
    assert incoming[..LENGTH_SIZE] == h && incoming[LENGTH_SIZE..] == r;
    BigEndianRoundTrip(|ds[0]|, LENGTH_SIZE);
    EightBytes();
  }

  /** `NullSocket` stands for the process reading from a socket that is gone. */
  datatype ReadResult = Read(data: seq<byte>) | Eof | ReadFailed | NullSocket

  /** The device's end of a connection that was handed to it; a closed one is not opened again. */
  class ClientTcpTransport {
    const socket: TcpSocket
    var open: bool
    var messageBytesLeft: nat
    var downloading: bool

    constructor (socket: TcpSocket)
      ensures this.socket == socket && open && messageBytesLeft == 0 && !downloading
    {
      this.socket, open, messageBytesLeft, downloading := socket, true, 0, false;
    }

    /** Reads message lengths until one is not zero; a connection that ends first is closed. */
    method NextLength() returns (r: ReadResult)
      requires messageBytesLeft == 0
      modifies this`open, this`messageBytesLeft, socket`incoming
      ensures !old(open) ==> r == Eof && !open && messageBytesLeft == 0
      ensures old(open) ==>
        match NextHeader(old(socket.incoming))
        case Length(n, after) => r.Read? && open && messageBytesLeft == n > 0 && socket.incoming == after
        case Closed => r == (if downloading then ReadFailed else Eof) && !open && messageBytesLeft == 0
    {
      hide FromBigEndian;
      while messageBytesLeft == 0
        invariant 0 <= messageBytesLeft && (open ==> old(open))
        invariant !open && old(open) ==> !downloading && NextHeader(old(socket.incoming)).Closed?
        invariant !open ==> messageBytesLeft == 0
        invariant open && messageBytesLeft == 0 ==> NextHeader(socket.incoming) == NextHeader(old(socket.incoming))
        invariant messageBytesLeft > 0 ==> NextHeader(old(socket.incoming)) == Length(messageBytesLeft, socket.incoming)
        decreases if open then 1 + |socket.incoming| else 0, if messageBytesLeft == 0 then 1 else 0
      {
        if !open {
          return Eof;
        }
        ghost var was := socket.incoming;
        var total, buffer := socket.ReceiveAll(LENGTH_SIZE);
        if total == LENGTH_SIZE {
          assert was[..LENGTH_SIZE] == buffer && was[LENGTH_SIZE..] == socket.incoming;
          messageBytesLeft := ExtractMessageLength(buffer);
        } else {
          open := false;
          if downloading {
            return ReadFailed;
          }
        }
      }
      r := ReadResult.Read([]);
    }

    /** One turn of `Read`: a message length if none is pending, then bytes of that message. */
    method ReadSome(want: nat, ghost cur: seq<byte>, ghost ds: seq<seq<byte>>, ghost rest: seq<byte>)
      returns (r: ReadResult, ghost cur1: seq<byte>, ghost ds1: seq<seq<byte>>)
      modifies this`open, this`messageBytesLeft, socket`incoming
      ensures r == NullSocket <==> !old(open) && old(messageBytesLeft) > 0
      ensures !old(open) && old(messageBytesLeft) == 0 ==> r == Eof
      ensures old(open) && BrokenOff(old(socket.incoming), old(messageBytesLeft)) && want > 0 ==>
        r == ReadFailed && !open && messageBytesLeft == old(messageBytesLeft)
      ensures r.Read? ==> open && |r.data| <= want && (want > 0 ==> r.data != [])
      ensures old(open) && Holds(old(socket.incoming), old(messageBytesLeft), cur, ds, rest) && cur + Flat(ds) != [] ==>
        (r == ReadResult.Read(Current(cur, ds)[..Min(want, |Current(cur, ds)|)])
        && open && r.data + (cur1 + Flat(ds1)) == cur + Flat(ds)
        && Holds(socket.incoming, messageBytesLeft, cur1, ds1, rest))
    {
      hide FromBigEndian, NextHeader, Flat, Frames, Messages, Holds;
      ghost var good := open && Holds(socket.incoming, messageBytesLeft, cur, ds, rest) && cur + Flat(ds) != [];
      cur1, ds1 := cur, ds;
      if good {
        LeftIs(socket.incoming, messageBytesLeft, cur, ds, rest);
      }
      if messageBytesLeft == 0 {
        if good {
          MoreToCome(cur, ds);
          NextMessage(socket.incoming, ds, rest);
        }
        r := NextLength();
        if !r.Read? {
          return;
        }
        if good {
          cur1, ds1 := ds[0], ds[1..];
        }
      }
      if !open {
        return NullSocket, cur1, ds1;
      }
      var readLength := Min(want, messageBytesLeft);
      ghost var was := socket.incoming;
      var bytesRead, data := socket.ReceiveAll(readLength);
      if bytesRead == -1 {
        if good {
          Consumed(was, socket.incoming, cur1, ds1, rest, readLength, data);
        }
        open := false;
        return ReadFailed, cur1, ds1;
      }
      messageBytesLeft := messageBytesLeft - bytesRead;
      if good {
        Consumed(was, socket.incoming, cur1, ds1, rest, readLength, data);
        cur1 := cur1[readLength..];
      }
      r := ReadResult.Read(data);
    }

    /**
     * `Read`: what is left of one message, or in the DATA phase as many messages as it takes. Whatever the
     * stream still holds as `cur`, `ds` and `rest`, a read gets the next payload bytes in order and leaves
     * the remaining ones there; in the DATA phase it gets exactly `len` of them if that many are to come,
     * and stands between messages if they end there. A message that breaks off is a failure, and leaves
     * a state in which the next read uses a socket that is gone.
     */
    method Read(len: nat, ghost cur: seq<byte>, ghost ds: seq<seq<byte>>, ghost rest: seq<byte>)
      returns (r: ReadResult, ghost cur1: seq<byte>, ghost ds1: seq<seq<byte>>)
      modifies this`open, this`messageBytesLeft, socket`incoming
      ensures r == NullSocket <==> !old(open) && old(messageBytesLeft) > 0
      ensures old(open) && BrokenOff(old(socket.incoming), old(messageBytesLeft)) && len > 0 ==>
        r == ReadFailed && !open && messageBytesLeft == old(messageBytesLeft)
      ensures r.Read? ==> |r.data| <= len && (downloading ==> |r.data| == len)
      ensures !old(open) ==> !r.Read?
      ensures var all := cur + Flat(ds);
        old(open) && all != [] && (downloading ==> 0 < len <= |all|) &&
        Holds(old(socket.incoming), old(messageBytesLeft), cur, ds, rest) ==>
        (open && r.Read? && r.data + (cur1 + Flat(ds1)) == all
        && (!downloading ==> r.data == Current(cur, ds)[..Min(len, |Current(cur, ds)|)])
        && Holds(socket.incoming, messageBytesLeft, cur1, ds1, rest)
        && (downloading && len == |all| ==> messageBytesLeft == 0 && ds1 == [] && socket.incoming == rest))
    {
      hide Flat, Frames, Messages, Holds, Current;
      ghost var all := cur + Flat(ds);
      ghost var good := open && all != [] && (downloading ==> 0 < len <= |all|) &&
        Holds(socket.incoming, messageBytesLeft, cur, ds, rest);
      r, cur1, ds1 := ReadSome(len, cur, ds, rest);
      if !r.Read? {
        return;
      }
      var data := r.data;
      ghost var first := data;
      while downloading && |data| < len
        invariant open && |data| <= len && (!downloading ==> data == first)
        invariant good ==> Holds(socket.incoming, messageBytesLeft, cur1, ds1, rest) && data + (cur1 + Flat(ds1)) == all
        decreases len - |data|
      {
        r, cur1, ds1 := ReadSome(len - |data|, cur1, ds1, rest);
        if !r.Read? {
          return;
        }
        data := data + r.data;
      }
      if good && downloading && len == |all| {
        NothingToCome(all, data, cur1, ds1, socket.incoming, messageBytesLeft, rest);
      }
      r := ReadResult.Read(data);
    }

    /** `Write`: one message; an answer that announces data starts the DATA phase. */
    method Write(data: seq<byte>) returns (ok: bool)
      requires 0 < |data| < U64
      modifies this`open, this`downloading, socket`outgoing
      ensures ok ==> old(open) && open && socket.outgoing == old(socket.outgoing) + Frame(data)
      ensures ok ==> (downloading <==> DATA_RESPONSE <= data)
      ensures !ok ==> !open
    {
      if !open {
        return false;
      }
      ok := WriteMessage(socket, data);
      if !ok {
        open := false;
        return;
      }
      downloading := DATA_RESPONSE <= data;
    }
  }

  /** Bytes of a message are still due, and none will come. */
  predicate BrokenOff(incoming: seq<byte>, left: nat) {
    left > 0 && incoming == []
  }

  /** After a message has broken off, the first read fails and the second one uses a socket that is gone. */
  method ReadAfterBreak(device: ClientTcpTransport, len: nat) returns (first: ReadResult, second: ReadResult)
    requires device.open && BrokenOff(device.socket.incoming, device.messageBytesLeft) && len > 0
    modifies device`open, device`messageBytesLeft, device.socket`incoming
    ensures first == ReadFailed && second == NullSocket
  {
    ghost var cur, ds;
    first, cur, ds := device.Read(len, [], [], []);
    second, cur, ds := device.Read(len, [], [], []);
  }

  /** The characters `DATA`. */
  const DATA_RESPONSE: seq<byte> := [0x44, 0x41, 0x54, 0x41]

  /** The message that the next read takes bytes from. */
  ghost function Current(cur: seq<byte>, ds: seq<seq<byte>>): seq<byte> {
    if cur == [] && ds != [] then ds[0] else cur
  }

  lemma LeftIs(incoming: seq<byte>, left: nat, cur: seq<byte>, ds: seq<seq<byte>>, rest: seq<byte>)
    requires Holds(incoming, left, cur, ds, rest)
    ensures left == |cur|
  {
  }

  lemma MoreToCome(cur: seq<byte>, ds: seq<seq<byte>>)
    requires cur == [] && cur + Flat(ds) != []
    ensures ds != [] && cur + Flat(ds) == ds[0] + Flat(ds[1..])
  {
  }

  lemma NothingToCome(all: seq<byte>, data: seq<byte>, cur: seq<byte>, ds: seq<seq<byte>>,
                      incoming: seq<byte>, left: nat, rest: seq<byte>)
    requires data + (cur + Flat(ds)) == all && |data| == |all| && Holds(incoming, left, cur, ds, rest)
    ensures left == 0 && ds == [] && incoming == rest
  {
    FlatSize(ds);
  }

  lemma {:induction false} FlatSize(ds: seq<seq<byte>>)
    requires Messages(ds)
    ensures |Flat(ds)| >= |ds|
  {
    if ds != [] {
      FlatSize(ds[1..]);
    }
  }

  /** Reading part of the current message leaves the rest of it in the stream. */
  lemma Consumed(was: seq<byte>, incoming: seq<byte>, cur: seq<byte>, ds: seq<seq<byte>>, rest: seq<byte>, n: nat, more: seq<byte>)
    requires Holds(was, |cur|, cur, ds, rest) && n <= |cur|
    requires was == more + incoming && |more| == if n <= |was| then n else |was|
    ensures more == cur[..n] && |more| == n && cur == more + cur[n..]
    ensures Holds(incoming, |cur| - n, cur[n..], ds, rest)
    ensures more + (cur[n..] + Flat(ds)) == cur + Flat(ds)
  {
    hide Flat, Frames;
    assert was == cur + (Frames(ds) + rest);
    assert incoming == was[n..];
  }

  // ---- the host's end ----

  class TcpTransport {
    const socket: TcpSocket
    var open: bool
    var messageBytesLeft: nat

    constructor (socket: TcpSocket)
      ensures this.socket == socket && open && messageBytesLeft == 0
    {
      this.socket, open, messageBytesLeft := socket, true, 0;
    }

    method Write(data: seq<byte>) returns (ok: bool)
      requires 0 < |data| < U64
      modifies this`open, socket`outgoing
      ensures ok ==> old(open) && open && socket.outgoing == old(socket.outgoing) + Frame(data)
      ensures !ok ==> !open
    {
      if !open {
        return false;
      }
      ok := WriteMessage(socket, data);
      if !ok {
        open := false;
      }
    }

    /** `Read`: bytes of one message, the pending one or the next. */
    method Read(length: nat, ghost cur: seq<byte>, ghost ds: seq<seq<byte>>, ghost rest: seq<byte>)
      returns (r: ReadResult, ghost cur1: seq<byte>, ghost ds1: seq<seq<byte>>)
      modifies this`open, this`messageBytesLeft, socket`incoming
      ensures r.Read? ==> old(open) && open && |r.data| <= length
      ensures old(open) && Holds(old(socket.incoming), old(messageBytesLeft), cur, ds, rest) && cur + Flat(ds) != [] ==>
        (r == ReadResult.Read(Current(cur, ds)[..Min(length, |Current(cur, ds)|)])
        && r.data + (cur1 + Flat(ds1)) == cur + Flat(ds)
        && Holds(socket.incoming, messageBytesLeft, cur1, ds1, rest))
    {
      hide FromBigEndian, Flat, Frames, Messages, Holds;
      cur1, ds1 := cur, ds;
      if !open {
        return ReadFailed, cur, ds;
      }
      ghost var good := Holds(socket.incoming, messageBytesLeft, cur, ds, rest) && cur + Flat(ds) != [];
      if good {
        LeftIs(socket.incoming, messageBytesLeft, cur, ds, rest);
      }
      if messageBytesLeft == 0 {
        ghost var before := socket.incoming;
        if good {
          MoreToCome(cur, ds);
          NextMessage(socket.incoming, ds, rest);
          MessageStarts(socket.incoming, ds, rest);
        }
        var total, buffer := socket.ReceiveAll(LENGTH_SIZE);
        if total != LENGTH_SIZE {
          open := false;
          return ReadFailed, cur, ds;
        }
        assert before[..LENGTH_SIZE] == buffer && before[LENGTH_SIZE..] == socket.incoming;
        messageBytesLeft := ExtractMessageLength(buffer);
        if good {
          cur1, ds1 := ds[0], ds[1..];
        }
      }
      var want := Min(length, messageBytesLeft);
      ghost var was := socket.incoming;
      var bytesRead, data := socket.ReceiveAll(want);
      if bytesRead == -1 {
        if good {
          Consumed(was, socket.incoming, cur1, ds1, rest, want, data);
        }
        open := false;
        return ReadFailed, cur1, ds1;
      }
      messageBytesLeft := messageBytesLeft - bytesRead;
      if good {
        Consumed(was, socket.incoming, cur1, ds1, rest, want, data);
        cur1 := cur1[want..];
      }
      r := ReadResult.Read(data);
    }
  }

  lemma MessageStarts(incoming: seq<byte>, ds: seq<seq<byte>>, rest: seq<byte>)
    requires Holds(incoming, 0, [], ds, rest) && ds != []
    ensures |incoming| >= LENGTH_SIZE && FromBigEndian(incoming[..LENGTH_SIZE]) == |ds[0]| > 0
    ensures NextHeader(incoming) == Length(|ds[0]|, incoming[LENGTH_SIZE..])
  {
    hide FromBigEndian, BigEndian, Pow256;
    NextMessage(incoming, ds, rest);
    var h := BigEndian(|ds[0]|, LENGTH_SIZE);
    assert incoming == h + (ds[0] + Frames(ds[1..]) + rest);
    assert incoming[..LENGTH_SIZE] == h;
    BigEndianRoundTrip(|ds[0]|, LENGTH_SIZE);
    EightBytes();
  }

  // ---- a download over the wire ----

  /** The host writes `ds` one by one; all of it goes out, each framed, or the connection is given up. */
  method WriteAll(host: TcpTransport, ds: seq<seq<byte>>) returns (ok: bool)
    requires Messages(ds)
    modifies host`open, host.socket`outgoing
    ensures ok ==> host.socket.outgoing == old(host.socket.outgoing) + Frames(ds)
  {
    hide Frames, Frame;
    NothingFramed();
    assert ds[..0] == [];
    for i := 0 to |ds|
      invariant host.socket.outgoing == old(host.socket.outgoing) + Frames(ds[..i])
    {
      assert ds[..i + 1] == ds[..i] + [ds[i]];
      FramesSnoc(ds[..i], ds[i]);
      ok := host.Write(ds[i]);
      if !ok {
        return;
      }
    }
    assert ds[..|ds|] == ds;
    ok := true;
  }

  lemma NothingFramed()
    ensures Frames([]) == []
  {
  }

  /**
   * Framing is invisible to the payload: whatever non-empty writes the host cuts `n` bytes into, and
   * however the stream is split on the way, a DATA-phase read of `n` bytes returns them in order, uses up
   * exactly the messages, and leaves no message open.
   */
  method Transfer(host: TcpTransport, device: ClientTcpTransport, ds: seq<seq<byte>>)
    returns (sent: bool, r: ReadResult)
    requires Messages(ds) && ds != [] && host.socket.outgoing == []
    requires device.open && device.downloading && device.messageBytesLeft == 0
    requires device.socket != host.socket && device.socket.incoming == []
    modifies host`open, host.socket`outgoing, device`open, device`messageBytesLeft, device.socket`incoming
    ensures sent ==> r == ReadResult.Read(Flat(ds))
    ensures sent ==> device.open && device.messageBytesLeft == 0 && device.socket.incoming == []
  {
    hide Frames, Frame, Flat, Messages, Holds;
    sent := WriteAll(host, ds);
    r := Eof;
    if sent {
      device.socket.incoming := host.socket.outgoing;
      ghost var cur1, ds1;
      FramedHolds(ds);
      r, cur1, ds1 := device.Read(|Flat(ds)|, [], ds, []);
    }
  }

  lemma FramedHolds(ds: seq<seq<byte>>)
    requires Messages(ds) && ds != []
    ensures Holds([] + Frames(ds), 0, [], ds, []) && Flat(ds) != [] && [] + Flat(ds) == Flat(ds)
  {
    assert [] + Frames(ds) == [] + Frames(ds) + [];
    assert Flat(ds) == ds[0] + Flat(ds[1..]);
  }
}
