/** The host's stop-and-wait sender over UDP, against a socket that loses, repeats and delays packets. */
module Udp {
  import opened Wire
  import opened Arith

  const MIN_PACKET_SIZE: nat := 512
  const HEADER_SIZE: nat := 4
  const HOST_MAX_PACKET_SIZE: nat := 8192
  const PROTOCOL_VERSION: nat := 1
  const MAX_CONNECT_ATTEMPTS: nat := 4
  const MAX_TRANSMISSION_ATTEMPTS: nat := 120

  const ID_ERROR: byte := 0
  const ID_DEVICE_QUERY: byte := 1
  const ID_INITIALIZATION: byte := 2
  const ID_FASTBOOT: byte := 3
  const FLAG_NONE: byte := 0
  const FLAG_CONTINUATION: byte := 1

  type Packet = seq<byte>

  function ExtractUint16(b: seq<byte>): u16
    requires |b| >= 2
  {
    var hi: int, lo: int := b[0], b[1];
    256 * hi + lo
  }

  /** `Header::Set`: only the low sixteen bits of the sequence number are kept. */
  function HeaderBytes(id: byte, sequence: nat, flag: byte): (h: seq<byte>)
    ensures |h| == HEADER_SIZE && h[0] == id && h[1] == flag && SequenceOf(h) == sequence % U16
  {
    [id, flag, sequence % U16 / 256, sequence % U16 % 256]
  }

  function SequenceOf(p: Packet): u16
    requires |p| >= HEADER_SIZE
  {
    ExtractUint16(p[2..4])
  }

  function DataOf(p: Packet): (d: seq<byte>)
    requires |p| >= HEADER_SIZE
    ensures |d| == |p| - HEADER_SIZE
  {
    p[HEADER_SIZE..]
  }

  /** The same sequence number, and the same id or an error. */
  predicate Matches(header: Packet, response: Packet)
    requires |header| >= HEADER_SIZE && |response| >= HEADER_SIZE
  {
    header[2] == response[2] && header[3] == response[3] && (header[0] == response[0] || response[0] == ID_ERROR)
  }

  lemma MatchesMeans(header: Packet, response: Packet)
    requires |header| >= HEADER_SIZE && |response| >= HEADER_SIZE
    ensures Matches(header, response) <==>
      SequenceOf(header) == SequenceOf(response) && response[0] in {header[0], ID_ERROR}
  {
  }

  // ---- what went over the wire ----

  datatype Event = Tx(packet: Packet) | Rx(packet: Packet) | Quiet

  /**
   * What a run of events comes to: replies taken, the packet in flight and how often it was sent, and
   * every packet sent so far, once.
   */
  datatype State = State(accepted: nat, packet: Packet, sends: nat, listening: bool,
                         packets: seq<Packet>, replies: seq<byte>, lastReply: Packet)

  const START: State := State(0, [], 0, false, [], [], [])

  predicate Takes(s: State, q: Packet) {
    s.listening && |s.packet| >= HEADER_SIZE && |q| >= HEADER_SIZE && Matches(s.packet, q)
  }

  function After(s: State, e: Event): State {
    match e
    case Tx(p) =>
      State(s.accepted, p, s.sends + 1, true,
            if s.sends == 0 then s.packets + [p] else s.packets, s.replies, s.lastReply)
    case Rx(q) =>
      if Takes(s, q) then
        State(s.accepted + 1, s.packet, 0, false, s.packets,
              if q[0] == ID_ERROR then s.replies else s.replies + DataOf(q), q)
      else s
    case Quiet => s.(listening := false)
  }

  function Run(t: seq<Event>): State {
    if t == [] then START else After(Run(t[..|t| - 1]), t[|t| - 1])
  }

  /** The data of a row of packets, end to end. */
  function AllData(ps: seq<Packet>): seq<byte> {
    if ps == [] then []
    else AllData(ps[..|ps| - 1]) + if |ps[|ps| - 1]| >= HEADER_SIZE then DataOf(ps[|ps| - 1]) else []
  }

  lemma {:induction false} AllDataAppend(a: seq<Packet>, b: seq<Packet>)
    ensures AllData(a + b) == AllData(a) + AllData(b)
    decreases |b|
  {
    hide DataOf;
    if b == [] {
      assert a + b == a;
    } else {
      assert (a + b)[..|a + b| - 1] == a + b[..|b| - 1];
      AllDataAppend(a, b[..|b| - 1]);
    }
  }

  /** An empty packet that asks for more of a reply. */
  predicate Prompt(p: Packet) {
    |p| == HEADER_SIZE && p[1] == FLAG_NONE
  }

  /** One packet, and as many prompts behind it as its reply needs. */
  predicate Exchange(group: seq<Packet>, first: Packet) {
    group != [] && group[0] == first && forall k :: 1 <= k < |group| ==> Prompt(group[k])
  }

  lemma {:induction false} ExchangeData(group: seq<Packet>, first: Packet)
    requires Exchange(group, first) && |first| >= HEADER_SIZE
    ensures AllData(group) == DataOf(first)
    decreases |group|
  {
    if |group| > 1 {
      ExchangeData(group[..|group| - 1], first);
    } else {
      assert AllData([]) == [];
    }
  }

  /** What a stop-and-wait sender may do next, with `s0` as its sequence number at the start. */
  predicate Legal(s0: nat, attempts: nat, s: State, e: Event) {
    match e
    case Tx(p) =>
      && !s.listening && |p| >= HEADER_SIZE
      && SequenceOf(p) == (s0 + s.accepted) % U16
      && s.sends < attempts && (s.sends > 0 ==> p == s.packet)
    case Rx(_) => s.listening
    case Quiet => s.listening
  }

  predicate Proper(s0: nat, attempts: nat, t: seq<Event>) {
    t == [] || (Proper(s0, attempts, t[..|t| - 1]) && Legal(s0, attempts, Run(t[..|t| - 1]), t[|t| - 1]))
  }

  lemma RunSnoc(t: seq<Event>, e: Event)
    ensures Run(t + [e]) == After(Run(t), e)
  {
    assert (t + [e])[..|t|] == t;
  }

  lemma RunOfNothing(t: seq<Event>)
    ensures Run(t[..0]) == START
  {
  }

  lemma ProperSnoc(s0: nat, attempts: nat, t: seq<Event>, e: Event)
    requires Proper(s0, attempts, t) && Legal(s0, attempts, Run(t), e)
    ensures Proper(s0, attempts, t + [e])
  {
    assert (t + [e])[..|t|] == t;
  }

  // ---- what holds of every proper run ----

  lemma {:induction false} ProperPrefix(s0: nat, attempts: nat, t: seq<Event>, i: nat)
    requires Proper(s0, attempts, t) && i < |t|
    ensures Proper(s0, attempts, t[..i]) && Legal(s0, attempts, Run(t[..i]), t[i])
    ensures Run(t[..i + 1]) == After(Run(t[..i]), t[i])
    decreases |t|
  {
    if i == |t| - 1 {
      assert t[..i + 1] == t;
    } else {
      var p := t[..|t| - 1];
      ProperPrefix(s0, attempts, p, i);
      assert p[..i] == t[..i] && p[..i + 1] == t[..i + 1];
    }
  }

  /** Each send carries the starting number plus the replies taken so far, in sixteen bits. */
  lemma SendCarriesSequence(s0: nat, attempts: nat, t: seq<Event>, i: nat)
    requires Proper(s0, attempts, t) && i < |t| && t[i].Tx?
    ensures |t[i].packet| >= HEADER_SIZE && SequenceOf(t[i].packet) == (s0 + Run(t[..i]).accepted) % U16
  {
    hide Run, Proper, SequenceOf;
    ProperPrefix(s0, attempts, t, i);
  }

  /** The count of replies taken never goes down, and a reply taken later carries a later number. */
  lemma {:induction false} AcceptedGrows(s0: nat, attempts: nat, t: seq<Event>, i: nat, j: nat)
    requires Proper(s0, attempts, t) && i <= j <= |t|
    ensures Run(t[..i]).accepted <= Run(t[..j]).accepted
    decreases j
  {
    hide Run, Proper, SequenceOf, Matches, DataOf;
    if i < j {
      AcceptedGrows(s0, attempts, t, i, j - 1);
      ProperPrefix(s0, attempts, t, j - 1);
    }
  }

  /** While no reply is taken, the packet in flight stays what it was when it was first sent. */
  lemma {:induction false} PacketStays(s0: nat, attempts: nat, t: seq<Event>, i: nat, j: nat)
    requires Proper(s0, attempts, t) && i <= j <= |t|
    requires Run(t[..i]).sends > 0 && Run(t[..i]).accepted == Run(t[..j]).accepted
    ensures Run(t[..j]).packet == Run(t[..i]).packet && Run(t[..j]).sends >= Run(t[..i]).sends
    decreases j
  {
    hide Run, Proper, SequenceOf, Matches, DataOf;
    if i < j {
      ProperPrefix(s0, attempts, t, j - 1);
      AcceptedGrows(s0, attempts, t, i, j - 1);
      PacketStays(s0, attempts, t, i, j - 1);
    }
  }

  /** Two sends with no reply taken between them are the same packet. */
  lemma RetransmissionsAreIdentical(s0: nat, attempts: nat, t: seq<Event>, i: nat, j: nat)
    requires Proper(s0, attempts, t) && i < j < |t| && t[i].Tx? && t[j].Tx?
    requires Run(t[..i]).accepted == Run(t[..j]).accepted
    ensures t[i].packet == t[j].packet
  {
    ProperPrefix(s0, attempts, t, i);
    ProperPrefix(s0, attempts, t, j);
    PacketStays(s0, attempts, t, i + 1, j);
  }

  function CountSends(t: seq<Event>): nat {
    if t == [] then 0 else CountSends(t[..|t| - 1]) + if t[|t| - 1].Tx? then 1 else 0
  }

  /** No window without a taken reply holds more than `attempts` sends. */
  lemma {:induction false} SendsAreBounded(s0: nat, attempts: nat, t: seq<Event>, i: nat, j: nat)
    requires Proper(s0, attempts, t) && i <= j <= |t|
    requires Run(t[..i]).accepted == Run(t[..j]).accepted
    ensures CountSends(t[i..j]) <= Run(t[..j]).sends
    ensures Run(t[..j]).sends <= attempts
    decreases j
  {
    hide Run, Proper, SequenceOf, Matches, DataOf;
    SendsLimited(s0, attempts, t, j);
    if i < j {
      ProperPrefix(s0, attempts, t, j - 1);
      AcceptedGrows(s0, attempts, t, i, j - 1);
      SendsAreBounded(s0, attempts, t, i, j - 1);
      WindowSnoc(t, i, j);
    } else {
      assert t[i..j] == [];
    }
  }

  lemma WindowSnoc(t: seq<Event>, i: nat, j: nat)
    requires i < j <= |t|
    ensures CountSends(t[i..j]) == CountSends(t[i..j - 1]) + if t[j - 1].Tx? then 1 else 0
  {
    assert t[i..j][..|t[i..j]| - 1] == t[i..j - 1];
  }

  lemma {:induction false} SendsLimited(s0: nat, attempts: nat, t: seq<Event>, j: nat)
    requires Proper(s0, attempts, t) && j <= |t|
    ensures Run(t[..j]).sends <= attempts
    decreases j
  {
    hide Run, Proper, SequenceOf, Matches, DataOf;
    if j > 0 {
      ProperPrefix(s0, attempts, t, j - 1);
      SendsLimited(s0, attempts, t, j - 1);
    } else {
      RunOfNothing(t);
    }
  }

  /** A listening sender listens for the reply to its current number. */
  lemma {:induction false} ListensForCurrent(s0: nat, attempts: nat, t: seq<Event>, j: nat)
    requires Proper(s0, attempts, t) && j <= |t|
    ensures var s := Run(t[..j]);
      s.listening || s.sends > 0 ==>
        s.sends > 0 && |s.packet| >= HEADER_SIZE && SequenceOf(s.packet) == (s0 + s.accepted) % U16
    decreases j
  {
    hide Proper, SequenceOf, Matches, DataOf;
    if j > 0 {
      ProperPrefix(s0, attempts, t, j - 1);
      ListensForCurrent(s0, attempts, t, j - 1);
    }
  }

  /** Event `i` is a reply that the sender takes. */
  predicate TakenAt(t: seq<Event>, i: nat) {
    i < |t| && t[i].Rx? && Takes(Run(t[..i]), t[i].packet)
  }

  /** A taken reply carries the number of the exchange it ends. */
  lemma TakenCarriesSequence(s0: nat, attempts: nat, t: seq<Event>, i: nat)
    requires Proper(s0, attempts, t) && TakenAt(t, i)
    ensures SequenceOf(t[i].packet) == (s0 + Run(t[..i]).accepted) % U16
    ensures Run(t[..i + 1]).accepted == Run(t[..i]).accepted + 1
  {
    ProperPrefix(s0, attempts, t, i);
    ListensForCurrent(s0, attempts, t, i);
    MatchesMeans(Run(t[..i]).packet, t[i].packet);
  }

  /**
   * A packet that was taken once is never taken again as a stale or duplicate copy, unless a multiple of
   * 2^16 exchanges lies in between.
   */
  lemma DuplicatesAreIgnored(s0: nat, attempts: nat, t: seq<Event>, i: nat, j: nat)
    requires Proper(s0, attempts, t) && i < j && TakenAt(t, i) && TakenAt(t, j)
    requires t[i].packet == t[j].packet
    ensures Run(t[..j]).accepted - Run(t[..i]).accepted >= U16
  {
    hide Run, Proper, SequenceOf, Takes;
    TakenCarriesSequence(s0, attempts, t, i);
    TakenCarriesSequence(s0, attempts, t, j);
    AcceptedGrows(s0, attempts, t, i + 1, j);
    SameResidue(s0 + Run(t[..i]).accepted, s0 + Run(t[..j]).accepted);
  }

  lemma SameResidue(a: nat, b: nat)
    requires a < b && a % U16 == b % U16
    ensures b - a >= U16
  {
  }

  /** The host's version and packet size, as the initialization packet carries them. */
  const INIT_DATA: seq<byte> := [0, 1, 32, 0]

  /**
   * The handshake: the number to go on with is the one the target replied to the query, and the packet
   * size is the smaller of the two sides', from a target of at least the host's version.
   */
  ghost predicate Agreed(query: seq<Event>, init: seq<Event>, sequence: nat, maxDataLength: nat) {
    var q, i := Run(query), Run(init);
    && Proper(0, MAX_CONNECT_ATTEMPTS, query) && |q.replies| >= 2
    && Sends(q.packets, ID_DEVICE_QUERY, [], MIN_PACKET_SIZE - HEADER_SIZE)
    && var next := ExtractUint16(q.replies[0..2]);
    && Proper(next, MAX_TRANSMISSION_ATTEMPTS, init) && |i.replies| >= 4
    && Sends(i.packets, ID_INITIALIZATION, INIT_DATA, MIN_PACKET_SIZE - HEADER_SIZE)
    && sequence == next + i.accepted
    && ExtractUint16(i.replies[0..2]) >= PROTOCOL_VERSION
    && ExtractUint16(i.replies[2..4]) >= MIN_PACKET_SIZE
    && maxDataLength == Min(HOST_MAX_PACKET_SIZE, ExtractUint16(i.replies[2..4])) - HEADER_SIZE
  }

  // ---- the socket and the transport ----

  /** What a receive can come to. */
  datatype Incoming = Arrives(packet: Packet) | TimesOut | Breaks

  /**
   * A socket over a network that does what it likes: `script` is what the receives will come to, in
   * order, and nothing arrives once it is used up. `trace` records what went over the wire.
   */
  class Socket {
    var script: seq<Incoming>
    ghost var trace: seq<Event>

    constructor (script: seq<Incoming>)
      ensures this.script == script && trace == []
    {
      this.script := script;
      trace := [];
    }

    method Send(packet: Packet) returns (ok: bool)
      modifies this`trace
      ensures trace == old(trace) + if ok then [Tx(packet)] else []
    {
      ok :| ok || !ok;
      trace := trace + if ok then [Tx(packet)] else [];
    }

    /** One packet, cut to `size` bytes. */
    method Receive(size: nat) returns (r: Incoming)
      modifies this
      ensures |script| <= |old(script)| && (!r.TimesOut? ==> |script| < |old(script)|)
      ensures r.Arrives? ==> |r.packet| <= size
      ensures trace == old(trace) + match r case Arrives(p) => [Rx(p)] case TimesOut => [Quiet] case Breaks => []
    {
      r := TimesOut;
      if script != [] {
        r := script[0];
        script := script[1..];
      }
      match r {
        case Arrives(p) =>
          r := Arrives(p[..Min(|p|, size)]);
          trace := trace + [Rx(r.packet)];
        case TimesOut =>
          trace := trace + [Quiet];
        case Breaks =>
      }
    }
  }

  datatype Failure = SocketError | IncompleteHeader | NoResponse | TargetError

  datatype Reply = Received(total: nat) | Failed(failure: Failure)

  function Prefix(s: seq<byte>, n: nat): seq<byte> {
    s[..Min(|s|, n)]
  }

  lemma PrefixHead(s: seq<byte>, n: nat, a: nat, b: nat)
    requires a <= b <= n && b <= |s|
    ensures |Prefix(s, n)| >= b && Prefix(s, n)[a..b] == s[a..b]
  {
  }

  lemma PrefixAppend(a: seq<byte>, b: seq<byte>, n: nat)
    ensures Prefix(a, n) + Prefix(b, if |a| <= n then n - |a| else 0) == Prefix(a + b, n)
    ensures |Prefix(a, n)| <= |a|
  {
  }

  /** Between two packets: nothing in flight, and the number is what the replies taken make it. */
  ghost predicate Resting(s0: nat, attempts: nat, t: seq<Event>, sequence: nat) {
    && Proper(s0, attempts, t) && sequence == s0 + Run(t).accepted
    && Run(t).sends == 0 && !Run(t).listening
  }

  class UdpTransport {
    const socket: Socket
    var sequence: nat
    var maxDataLength: nat
    var rxPacketSize: nat

    constructor (socket: Socket)
      ensures this.socket == socket
    {
      this.socket := socket;
      sequence, maxDataLength, rxPacketSize := 0, MIN_PACKET_SIZE - HEADER_SIZE, MIN_PACKET_SIZE;
    }

    /**
     * One transmission: the packet, then receives until one matches, times out or fails. `t` is what has
     * gone over the wire in this call so far.
     */
    method Transmit(header: Packet, payload: seq<byte>, attempts: nat, ghost s0: nat, ghost t: seq<Event>)
      returns (r: Incoming, short: bool, ghost t1: seq<Event>)
      requires |header| == HEADER_SIZE && Proper(s0, attempts, t)
      requires Legal(s0, attempts, Run(t), Tx(header + payload))
      modifies socket
      ensures |socket.script| <= |old(socket.script)| && (r.Arrives? ==> |socket.script| < |old(socket.script)|)
      ensures t <= t1 && socket.trace == old(socket.trace) + t1[|t|..] && Proper(s0, attempts, t1)
      ensures !short && r.Arrives? ==> |r.packet| >= HEADER_SIZE && Matches(header, r.packet)
      ensures !short && !r.Breaks? ==>
        var sent := After(Run(t), Tx(header + payload));
        Run(t1) == After(sent, if r.Arrives? then Rx(r.packet) else Quiet) && (r.Arrives? ==> Takes(sent, r.packet))
      ensures Run(t1).accepted == Run(t).accepted + if !short && r.Arrives? then 1 else 0
    {
      hide Run, Proper, Legal, Matches, SequenceOf, DataOf;
      var sent := socket.Send(header + payload);
      t1, short := t, false;
      if !sent {
        return Breaks, false, t;
      }
      t1 := t1 + [Tx(header + payload)];
      RunSnoc(t, Tx(header + payload));
      ProperSnoc(s0, attempts, t, Tx(header + payload));
      ghost var waiting := Run(t1);
      var matched := false;
      r := TimesOut;
      while !matched
        invariant t <= t1 && socket.trace == old(socket.trace) + t1[|t|..] && Proper(s0, attempts, t1)
        invariant |socket.script| <= |old(socket.script)|
        invariant matched ==> |socket.script| < |old(socket.script)| && r.Arrives? && |r.packet| >= HEADER_SIZE && Matches(header, r.packet)
        invariant matched ==> Run(t1) == After(waiting, Rx(r.packet)) && Takes(waiting, r.packet)
        invariant !matched ==> Run(t1) == waiting
        decreases |socket.script|, if matched then 0 else 1
      {
        r := socket.Receive(rxPacketSize);
        if r.Breaks? {
          return;
        }
        ghost var e := if r.Arrives? then Rx(r.packet) else Quiet;
        RunSnoc(t1, e);
        ListeningMay(s0, attempts, waiting, e);
        ProperSnoc(s0, attempts, t1, e);
        t1 := t1 + [e];
        if r.TimesOut? {
          return;
        }
        if |r.packet| < HEADER_SIZE {
          short := true;
          return;
        }
        matched := Matches(header, r.packet);
        SameHeader(header, payload, r.packet);
      }
    }

    /**
     * `SendSinglePacketHelper`: one packet with retransmission, then empty packets as long as the replies
     * announce more. `got` is everything the target has replied in this call.
     */
    method SendSinglePacketHelper(id: byte, flag: byte, payload: seq<byte>, rxLength: nat, attempts: nat,
                                  ghost s0: nat, ghost t: seq<Event>)
      returns (r: Reply, rx: seq<byte>, ghost got: seq<byte>, ghost group: seq<Packet>, ghost t1: seq<Event>)
      requires Resting(s0, attempts, t, sequence)
      modifies this`sequence, socket
      ensures t <= t1 && socket.trace == old(socket.trace) + t1[|t|..]
      ensures Proper(s0, attempts, t1) && sequence == s0 + Run(t1).accepted
      ensures r.Received? ==> Resting(s0, attempts, t1, sequence) && Run(t1).packets == Run(t).packets + group
      ensures r.Received? ==> Exchange(group, HeaderBytes(id, old(sequence), flag) + payload)
      ensures r.Received? ==> Run(t1).replies == Run(t).replies + got && r.total == |got| && rx == Prefix(got, rxLength)
      ensures r == Failed(NoResponse) ==> Run(t1).sends == attempts && !Run(t1).listening
      ensures r == Failed(TargetError) ==> Run(t1).lastReply != [] && Run(t1).lastReply[0] == ID_ERROR
    {
      hide Run, Proper, SequenceOf, Matches, DataOf, HeaderBytes;
      var header := HeaderBytes(id, sequence, flag);
      var data := payload;
      var attemptsLeft := attempts;
      var total := 0;
      got, rx, group, t1 := [], [], [], t;
      ghost var first := header + data;
      NothingGot(Run(t).replies, rxLength);
      while attemptsLeft > 0
        invariant 0 <= attemptsLeft <= attempts && t <= t1 && socket.trace == old(socket.trace) + t1[|t|..]
        invariant Proper(s0, attempts, t1) && sequence == s0 + Run(t1).accepted && 0 <= sequence
        invariant !Run(t1).listening && Run(t1).sends == attempts - attemptsLeft
        invariant |header| == HEADER_SIZE && SequenceOf(header) == sequence % U16
        invariant Run(t1).sends > 0 ==> Run(t1).packet == header + data && group != []
        invariant Run(t1).packets == Run(t).packets + group && (group != [] ==> Exchange(group, first))
        invariant group != [] && Run(t1).sends == 0 ==> data == [] && header[1] == FLAG_NONE
        invariant group == [] ==> header + data == first
        invariant Run(t1).replies == Run(t).replies + got && total == |got| && rx == Prefix(got, rxLength)
        decreases |socket.script|, attemptsLeft
      {
        ghost var s := Run(t1);
        MaySend(s0, attempts, s, header, data, sequence);
        var reply, short;
        reply, short, t1 := Transmit(header, data, attempts, s0, t1);
        if short {
          return Failed(IncompleteHeader), rx, got, group, t1;
        }
        if reply.Breaks? {
          return Failed(SocketError), rx, got, group, t1;
        }
        SentOnce(s, header, data, reply);
        if s.sends == 0 {
          GroupGrows(group, first, header, data);
          group := group + [header + data];
        }
        if reply.TimesOut? {
          attemptsLeft := attemptsLeft - 1;
          continue;
        }
        sequence := sequence + 1;
        var q := reply.packet;
        ghost var before := got;
        if q[0] != ID_ERROR {
          total := total + (|q| - HEADER_SIZE);
          got := got + DataOf(q);
          rx := rx + Prefix(DataOf(q), rxLength - |rx|);
          PrefixSteps(before, DataOf(q), rxLength);
        }
        if q[1] % 2 == FLAG_CONTINUATION {
          attemptsLeft := attempts;
          header := HeaderBytes(q[0], sequence, FLAG_NONE);
          data := [];
          continue;
        }
        if q[0] == ID_ERROR {
          return Failed(TargetError), rx, got, group, t1;
        }
        return Received(total), rx, got, group, t1;
      }
      return Failed(NoResponse), rx, got, group, t1;
    }

    /** The packet size agreed on, or the smallest one before that. */
    ghost predicate Valid()
      reads this
    {
      rxPacketSize == maxDataLength + HEADER_SIZE && MIN_PACKET_SIZE <= rxPacketSize <= HOST_MAX_PACKET_SIZE
    }

    /**
     * `SendData`: at least one packet, all of them continued but the last. Whatever the network does, the
     * run over the wire is a proper one; when it succeeds, every chunk of the data was sent in its packet,
     * marked as continued unless it is the last, and the caller's buffer holds the beginning of what the
     * target replied.
     */
    method SendData(id: byte, txData: seq<byte>, rxLength: nat, attempts: nat)
      returns (r: Reply, rx: seq<byte>, ghost t: seq<Event>)
      requires Valid()
      modifies this`sequence, socket
      ensures socket.trace == old(socket.trace) + t && Proper(old(sequence), attempts, t)
      ensures sequence == old(sequence) + Run(t).accepted
      ensures r.Received? ==> Sends(Run(t).packets, id, txData, maxDataLength) && AllData(Run(t).packets) == txData
      ensures r.Received? ==> r.total == |Run(t).replies| && rx == Prefix(Run(t).replies, rxLength)
      ensures r.Received? ==> Resting(old(sequence), attempts, t, sequence)
      ensures r == Failed(NoResponse) ==> Run(t).sends == attempts && !Run(t).listening
    {
      hide Run, Proper, Prefix, AllData, Together, HeaderBytes, ChunkSent;
      ghost var s0 := sequence;
      var at, space, total := 0, rxLength, 0;
      var first := true;
      ghost var groups: seq<seq<Packet>> := [];
      rx, t := [], [];
      NothingYet(s0, attempts, rxLength);
      assert txData[..0] == [];
      while first || at < |txData|
        invariant 0 <= at <= |txData| && Resting(s0, attempts, t, sequence) && 0 <= space && 0 <= sequence
        invariant socket.trace == old(socket.trace) + t
        invariant Run(t).packets == Together(groups) && AllData(Run(t).packets) == txData[..at]
        invariant at == Min(|groups| * maxDataLength, |txData|) && (first <==> groups == [])
        invariant forall i :: 0 <= i < |groups| ==> ChunkSent(groups[i], id, txData, maxDataLength, i)
        invariant |groups| > 1 ==> (|groups| - 1) * maxDataLength < |txData|
        invariant total == |Run(t).replies| && rx == Prefix(Run(t).replies, rxLength)
        invariant space == if total < rxLength then rxLength - total else 0
        decreases |txData| - at, if first then 1 else 0
      {
        var n := Min(|txData| - at, maxDataLength);
        var flag := if |txData| - at > maxDataLength then FLAG_CONTINUATION else FLAG_NONE;
        ghost var got, group, t1;
        ghost var before, number := Run(t).replies, sequence;
        var part;
        NextChunk(|groups|, maxDataLength, |txData|, at, n);
        r, part, got, group, t1 := SendSinglePacketHelper(id, flag, txData[at..at + n], space, attempts, s0, t);
        if r.Failed? {
          t := t1;
          return;
        }
        GroupSent(group, id, number, flag, txData, maxDataLength, |groups|, at, n);
        AllDataAppend(Run(t).packets, group);
        TogetherSnoc(groups, group);
        t := t1;
        groups := groups + [group];
        assert txData[..at + n] == txData[..at] + txData[at..at + n];
        PrefixAppend(before, got, rxLength);
        rx := rx + part;
        space := if r.total < space then space - r.total else 0;
        at := at + n;
        total := total + r.total;
        first := false;
      }
      assert txData[..at] == txData;
      r := Received(total);
    }

    /**
     * `InitializeProtocol`: asks for the next expected number and agrees on a packet size between the
     * smallest one allowed and the host's own.
     */
    method InitializeProtocol() returns (ok: bool, ghost query: seq<Event>, ghost init: seq<Event>)
      modifies this, socket
      ensures ok ==> Valid() && Agreed(query, init, sequence, maxDataLength)
      ensures ok ==> socket.trace == old(socket.trace) + query + init
    {
      hide Run, Proper, AllData, Prefix, Sends, Resting, ExtractUint16;
      query, init := [], [];
      sequence := 0;
      rxPacketSize := MIN_PACKET_SIZE;
      maxDataLength := MIN_PACKET_SIZE - HEADER_SIZE;
      var r, rx;
      r, rx, query := SendData(ID_DEVICE_QUERY, [], 4, MAX_CONNECT_ATTEMPTS);
      if r.Failed? || r.total < 2 {
        return false, query, init;
      }
      PrefixHead(Run(query).replies, 4, 0, 2);
      sequence := ExtractUint16(rx[0..2]);
      r, rx, init := SendData(ID_INITIALIZATION, INIT_DATA, 4, MAX_TRANSMISSION_ATTEMPTS);
      if r.Failed? || r.total < 4 {
        return false, query, init;
      }
      PrefixHead(Run(init).replies, 4, 0, 2);
      PrefixHead(Run(init).replies, 4, 2, 4);
      var version := ExtractUint16(rx[0..2]);
      if version < PROTOCOL_VERSION {
        return false, query, init;
      }
      var packetSize := ExtractUint16(rx[2..4]);
      if packetSize < MIN_PACKET_SIZE {
        return false, query, init;
      }
      packetSize := Min(HOST_MAX_PACKET_SIZE, packetSize);
      maxDataLength := packetSize - HEADER_SIZE;
      rxPacketSize := packetSize;
      ok := true;
    }

    /** `Read`: an empty packet; more data than asked for is an error. */
    method Read(length: nat) returns (ok: bool, data: seq<byte>, ghost t: seq<Event>)
      requires Valid()
      modifies this`sequence, socket
      ensures socket.trace == old(socket.trace) + t && Proper(old(sequence), MAX_TRANSMISSION_ATTEMPTS, t)
      ensures ok ==> data == Run(t).replies && |data| <= length && Sends(Run(t).packets, ID_FASTBOOT, [], maxDataLength)
    {
      var r;
      r, data, t := SendData(ID_FASTBOOT, [], length, MAX_TRANSMISSION_ATTEMPTS);
      ok := r.Received? && r.total <= length;
    }

    /** `Write`: the data, and nothing but empty replies. */
    method Write(data: seq<byte>) returns (ok: bool, ghost t: seq<Event>)
      requires Valid()
      modifies this`sequence, socket
      ensures socket.trace == old(socket.trace) + t && Proper(old(sequence), MAX_TRANSMISSION_ATTEMPTS, t)
      ensures ok ==> Sends(Run(t).packets, ID_FASTBOOT, data, maxDataLength) && Run(t).replies == []
      ensures ok ==> AllData(Run(t).packets) == data
    {
      var r, rx;
      r, rx, t := SendData(ID_FASTBOOT, data, 0, MAX_TRANSMISSION_ATTEMPTS);
      ok := r.Received? && r.total == 0;
    }
  }

  function Together(groups: seq<seq<Packet>>): seq<Packet> {
    if groups == [] then [] else Together(groups[..|groups| - 1]) + groups[|groups| - 1]
  }

  lemma TogetherSnoc(groups: seq<seq<Packet>>, g: seq<Packet>)
    ensures Together(groups + [g]) == Together(groups) + g
  {
    assert (groups + [g])[..|groups|] == groups;
  }

  /** Chunk `i` of the data went out in a packet of its own, continued unless nothing follows. */
  predicate ChunkSent(group: seq<Packet>, id: byte, data: seq<byte>, max: nat, i: nat) {
    && i * max <= |data| && group != [] && Exchange(group, group[0]) && |group[0]| >= HEADER_SIZE
    && group[0][0] == id
    && group[0][1] == (if (i + 1) * max < |data| then FLAG_CONTINUATION else FLAG_NONE)
    && DataOf(group[0]) == data[i * max..Min((i + 1) * max, |data|)]
  }

  /** The data cut into as many chunks as it takes, and no more. */
  predicate Planned(groups: seq<seq<Packet>>, id: byte, data: seq<byte>, max: nat) {
    && groups != [] && |groups| * max >= |data| && (|groups| > 1 ==> (|groups| - 1) * max < |data|)
    && forall i :: 0 <= i < |groups| ==> ChunkSent(groups[i], id, data, max, i)
  }

  /** A row of packets that carries the data: its chunks in order, with prompts in between. */
  ghost predicate Sends(packets: seq<Packet>, id: byte, data: seq<byte>, max: nat) {
    exists groups :: packets == Together(groups) && Planned(groups, id, data, max)
  }

  lemma NextChunk(i: nat, max: nat, len: nat, at: nat, n: nat)
    requires max > 0 && at == Min(i * max, len) && n == Min(len - at, max) && (i > 0 ==> at < len)
    ensures at == i * max && at + n == Min((i + 1) * max, len)
    ensures len - at > max <==> (i + 1) * max < len
  {
    Distribute(i, 1, max);
  }

  lemma GroupSent(group: seq<Packet>, id: byte, number: nat, flag: byte, data: seq<byte>, max: nat, i: nat, at: nat, n: nat)
    requires at == i * max && at + n == Min((i + 1) * max, |data|) && at + n <= |data|
    requires flag == if (i + 1) * max < |data| then FLAG_CONTINUATION else FLAG_NONE
    requires Exchange(group, HeaderBytes(id, number, flag) + data[at..at + n])
    ensures ChunkSent(group, id, data, max, i) && AllData(group) == data[at..at + n]
  {
    hide AllData;
    var first := HeaderBytes(id, number, flag) + data[at..at + n];
    assert DataOf(first) == data[at..at + n];
    ExchangeData(group, first);
  }

  lemma NothingYet(s0: nat, attempts: nat, n: nat)
    ensures Resting(s0, attempts, [], s0) && Run([]) == START && Prefix([], n) == []
    ensures Together([]) == [] && AllData([]) == []
  {
  }

  lemma NothingGot(replies: seq<byte>, n: nat)
    ensures replies + [] == replies && Prefix([], n) == []
  {
  }

  lemma ListeningMay(s0: nat, attempts: nat, s: State, e: Event)
    requires s.listening && !e.Tx?
    ensures Legal(s0, attempts, s, e)
  {
  }

  lemma SameHeader(header: Packet, payload: seq<byte>, q: Packet)
    requires |header| == HEADER_SIZE && |q| >= HEADER_SIZE
    ensures Matches(header + payload, q) <==> Matches(header, q)
  {
  }

  lemma MaySend(s0: nat, attempts: nat, s: State, header: Packet, data: seq<byte>, sequence: nat)
    requires |header| == HEADER_SIZE && SequenceOf(header) == sequence % U16 && sequence == s0 + s.accepted
    requires !s.listening && s.sends < attempts && (s.sends > 0 ==> s.packet == header + data)
    ensures Legal(s0, attempts, s, Tx(header + data))
  {
    assert (header + data)[2..4] == header[2..4];
  }

  /** What one transmission and its outcome do to the state. */
  lemma SentOnce(s: State, header: Packet, data: seq<byte>, reply: Incoming)
    requires |header| == HEADER_SIZE && !reply.Breaks?
    requires reply.Arrives? ==> Takes(After(s, Tx(header + data)), reply.packet)
    ensures var s1 := After(After(s, Tx(header + data)), if reply.Arrives? then Rx(reply.packet) else Quiet);
      && !s1.listening && s1.packet == header + data
      && s1.packets == (if s.sends == 0 then s.packets + [header + data] else s.packets)
      && s1.sends == (if reply.Arrives? then 0 else s.sends + 1)
      && s1.accepted == s.accepted + (if reply.Arrives? then 1 else 0)
      && s1.replies == (if reply.Arrives? && reply.packet[0] != ID_ERROR then s.replies + DataOf(reply.packet) else s.replies)
      && (reply.Arrives? ==> s1.lastReply == reply.packet)
  {
  }

  lemma GroupGrows(group: seq<Packet>, first: Packet, header: Packet, data: seq<byte>)
    requires |header| == HEADER_SIZE && (group != [] ==> Exchange(group, first))
    requires if group == [] then header + data == first else data == [] && header[1] == FLAG_NONE
    ensures Exchange(group + [header + data], first)
  {
  }

  lemma PrefixSteps(a: seq<byte>, b: seq<byte>, n: nat)
    ensures |Prefix(a, n)| <= n
    ensures Prefix(a, n) + Prefix(b, n - |Prefix(a, n)|) == Prefix(a + b, n)
  {
  }
}
