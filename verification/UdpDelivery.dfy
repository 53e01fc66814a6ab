/** The UDP sender and a device that follows the protocol's rules, over a network that loses, repeats and delays. */
module UdpDelivery {
  import opened Wire
  import opened Udp

  /** A step of the host, or a packet of the host's reaching the device, with the answer if it is a new one. */
  datatype Step = Host(e: Event) | Deliver(p: Packet, answer: Packet)

  /** The host's state, and what the device has processed and answered. */
  datatype World = World(host: State, processed: seq<Packet>, answers: seq<Packet>)

  function Next(s0: nat, w: World, s: Step): World {
    match s
    case Host(e) =>
      w.(host := After(w.host, e))
    case Deliver(p, a) =>
      if |p| >= HEADER_SIZE && SequenceOf(p) == (s0 + |w.processed|) % U16
      then w.(processed := w.processed + [p], answers := w.answers + [a])
      else w
  }

  function WorldOf(s0: nat, steps: seq<Step>): World {
    if steps == [] then World(START, [], []) else Next(s0, WorldOf(s0, steps[..|steps| - 1]), steps[|steps| - 1])
  }

  /**
   * What may happen next. The host keeps to its rules, and what reaches it is some answer of the device's,
   * old or new. What reaches the device is some packet of the host's, old or new; if it is the one that is
   * expected, the answer carries its number and its id or an error.
   */
  predicate May(s0: nat, attempts: nat, w: World, s: Step) {
    match s
    case Host(e) => Legal(s0, attempts, w.host, e) && (e.Rx? ==> e.packet in w.answers)
    case Deliver(p, a) =>
      && p in w.host.packets && |p| >= HEADER_SIZE && |a| >= HEADER_SIZE
      && SequenceOf(a) == SequenceOf(p) && (a[0] == p[0] || a[0] == ID_ERROR)
  }

  predicate Possible(s0: nat, attempts: nat, steps: seq<Step>) {
    steps == [] ||
    (Possible(s0, attempts, steps[..|steps| - 1]) &&
     May(s0, attempts, WorldOf(s0, steps[..|steps| - 1]), steps[|steps| - 1]))
  }

  /** The data of the answers that are not errors. */
  function GoodData(ps: seq<Packet>): seq<byte> {
    if ps == [] then []
    else
      var p := ps[|ps| - 1];
      GoodData(ps[..|ps| - 1]) + if |p| >= HEADER_SIZE && p[0] != ID_ERROR then DataOf(p) else []
  }

  lemma DataSnoc(ps: seq<Packet>, p: Packet)
    requires |p| >= HEADER_SIZE
    ensures GoodData(ps + [p]) == GoodData(ps) + if p[0] != ID_ERROR then DataOf(p) else []
  {
    assert (ps + [p])[..|ps|] == ps;
  }

  /** The k-th of a row of packets carries the k-th number. */
  predicate Numbered(s0: nat, ps: seq<Packet>) {
    forall k :: 0 <= k < |ps| ==> |ps[k]| >= HEADER_SIZE && SequenceOf(ps[k]) == (s0 + k) % U16
  }

  /** The device is level with the host or one packet ahead of what the host knows. */
  ghost predicate InStep(s0: nat, w: World) {
    && |w.host.packets| == w.host.accepted + (if w.host.sends > 0 then 1 else 0)
    && Numbered(s0, w.host.packets) && Numbered(s0, w.answers)
    && (w.host.sends > 0 ==> w.host.packet == w.host.packets[|w.host.packets| - 1])
    && (w.host.listening ==> w.host.sends > 0)
    && w.host.accepted <= |w.processed| && w.processed <= w.host.packets && |w.answers| == |w.processed|
    && w.host.replies == GoodData(w.answers[..w.host.accepted])
  }

  lemma NumbersApart(s0: nat, j: nat, k: nat)
    requires j < U16 && k < U16 && (s0 + j) % U16 == (s0 + k) % U16
    ensures j == k
  {
    if j < k {
      SameResidue(s0 + j, s0 + k);
    } else if k < j {
      SameResidue(s0 + k, s0 + j);
    }
  }

  lemma SendKeepsStep(s0: nat, attempts: nat, w: World, p: Packet)
    requires InStep(s0, w) && Legal(s0, attempts, w.host, Tx(p))
    ensures InStep(s0, Next(s0, w, Host(Tx(p))))
  {
    hide SequenceOf, DataOf, GoodData;
  }

  /** An answer that the host takes is the answer to its current packet, so the device has processed it. */
  lemma TakeKeepsStep(s0: nat, w: World, q: Packet)
    requires InStep(s0, w) && q in w.answers && |w.host.packets| < U16
    ensures InStep(s0, Next(s0, w, Host(Rx(q))))
  {
    hide DataOf, GoodData, Matches, SequenceOf;
    if Takes(w.host, q) {
      var n := w.host.accepted;
      MatchesMeans(w.host.packet, q);
      var k :| 0 <= k < |w.answers| && w.answers[k] == q;
      NumbersApart(s0, k, n);
      assert w.answers[..n + 1] == w.answers[..n] + [q];
      DataSnoc(w.answers[..n], q);
    }
  }

  /** A packet that reaches the device is processed only when it is the one behind those processed. */
  lemma DeliveryKeepsStep(s0: nat, w: World, p: Packet, a: Packet)
    requires InStep(s0, w) && p in w.host.packets && |w.host.packets| < U16
    requires |p| >= HEADER_SIZE && |a| >= HEADER_SIZE && SequenceOf(a) == SequenceOf(p)
    ensures InStep(s0, Next(s0, w, Deliver(p, a)))
  {
    hide DataOf, GoodData, SequenceOf;
    var d := |w.processed|;
    if SequenceOf(p) == (s0 + d) % U16 {
      var k :| 0 <= k < |w.host.packets| && w.host.packets[k] == p;
      NumbersApart(s0, k, d);
      assert w.processed + [p] <= w.host.packets;
      assert (w.answers + [a])[..w.host.accepted] == w.answers[..w.host.accepted];
    }
  }

  lemma StepKeeps(s0: nat, attempts: nat, w: World, s: Step)
    requires InStep(s0, w) && May(s0, attempts, w, s) && |w.host.packets| < U16
    ensures InStep(s0, Next(s0, w, s))
  {
    hide InStep, Legal;
    match s
    case Host(Tx(p)) => SendKeepsStep(s0, attempts, w, p);
    case Host(Rx(q)) => TakeKeepsStep(s0, w, q);
    case Host(Quiet) => QuietKeepsStep(s0, w);
    case Deliver(p, a) => DeliveryKeepsStep(s0, w, p, a);
  }

  lemma QuietKeepsStep(s0: nat, w: World)
    requires InStep(s0, w)
    ensures InStep(s0, Next(s0, w, Host(Quiet)))
  {
  }

  lemma PacketsGrow(s0: nat, w: World, s: Step)
    ensures |w.host.packets| <= |Next(s0, w, s).host.packets|
  {
  }

  lemma StartsInStep(s0: nat)
    ensures InStep(s0, WorldOf(s0, []))
  {
  }

  /** Every possible run with fewer than 2^16 packets keeps the two ends in step. */
  lemma {:induction false} RunsInStep(s0: nat, attempts: nat, steps: seq<Step>)
    requires Possible(s0, attempts, steps) && |WorldOf(s0, steps).host.packets| < U16
    ensures InStep(s0, WorldOf(s0, steps))
  {
    hide InStep, May, Next;
    if steps == [] {
      StartsInStep(s0);
    } else {
      var p := steps[..|steps| - 1];
      PacketsGrow(s0, WorldOf(s0, p), steps[|steps| - 1]);
      RunsInStep(s0, attempts, p);
      StepKeeps(s0, attempts, WorldOf(s0, p), steps[|steps| - 1]);
    }
  }

  // ---- the host's own trace ----

  function HostTrace(steps: seq<Step>): seq<Event> {
    if steps == [] then []
    else
      var s := steps[|steps| - 1];
      HostTrace(steps[..|steps| - 1]) + if s.Host? then [s.e] else []
  }

  lemma {:induction false} HostSide(s0: nat, attempts: nat, steps: seq<Step>)
    requires Possible(s0, attempts, steps)
    ensures Proper(s0, attempts, HostTrace(steps)) && Run(HostTrace(steps)) == WorldOf(s0, steps).host
  {
    hide Legal, After;
    if steps != [] {
      var p, s := steps[..|steps| - 1], steps[|steps| - 1];
      HostSide(s0, attempts, p);
      if s.Host? {
        RunSnoc(HostTrace(p), s.e);
        ProperSnoc(s0, attempts, HostTrace(p), s.e);
      } else {
        assert HostTrace(p) + [] == HostTrace(p);
      }
    }
  }

  /**
   * Delivery: when the sender rests, the device has processed each of its packets exactly once and in
   * order, whatever was lost, repeated or late on the way, so what the device got is what the host sent
   * first, and what the host took is what the device answered, in order.
   */
  lemma Delivered(s0: nat, attempts: nat, steps: seq<Step>)
    requires Possible(s0, attempts, steps) && |WorldOf(s0, steps).host.packets| < U16
    requires Run(HostTrace(steps)).sends == 0
    ensures var w, host := WorldOf(s0, steps), Run(HostTrace(steps));
      && w.processed == w.host.packets && |w.processed| == host.accepted
      && AllData(w.processed) == AllData(host.packets) && GoodData(w.answers) == host.replies
  {
    HostSide(s0, attempts, steps);
    RunsInStep(s0, attempts, steps);
    var w := WorldOf(s0, steps);
    assert w.answers[..w.host.accepted] == w.answers;
  }

  // ---- too many packets for their numbers ----

  /** The k-th packet of a sender that sends no data, which the device answers with the same bytes. */
  function Bare(s0: nat, k: nat): (p: Packet)
    ensures |p| == HEADER_SIZE && SequenceOf(p) == (s0 + k) % U16 && p[0] == ID_FASTBOOT
  {
    HeaderBytes(ID_FASTBOOT, s0 + k, FLAG_NONE)
  }

  function Bares(s0: nat, n: nat): (ps: seq<Packet>)
    ensures |ps| == n && (n > 0 ==> ps[0] == Bare(s0, 0))
  {
    if n == 0 then [] else Bares(s0, n - 1) + [Bare(s0, n - 1)]
  }

  /** `n` exchanges without any loss, repeat or delay. */
  function Exchanges(s0: nat, n: nat): seq<Step> {
    if n == 0 then []
    else
      var p := Bare(s0, n - 1);
      Exchanges(s0, n - 1) + [Host(Tx(p))] + [Deliver(p, p)] + [Host(Rx(p))]
  }

  /** What they come to: the host rests, and the device has processed and answered every packet. */
  ghost predicate Exchanged(s0: nat, n: nat, w: World) {
    && w.host.accepted == n && w.host.sends == 0 && !w.host.listening
    && w.host.packets == w.processed == w.answers == Bares(s0, n)
  }

  lemma PossibleSnoc(s0: nat, attempts: nat, steps: seq<Step>, s: Step)
    requires Possible(s0, attempts, steps) && May(s0, attempts, WorldOf(s0, steps), s)
    ensures Possible(s0, attempts, steps + [s]) && WorldOf(s0, steps + [s]) == Next(s0, WorldOf(s0, steps), s)
  {
    assert (steps + [s])[..|steps|] == steps;
  }

  lemma OneExchange(s0: nat, attempts: nat, n: nat, steps: seq<Step>)
    requires attempts > 0 && Possible(s0, attempts, steps) && Exchanged(s0, n, WorldOf(s0, steps))
    ensures var p := Bare(s0, n); var after := steps + [Host(Tx(p))] + [Deliver(p, p)] + [Host(Rx(p))];
      Possible(s0, attempts, after) && Exchanged(s0, n + 1, WorldOf(s0, after))
  {
    hide Possible, SequenceOf, WorldOf;
    var p := Bare(s0, n);
    PossibleSnoc(s0, attempts, steps, Host(Tx(p)));
    var one := steps + [Host(Tx(p))];
    assert WorldOf(s0, one).host.packets[n] == p;
    PossibleSnoc(s0, attempts, one, Deliver(p, p));
    var two := one + [Deliver(p, p)];
    assert WorldOf(s0, two).answers[n] == p;
    PossibleSnoc(s0, attempts, two, Host(Rx(p)));
  }

  lemma {:induction false} AllExchanged(s0: nat, attempts: nat, n: nat)
    requires attempts > 0
    ensures Possible(s0, attempts, Exchanges(s0, n)) && Exchanged(s0, n, WorldOf(s0, Exchanges(s0, n)))
  {
    if n > 0 {
      AllExchanged(s0, attempts, n - 1);
      OneExchange(s0, attempts, n - 1, Exchanges(s0, n - 1));
    }
  }

  /**
   * From 2^16 packets on delivery fails: after so many exchanges, or a multiple, without any fault, a late
   * duplicate of the very first packet carries the number that is expected, and is processed again.
   */
  lemma LateDuplicate(s0: nat, attempts: nat, n: nat)
    requires attempts > 0 && n > 0 && n % U16 == 0
    ensures var steps := Exchanges(s0, n) + [Deliver(Bare(s0, 0), Bare(s0, 0))];
      && Possible(s0, attempts, steps) && Run(HostTrace(steps)).sends == 0
      && var w := WorldOf(s0, steps);
      && |w.host.packets| == n && w.processed == w.host.packets + [w.host.packets[0]]
  {
    hide Possible, SequenceOf, WorldOf, Exchanges;
    AllExchanged(s0, attempts, n);
    var p := Bare(s0, 0);
    assert (s0 + n) % U16 == s0 % U16;
    assert WorldOf(s0, Exchanges(s0, n)).host.packets[0] == p;
    PossibleSnoc(s0, attempts, Exchanges(s0, n), Deliver(p, p));
    HostSide(s0, attempts, Exchanges(s0, n) + [Deliver(p, p)]);
  }
}
