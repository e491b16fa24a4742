/**
 At most once, down to the bytes.  If no datagram is handed to its addressee more often than it was
 sent, every request takes effect at most once, whatever else is handed to the nodes.
 */
module WireOnce {
  import opened Bytes
  import opened Codec
  import opened Sodium
  import opened Provenance
  import opened PeerCodec
  import opened Server
  import opened Nodes
  import opened Atomic
  import opened Pairs
  import opened PairProofs
  import opened PairRuns
  import opened Wires

  // ----- what is in the air -----

  /** The datagram of a sealed message. */
  ghost function BytesOf(link: Link, x: Sealed): Bytes {
    if Good(link) then FrameOf(link.enc, EmissionOf(link, x)) else []
  }

  ghost function BytesEach(link: Link, xs: seq<Sealed>): (r: seq<Bytes>)
    ensures |r| == |xs|
  {
    Map(x => BytesOf(link, x), xs)
  }

  function PacketEach(xs: seq<Sealed>): (r: seq<Packet>)
    ensures |r| == |xs|
  {
    Map((x: Sealed) => x.packet, xs)
  }

  /** The datagrams a step hands to the socket. */
  ghost function Sends(link: Link, w: Wire, step: WireStep): seq<Sealed>
    requires Good(link) && CanDo(link, w, step)
  {
    Seals(step.side, Acts(link, w, step).messages, step.nonce)
  }

  /** The step hands over bytes that their receiver understands. */
  ghost predicate Lands(link: Link, w: Wire, step: WireStep)
    requires Good(link)
  {
    step.Hand? && Received(link.enc, w.log, CfgOf(link.ids, step.side), link.key, step.bytes).Some?
  }

  /** Datagrams sent and not yet handed to their addressee. */
  ghost function AirAfter(link: Link, w: Wire, air: multiset<Bytes>, step: WireStep): multiset<Bytes>
    requires Good(link) && CanDo(link, w, step)
  {
    (if Lands(link, w, step) then air - multiset{step.bytes} else air)
    + multiset(BytesEach(link, Sends(link, w, step)))
  }

  /** Each datagram is handed to its addressee at most as often as it was sent; anything a node does not
      understand may be handed to it freely. */
  ghost predicate Frugal(link: Link, w: Wire, air: multiset<Bytes>, steps: seq<WireStep>)
    requires Good(link)
    decreases steps
  {
    steps == []
    || (CanDo(link, w, steps[0])
        && (Lands(link, w, steps[0]) ==> steps[0].bytes in air)
        && Frugal(link, After(link, w, steps[0]), AirAfter(link, w, air, steps[0]), steps[1..]))
  }

  // ----- bytes and packets -----

  lemma SameFrameSameParts(enc: Cipher, a: Emission, b: Emission)
    requires IsAead(enc) && a.Single? && b.Single? && a.key == b.key && FrameOf(enc, a) == FrameOf(enc, b)
    ensures a.header == b.header && a.payload == b.payload
  {
    FrameParts(enc, a);
    FrameParts(enc, b);
  }

  lemma PayloadInjective(m: Peer, n: Peer)
    requires Payload(m) == Payload(n)
    ensures m == n
  {
    PayloadUnderstood(m);
    PayloadUnderstood(n);
  }

  lemma SameHeaderSameSide(ids: Ids, a: Side, b: Side)
    requires ids.lo < ids.hi && LinkHeader(CfgOf(ids, a)) == LinkHeader(CfgOf(ids, b))
    ensures a == b
  {
  }

  /** A datagram carries one message of one node. */
  lemma SameBytesSamePacket(link: Link, x: Sealed, y: Sealed)
    requires Good(link) && BytesOf(link, x) == BytesOf(link, y)
    ensures x.packet == y.packet
  {
    SameFrameSameParts(link.enc, EmissionOf(link, x), EmissionOf(link, y));
    SameHeaderSameSide(link.ids, x.packet.from, y.packet.from);
    PayloadInjective(x.packet.message, y.packet.message);
  }

  lemma RemovedEach(link: Link, xs: seq<Sealed>, i: nat)
    requires i < |xs|
    ensures multiset(BytesEach(link, RemoveAt(xs, i))) == multiset(BytesEach(link, xs)) - multiset{BytesEach(link, xs)[i]}
    ensures multiset(PacketEach(RemoveAt(xs, i))) == multiset(PacketEach(xs)) - multiset{xs[i].packet}
  {
    MapRemoveAt(x => BytesOf(link, x), xs, i);
    MapRemoveAt((x: Sealed) => x.packet, xs, i);
    RemovedOne(BytesEach(link, xs), i);
    RemovedOne(PacketEach(xs), i);
  }

  lemma SealedPackets(side: Side, ms: seq<Peer>, nonce: Nonce)
    ensures PacketEach(Seals(side, ms, nonce)) == Packets(side, ms)
  {
  }

  lemma AppendedEach(link: Link, xs: seq<Sealed>, side: Side, ms: seq<Peer>, nonce: Nonce)
    ensures var more := Seals(side, ms, nonce);
            && multiset(BytesEach(link, xs + more)) == multiset(BytesEach(link, xs)) + multiset(BytesEach(link, more))
            && multiset(PacketEach(xs + more)) == multiset(PacketEach(xs)) + multiset(Packets(side, ms))
  {
    var more := Seals(side, ms, nonce);
    MapAppend(x => BytesOf(link, x), xs, more);
    MapAppend((x: Sealed) => x.packet, xs, more);
    SealedPackets(side, ms, nonce);
  }

  /** What a node sends it has sealed. */
  predicate SendsWhatItMade(e: Effects) {
    forall m :: m in e.messages ==> m in e.made
  }

  lemma AskSendsWhatItMade(cfg: Config, st: NodeState, conn: nat, receipt: Option<string>, ask: Ask, now: int, sendOk: bool)
    requires ask.Do? && !Mine(cfg, ask.op) ==> st.nextCorr < U64_MAX
    ensures SendsWhatItMade(HandleAsk(cfg, st, conn, receipt, ask, now, sendOk))
  {
    if ask.Do? && !Mine(cfg, ask.op) {
      ForwardShape(cfg, st, conn, receipt, ask.op, now, sendOk);
    }
  }

  lemma PeerSendsWhatItMade(cfg: Config, st: NodeState, m: Peer, sendOk: bool)
    ensures SendsWhatItMade(HandlePeer(cfg, st, m, sendOk))
  {
  }

  lemma ActsSendWhatTheyMade(link: Link, w: Wire, step: WireStep)
    requires Good(link) && CanDo(link, w, step)
    ensures SendsWhatItMade(Acts(link, w, step))
  {
    var cfg, st := CfgOf(link.ids, step.side), StateOf(w, step.side);
    match step {
      case Do(_, ev, _) =>
        if ev.FromClient? {
          AskSendsWhatItMade(cfg, st, ev.conn, ev.frame.receipt, AskOf(ev.frame), ev.now, ev.sendOk);
        }
      case Hand(_, bytes, _, sendOk) =>
        var m := Received(link.enc, w.log, cfg, link.key, bytes);
        if m.Some? {
          PeerSendsWhatItMade(cfg, st, m.value, sendOk);
        }
    }
  }

  // ----- a frugal run is a run that delivers each packet at most once -----

  /** `flight` lists what is in the air, as bytes here and as packets there. */
  ghost predicate Aligned(link: Link, xs: seq<Sealed>, net: multiset<Packet>, air: multiset<Bytes>, flight: seq<Sealed>)
    requires Good(link)
  {
    && air == multiset(BytesEach(link, flight)) && net == multiset(PacketEach(flight))
    && forall x :: x in flight ==> x in xs
  }

  lemma AlignedSends(link: Link, xs: seq<Sealed>, net: multiset<Packet>, air: multiset<Bytes>, flight: seq<Sealed>,
                     side: Side, e: Effects, nonce: Nonce)
    requires Good(link) && Aligned(link, xs, net, air, flight) && SendsWhatItMade(e)
    ensures var more := Seals(side, e.messages, nonce);
            Aligned(link, xs + Seals(side, e.made, nonce), net + multiset(Packets(side, e.messages)),
                    air + multiset(BytesEach(link, more)), flight + more)
  {
    var more, made := Seals(side, e.messages, nonce), Seals(side, e.made, nonce);
    AppendedEach(link, flight, side, e.messages, nonce);
    forall x | x in more
      ensures x in made
    {
      var i :| 0 <= i < |more| && more[i] == x;
      assert e.messages[i] in e.made;
      var j :| 0 <= j < |e.made| && e.made[j] == e.messages[i];
      assert made[j] == x;
    }
  }

  /** Bytes in the air that node `side` understands are in flight as the packet of that message. */
  lemma Handed(link: Link, xs: seq<Sealed>, net: multiset<Packet>, air: multiset<Bytes>, flight: seq<Sealed>,
               bytes: Bytes, x: Sealed) returns (left: seq<Sealed>)
    requires Good(link) && Aligned(link, xs, net, air, flight) && bytes in air && bytes == BytesOf(link, x)
    ensures x.packet in net && Aligned(link, xs, net - multiset{x.packet}, air - multiset{bytes}, left)
  {
    assert bytes in BytesEach(link, flight);
    var i :| 0 <= i < |flight| && BytesEach(link, flight)[i] == bytes;
    SameBytesSamePacket(link, x, flight[i]);
    assert PacketEach(flight)[i] == x.packet;
    RemovedEach(link, flight, i);
    left := RemoveAt(flight, i);
  }

  lemma WhoSaid(link: Link, xs: seq<Sealed>, side: Side, bytes: Bytes, m: Peer) returns (x: Sealed)
    requires Good(link) && Said(link, xs, side, bytes, m)
    ensures x.packet == Packet(Other(side), m) && bytes == BytesOf(link, x)
  {
    x :| x in xs && x.packet == Packet(Other(side), m)
         && bytes == Datagram(link.enc, CfgOf(link.ids, Other(side)), link.key, x.nonce, m);
  }

  /** One frugal step, as a step of the pair that is not a replay. */
  lemma FrugalStep(link: Link, w: Wire, s: Pair, air: multiset<Bytes>, flight: seq<Sealed>, step: WireStep)
    returns (st: Step, left: seq<Sealed>)
    requires Good(link) && Matches(w, s) && LogOk(link, w.log, w.sealed) && CanDo(link, w, step)
    requires Aligned(link, w.sealed, s.net, air, flight) && (Lands(link, w, step) ==> step.bytes in air)
    ensures Possible(link.ids, s, st) && !st.Replay?
    ensures var v, t := After(link, w, step), Next(link.ids, s, st);
            && Matches(v, t) && LogOk(link, v.log, v.sealed)
            && Aligned(link, v.sealed, t.net, AirAfter(link, w, air, step), left)
  {
    ActsSendWhatTheyMade(link, w, step);
    var e := Acts(link, w, step);
    if Lands(link, w, step) {
      st, left := FrugalHand(link, w, s, air, flight, step, e);
    } else {
      StepRefines(link, w, s, step);
      st := PairStep(link, w, step);
      AlignedSends(link, w.sealed, s.net, air, flight, step.side, e, step.nonce);
      left := flight + Sends(link, w, step);
    }
  }

  /** A delivery is a replay of a packet that is then no longer on the network. */
  lemma DeliverIsReplay(ids: Ids, s: Pair, p: Packet, sendOk: bool)
    requires p in s.net && p in s.made
    ensures var u := s.(net := s.net - multiset{p}); Next(ids, s, Deliver(p, sendOk)) == Next(ids, u, Replay(p, sendOk))
  {
  }

  lemma ActsOnMessage(link: Link, w: Wire, s: Pair, side: Side, bytes: Bytes, nonce: Nonce, m: Peer, sendOk: bool)
    requires Good(link) && Matches(w, s)
    requires Received(link.enc, w.log, CfgOf(link.ids, side), link.key, bytes) == Some(m)
    ensures Acts(link, w, Hand(side, bytes, nonce, sendOk)) == HandlePeer(CfgOf(link.ids, side), NodeOf(s, side), m, sendOk)
  {
  }

  lemma ReplayNet(ids: Ids, s: Pair, side: Side, m: Peer, sendOk: bool)
    requires Packet(Other(side), m) in s.made
    ensures Next(ids, s, Replay(Packet(Other(side), m), sendOk)).net
            == s.net + multiset(Packets(side, HandlePeer(CfgOf(ids, side), NodeOf(s, side), m, sendOk).messages))
  {
    assert Other(Other(side)) == side;
  }

  lemma FrugalHand(link: Link, w: Wire, s: Pair, air: multiset<Bytes>, flight: seq<Sealed>, step: WireStep, e: Effects)
    returns (st: Step, left: seq<Sealed>)
    requires Good(link) && Matches(w, s) && LogOk(link, w.log, w.sealed) && Lands(link, w, step)
    requires Aligned(link, w.sealed, s.net, air, flight) && step.bytes in air
    requires e == Acts(link, w, step) && SendsWhatItMade(e)
    ensures Possible(link.ids, s, st) && st.Deliver?
    ensures var v, t := After(link, w, step), Next(link.ids, s, st);
            && Matches(v, t) && LogOk(link, v.log, v.sealed)
            && Aligned(link, v.sealed, t.net, AirAfter(link, w, air, step), left)
  {
    var side := step.side;
    var m := Received(link.enc, w.log, CfgOf(link.ids, side), link.key, step.bytes).value;
    ReceivedIffSaid(link, w.sealed, side, step.bytes, m);
    var x := WhoSaid(link, w.sealed, side, step.bytes, m);
    var rest := Handed(link, w.sealed, s.net, air, flight, step.bytes, x);
    st := Deliver(x.packet, step.sendOk);
    var u := s.(net := s.net - multiset{x.packet});
    HandRefines(link, w, u, side, step.bytes, step.nonce, step.sendOk);
    DeliverIsReplay(link.ids, s, x.packet, step.sendOk);
    ActsOnMessage(link, w, u, side, step.bytes, step.nonce, m, step.sendOk);
    ReplayNet(link.ids, u, side, m, step.sendOk);
    AlignedSends(link, w.sealed, u.net, air - multiset{step.bytes}, rest, side, e, step.nonce);
    left := rest + Sends(link, w, step);
  }

  ghost predicate Joined(link: Link, w: Wire, s: Pair, air: multiset<Bytes>, flight: seq<Sealed>)
    requires Good(link)
  {
    Matches(w, s) && LogOk(link, w.log, w.sealed) && Aligned(link, w.sealed, s.net, air, flight)
  }

  /** The first step of a frugal run, and where it leaves the rest. */
  lemma FrugalFirst(link: Link, w: Wire, s: Pair, air: multiset<Bytes>, flight: seq<Sealed>, steps: seq<WireStep>)
    returns (st: Step, v: Wire, t: Pair, air': multiset<Bytes>, left: seq<Sealed>)
    requires Good(link) && Joined(link, w, s, air, flight) && steps != [] && Frugal(link, w, air, steps)
    ensures Joined(link, v, t, air', left) && Frugal(link, v, air', steps[1..]) && !st.Replay?
    ensures RunWire(link, w, steps) == RunWire(link, v, steps[1..])
    ensures forall rest {:trigger Run(link.ids, t, rest)} :: Run(link.ids, s, [st] + rest) == Run(link.ids, t, rest)
  {
    st, left := FrugalStep(link, w, s, air, flight, steps[0]);
    v, t, air' := After(link, w, steps[0]), Next(link.ids, s, st), AirAfter(link, w, air, steps[0]);
    forall rest
      ensures Run(link.ids, s, [st] + rest) == Run(link.ids, t, rest)
    {
      assert ([st] + rest)[1..] == rest;
    }
  }

  lemma {:induction false} FrugalRunRefines(link: Link, w: Wire, s: Pair, air: multiset<Bytes>, flight: seq<Sealed>,
                                           steps: seq<WireStep>) returns (path: seq<Step>)
    requires Good(link) && Joined(link, w, s, air, flight) && Frugal(link, w, air, steps)
    ensures RunWire(link, w, steps).Some? && Run(link.ids, s, path).Some?
    ensures Matches(RunWire(link, w, steps).value, Run(link.ids, s, path).value)
    ensures forall i :: 0 <= i < |path| ==> !path[i].Replay?
    decreases steps
  {
    if steps == [] {
      path := [];
    } else {
      var st, v, t, air', left := FrugalFirst(link, w, s, air, flight, steps);
      var rest := FrugalRunRefines(link, v, t, air', left, steps[1..]);
      path := [st] + rest;
    }
  }

  /** When each sent datagram reaches its addressee at most as often as it was sent, every request has taken
      effect at most once, and the two stores are those effects and no others. */
  lemma AtMostOnceOnTheWire(link: Link, steps: seq<WireStep>) returns (s: Pair)
    requires Good(link) && Frugal(link, SILENCE, multiset{}, steps)
    ensures RunWire(link, SILENCE, steps).Some? && Reachable(link.ids, s)
    ensures var w := RunWire(link, SILENCE, steps).value;
            Matches(w, s) && w.lo.entries + w.hi.entries == ApplyAll(Ops(s.hist.effects))
    ensures forall i, j :: 0 <= i < j < |s.hist.effects| ==> s.hist.effects[i].req != s.hist.effects[j].req
  {
    assert LogOk(link, SILENCE.log, SILENCE.sealed) by {
      assert Emissions(link, []) == [];
    }
    assert BytesEach(link, []) == [] && PacketEach([]) == [];
    var path := FrugalRunRefines(link, SILENCE, START, multiset{}, [], steps);
    s := Run(link.ids, START, path).value;
    StartIsGood(link.ids);
    RunKeepsOnce(link.ids, START, path);
    ReachableIsGood(link.ids, s);
  }
}
