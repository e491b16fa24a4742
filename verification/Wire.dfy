/**
 The pair on the wire.  Nodes exchange sealed bytes; whoever holds the network may hand any node any
 bytes at any time.  Every such run is a run of the pair in which datagrams are lost, reordered and
 duplicated, but never invented.
 */
module Wires {
  import opened Bytes
  import opened Codec
  import opened Sodium
  import opened KeyStores
  import opened DekMode
  import opened Provenance
  import opened Kv
  import opened PeerCodec
  import opened Server
  import opened Nodes
  import opened Atomic
  import opened Pairs
  import opened PairRuns
  import Utf8

  /** A message that was sealed, and the nonce it was sealed with. */
  datatype Sealed = Sealed(packet: Packet, nonce: Nonce)

  /** Both nodes, the encryptions made, what was sealed, and the replies given to requests for operations. */
  datatype Wire = Wire(lo: NodeState, hi: NodeState, log: Log, sealed: seq<Sealed>, answers: seq<ReplyCall>)

  const SILENCE := Wire(EMPTY_NODE, EMPTY_NODE, {}, [], [])

  datatype WireStep =
    | Do(side: Side, event: Event, nonce: Nonce)
    | Hand(side: Side, bytes: Bytes, nonce: Nonce, sendOk: bool)

  /** What the two nodes share: the cipher, their ids, and the link key. */
  datatype Link = Link(enc: Cipher, ids: Ids, key: Key)

  ghost predicate Good(link: Link) {
    IsAead(link.enc) && link.ids.lo < link.ids.hi
  }

  function StateOf(w: Wire, side: Side): NodeState {
    if side.Lo? then w.lo else w.hi
  }

  function Seals(side: Side, made: seq<Peer>, nonce: Nonce): seq<Sealed> {
    seq(|made|, i requires 0 <= i < |made| => Sealed(Packet(side, made[i]), nonce))
  }

  function Follow(link: Link, w: Wire, side: Side, e: Effects, nonce: Nonce, replies: seq<ReplyCall>): Wire {
    Wire(if side.Lo? then e.state else w.lo, if side.Lo? then w.hi else e.state,
         w.log + DatagramCalls(CfgOf(link.ids, side), link.key, nonce, e.made),
         w.sealed + Seals(side, e.made, nonce),
         w.answers + replies)
  }

  ghost predicate CanDo(link: Link, w: Wire, step: WireStep) {
    step.Do? ==> !step.event.FromPeer? && Able(CfgOf(link.ids, step.side), StateOf(w, step.side), step.event)
  }

  /** What the node does in a step. */
  ghost function Acts(link: Link, w: Wire, step: WireStep): Effects
    requires Good(link) && CanDo(link, w, step)
  {
    var cfg, st := CfgOf(link.ids, step.side), StateOf(w, step.side);
    match step
    case Do(_, ev, _) => Handle(cfg, st, ev)
    case Hand(_, bytes, _, sendOk) => HandleDatagram(link.enc, w.log, cfg, link.key, st, bytes, sendOk)
  }

  ghost function After(link: Link, w: Wire, step: WireStep): Wire
    requires Good(link) && CanDo(link, w, step)
  {
    var e := Acts(link, w, step);
    Follow(link, w, step.side, e, step.nonce, if step.Do? then OpReplies(step.event, e) else e.replies)
  }

  ghost function RunWire(link: Link, w: Wire, steps: seq<WireStep>): Option<Wire>
    requires Good(link)
    decreases steps
  {
    if steps == [] then Some(w)
    else if !CanDo(link, w, steps[0]) then None
    else RunWire(link, After(link, w, steps[0]), steps[1..])
  }

  // ----- the sealed messages as frames -----

  function EmissionOf(link: Link, x: Sealed): Emission {
    Single(LinkHeader(CfgOf(link.ids, x.packet.from)), LINK_EPOCH, link.key, x.nonce, Payload(x.packet.message))
  }

  function Emissions(link: Link, xs: seq<Sealed>): seq<Emission> {
    Map(x => EmissionOf(link, x), xs)
  }

  lemma EmissionsIff(link: Link, xs: seq<Sealed>, em: Emission)
    ensures em in Emissions(link, xs) <==> exists x :: x in xs && em == EmissionOf(link, x)
  {
    var ems := Emissions(link, xs);
    if em in ems {
      var i :| 0 <= i < |ems| && ems[i] == em;
      assert xs[i] in xs;
    }
    if x :| x in xs && em == EmissionOf(link, x) {
      var i :| 0 <= i < |xs| && xs[i] == x;
      assert ems[i] == em;
    }
  }

  /** The log holds the calls of exactly the sealed messages. */
  ghost predicate LogOk(link: Link, log: Log, xs: seq<Sealed>)
    requires Good(link)
  {
    log == AllCalls(link.enc, Emissions(link, xs))
  }

  lemma SealsAreCalls(link: Link, side: Side, made: seq<Peer>, nonce: Nonce)
    requires Good(link)
    ensures AllCalls(link.enc, Emissions(link, Seals(side, made, nonce)))
            == DatagramCalls(CfgOf(link.ids, side), link.key, nonce, made)
  {
    var xs := Seals(side, made, nonce);
    var ems := Emissions(link, xs);
    forall c
      ensures c in AllCalls(link.enc, ems) <==> c in DatagramCalls(CfgOf(link.ids, side), link.key, nonce, made)
    {
      AllCallsIff(link.enc, ems, c);
      if em :| em in ems && c in CallsOf(link.enc, em) {
        var i :| 0 <= i < |ems| && ems[i] == em;
        assert made[i] in made;
      }
      if m :| m in made && c == DatagramCall(CfgOf(link.ids, side), link.key, nonce, m) {
        var i :| 0 <= i < |made| && made[i] == m;
        assert ems[i] in ems && c in CallsOf(link.enc, ems[i]);
      }
    }
  }

  lemma EmissionsAppend(link: Link, xs: seq<Sealed>, more: seq<Sealed>)
    ensures Emissions(link, xs + more) == Emissions(link, xs) + Emissions(link, more)
  {
    MapAppend(x => EmissionOf(link, x), xs, more);
  }

  lemma LogFollows(link: Link, log: Log, xs: seq<Sealed>, side: Side, made: seq<Peer>, nonce: Nonce)
    requires Good(link) && LogOk(link, log, xs)
    ensures LogOk(link, log + DatagramCalls(CfgOf(link.ids, side), link.key, nonce, made), xs + Seals(side, made, nonce))
  {
    var more := Seals(side, made, nonce);
    EmissionsAppend(link, xs, more);
    AllCallsAppend(link.enc, Emissions(link, xs), Emissions(link, more));
    SealsAreCalls(link, side, made, nonce);
  }

  // ----- what a node understands is what its peer said -----

  /** `bytes` are the datagram of a message that the other node sealed. */
  ghost predicate Said(link: Link, xs: seq<Sealed>, side: Side, bytes: Bytes, m: Peer)
    requires Good(link)
  {
    exists x :: x in xs && x.packet == Packet(Other(side), m)
                && bytes == Datagram(link.enc, CfgOf(link.ids, Other(side)), link.key, x.nonce, m)
  }

  /** A sealed message from the other node opens and reads back as itself. */
  lemma SaidIsReceived(link: Link, xs: seq<Sealed>, side: Side, bytes: Bytes, m: Peer)
    requires Good(link) && Said(link, xs, side, bytes, m)
    ensures Received(link.enc, AllCalls(link.enc, Emissions(link, xs)), CfgOf(link.ids, side), link.key, bytes) == Some(m)
  {
    var x :| x in xs && x.packet == Packet(Other(side), m)
             && bytes == Datagram(link.enc, CfgOf(link.ids, Other(side)), link.key, x.nonce, m);
    var ems, em := Emissions(link, xs), EmissionOf(link, x);
    EmissionsIff(link, xs, em);
    EmittedOpens(link.enc, ems, LinkRing(CfgOf(link.ids, side), link.key), em);
    PayloadUnderstood(m);
  }

  /** Bytes that open were sealed by one of the two nodes, for this one. */
  lemma OpensOnlySealed(link: Link, xs: seq<Sealed>, side: Side, bytes: Bytes) returns (x: Sealed)
    requires Good(link)
    requires OpenVerdict(link.enc, AllCalls(link.enc, Emissions(link, xs)), LinkRing(CfgOf(link.ids, side), link.key), bytes).Accepted?
    ensures x in xs && x.packet.from == Other(side) && bytes == FrameOf(link.enc, EmissionOf(link, x))
    ensures OpenVerdict(link.enc, AllCalls(link.enc, Emissions(link, xs)), LinkRing(CfgOf(link.ids, side), link.key), bytes).payload
            == Payload(x.packet.message)
  {
    var ems, ring := Emissions(link, xs), LinkRing(CfgOf(link.ids, side), link.key);
    var v := OpenVerdict(link.enc, AllCalls(link.enc, ems), ring, bytes);
    AcceptedIffEmitted(link.enc, ems, ring, bytes, v.header, v.flags, v.payload);
    var em :| em in ems && FrameOf(link.enc, em) == bytes && Reads(ring, em) && v.payload == em.payload;
    EmissionsIff(link, xs, em);
    x :| x in xs && em == EmissionOf(link, x);
    OnlyThePeer(link, side, x);
  }

  lemma OnlyThePeer(link: Link, side: Side, x: Sealed)
    requires Good(link) && Reads(LinkRing(CfgOf(link.ids, side), link.key), EmissionOf(link, x))
    ensures x.packet.from == Other(side)
  {
  }

  lemma ReceivedIsSaid(link: Link, xs: seq<Sealed>, side: Side, bytes: Bytes, m: Peer)
    requires Good(link)
    requires Received(link.enc, AllCalls(link.enc, Emissions(link, xs)), CfgOf(link.ids, side), link.key, bytes) == Some(m)
    ensures Said(link, xs, side, bytes, m)
  {
    var x := OpensOnlySealed(link, xs, side, bytes);
    PayloadUnderstood(x.packet.message);
  }

  /** A node understands `m` from some bytes exactly when they are its peer's sealing of `m`. */
  lemma ReceivedIffSaid(link: Link, xs: seq<Sealed>, side: Side, bytes: Bytes, m: Peer)
    requires Good(link)
    ensures Received(link.enc, AllCalls(link.enc, Emissions(link, xs)), CfgOf(link.ids, side), link.key, bytes) == Some(m)
            <==> Said(link, xs, side, bytes, m)
  {
    if Said(link, xs, side, bytes, m) {
      SaidIsReceived(link, xs, side, bytes, m);
    } else if Received(link.enc, AllCalls(link.enc, Emissions(link, xs)), CfgOf(link.ids, side), link.key, bytes) == Some(m) {
      ReceivedIsSaid(link, xs, side, bytes, m);
    }
  }

  // ----- every wire run is a run of the pair -----

  ghost predicate Matches(w: Wire, s: Pair) {
    && w.lo == s.lo && w.hi == s.hi
    && SamePackets(w.sealed, s.made)
    && SameAnswers(w.answers, s.hist.answers)
  }

  ghost predicate SameAnswers(calls: seq<ReplyCall>, answers: seq<Answer>) {
    && |calls| == |answers|
    && forall i :: 0 <= i < |calls| ==> calls[i].conn == answers[i].conn && calls[i].reply == answers[i].reply
  }

  lemma SameAnswersMore(calls: seq<ReplyCall>, answers: seq<Answer>, more: seq<ReplyCall>, after: seq<Answer>)
    requires SameAnswers(calls, answers) && Speaks(answers, after, more)
    ensures SameAnswers(calls + more, after)
  {
    forall i | 0 <= i < |after|
      ensures (calls + more)[i].conn == after[i].conn && (calls + more)[i].reply == after[i].reply
    {
      if i < |calls| {
        assert after[i] == answers[i];
      } else {
        assert (calls + more)[i] == more[i - |calls|];
        assert after[|answers| + (i - |calls|)] == after[i];
      }
    }
  }

  ghost predicate SamePackets(xs: seq<Sealed>, made: set<Packet>) {
    forall p :: p in made <==> exists x :: x in xs && x.packet == p
  }

  lemma SamePacketsMore(xs: seq<Sealed>, made: set<Packet>, side: Side, ms: seq<Peer>, nonce: Nonce)
    requires SamePackets(xs, made)
    ensures SamePackets(xs + Seals(side, ms, nonce), made + (set p | p in Packets(side, ms)))
  {
    var more, ps := Seals(side, ms, nonce), Packets(side, ms);
    forall p
      ensures p in made || p in ps <==> exists x :: x in xs + more && x.packet == p
    {
      if p in ps {
        var i :| 0 <= i < |ps| && ps[i] == p;
        assert more[i] in xs + more && more[i].packet == p;
      } else if p in made {
        var x :| x in xs && x.packet == p;
        assert x in xs + more;
      }
      if x :| x in xs + more && x.packet == p && x !in xs {
        var i :| 0 <= i < |more| && more[i] == x;
        assert ps[i] == p;
      }
    }
  }

  /** One node acts on both sides alike. */
  lemma SettleMatches(link: Link, w: Wire, s: Pair, side: Side, e: Effects, nonce: Nonce, replies: seq<ReplyCall>, h: History)
    requires Matches(w, s) && Speaks(s.hist.answers, h.answers, replies)
    ensures Matches(Follow(link, w, side, e, nonce, replies), Settle(s, side, e, h))
  {
    SamePacketsMore(w.sealed, s.made, side, e.made, nonce);
    SameAnswersMore(w.answers, s.hist.answers, replies, h.answers);
  }

  /** The step of the pair that a wire step is. */
  ghost function PairStep(link: Link, w: Wire, step: WireStep): Step
    requires Good(link)
  {
    match step
    case Do(side, ev, _) => Local(side, ev)
    case Hand(side, bytes, _, sendOk) =>
      match Received(link.enc, w.log, CfgOf(link.ids, side), link.key, bytes)
      case Some(m) => Replay(Packet(Other(side), m), sendOk)
      case None => Local(side, Unreadable)
  }

  lemma StepRefines(link: Link, w: Wire, s: Pair, step: WireStep)
    requires Good(link) && Matches(w, s) && LogOk(link, w.log, w.sealed) && CanDo(link, w, step)
    ensures var st := PairStep(link, w, step);
            Possible(link.ids, s, st) && Matches(After(link, w, step), Next(link.ids, s, st))
    ensures var v := After(link, w, step); LogOk(link, v.log, v.sealed)
  {
    match step {
      case Do(side, ev, nonce) =>
        var e := Handle(CfgOf(link.ids, side), NodeOf(s, side), ev);
        LocalAnswers(link.ids, s, side, ev);
        SettleMatches(link, w, s, side, e, nonce, OpReplies(ev, e), NoteLocal(link.ids, s, side, ev));
        LogFollows(link, w.log, w.sealed, side, e.made, nonce);
      case Hand(side, bytes, nonce, sendOk) =>
        HandRefines(link, w, s, side, bytes, nonce, sendOk);
    }
  }

  lemma HandRefines(link: Link, w: Wire, s: Pair, side: Side, bytes: Bytes, nonce: Nonce, sendOk: bool)
    requires Good(link) && Matches(w, s) && LogOk(link, w.log, w.sealed)
    ensures var step := Hand(side, bytes, nonce, sendOk);
            var v, st := After(link, w, step), PairStep(link, w, step);
            Possible(link.ids, s, st) && Matches(v, Next(link.ids, s, st)) && LogOk(link, v.log, v.sealed)
  {
    var cfg, node := CfgOf(link.ids, side), NodeOf(s, side);
    var e := HandleDatagram(link.enc, w.log, cfg, link.key, node, bytes, sendOk);
    LogFollows(link, w.log, w.sealed, side, e.made, nonce);
    match Received(link.enc, w.log, cfg, link.key, bytes) {
      case Some(m) =>
        ReceivedIffSaid(link, w.sealed, side, bytes, m);
        var p := Packet(Other(side), m);
        assert Other(p.from) == side;
        PeerAnswers(link.ids, s, p, sendOk);
        SettleMatches(link, w, s, side, e, nonce, e.replies, NotePeer(link.ids, s, p));
      case None =>
        SettleMatches(link, w, s, side, e, nonce, [], s.hist);
    }
  }

  /** Whatever bytes are handed to the nodes, some run of the pair goes through the same states and answers. */
  lemma {:induction false} EveryWireRunRefines(link: Link, w: Wire, s: Pair, steps: seq<WireStep>) returns (path: seq<Step>)
    requires Good(link) && Matches(w, s) && LogOk(link, w.log, w.sealed) && RunWire(link, w, steps).Some?
    ensures Run(link.ids, s, path).Some? && Matches(RunWire(link, w, steps).value, Run(link.ids, s, path).value)
    decreases steps
  {
    if steps == [] {
      path := [];
    } else {
      var step := PairStep(link, w, steps[0]);
      StepRefines(link, w, s, steps[0]);
      var rest := EveryWireRunRefines(link, After(link, w, steps[0]), Next(link.ids, s, step), steps[1..]);
      path := [step] + rest;
      assert path[1..] == rest;
    }
  }

  /** From silence, under any bytes: the stores are the halves of one atomic map that only requested
      operations changed, and every answer given is a genuine answer of the pair. */
  lemma NothingIsForged(link: Link, steps: seq<WireStep>) returns (s: Pair)
    requires Good(link) && RunWire(link, SILENCE, steps).Some?
    ensures Reachable(link.ids, s) && Matches(RunWire(link, SILENCE, steps).value, s)
    ensures var w := RunWire(link, SILENCE, steps).value;
            && w.lo.entries + w.hi.entries == ApplyAll(Ops(s.hist.effects))
            && forall i :: 0 <= i < |w.answers| ==> Genuine(s.hist, s.hist.answers[i])
    ensures forall i :: 0 <= i < |s.hist.effects| ==> EffectOk(s.hist, i)
  {
    assert AllCalls(link.enc, Emissions(link, [])) == {} by {
      assert Emissions(link, []) == [];
    }
    assert Matches(SILENCE, START);
    var path := EveryWireRunRefines(link, SILENCE, START, steps);
    s := Run(link.ids, START, path).value;
    ReachableIsGood(link.ids, s);
    EveryAnswerIsGenuine(link.ids, s);
  }
}
