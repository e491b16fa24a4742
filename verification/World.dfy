/** Runs of many nodes sharing one AEAD, and the theorems that hold along every one of them. */
module Worlds {
  import opened Bytes
  import opened Codec
  import opened Sodium
  import opened KeyStores
  import opened StandardMode
  import opened DekMode
  import opened Provenance

  /** A frame accepted by a node, and how many frames had been emitted anywhere by then. */
  datatype Acceptance = Acceptance(ring: Ring, frame: Bytes, header: Header, flags: Flags, payload: Bytes, at: nat)

  /** `origins[i]` is the local id of the node that was running when `emitted[i]` was made. */
  datatype World = World(nodes: map<nat, Ring>, log: Log, emitted: seq<Emission>, origins: seq<U16>,
                         accepted: seq<Acceptance>)

  const GENESIS := World(map[], {}, [], [], [])

  datatype Step =
    | Join(node: nat, localId: U16)
    | Leave(node: nat)
    | Install(node: nat, peer: U16, epoch: Epoch, key: Key)
    | Retire(node: nat, peer: U16, epoch: Epoch)
    | Clear(node: nat)
    | SealOne(node: nat, toId: U16, channel: U32, epoch: Epoch, payload: Bytes, nonce: Nonce)
    | Fanout(node: nat, recipients: seq<U16>, channel: U32, payload: Bytes, dek: Key, bodyNonce: Nonce, nonces: seq<Nonce>)
    | Receive(node: nat, bytes: Bytes)

  predicate DekUnused(ems: seq<Emission>, dek: Key) {
    forall em | em in ems :: em.Fanned? ==> em.dek != dek
  }

  /** A step names an existing node, and a fanout draws a DEK no earlier fanout drew. */
  predicate Possible(w: World, s: Step) {
    if s.Join? then s.node !in w.nodes
    else s.node in w.nodes && (s.Fanout? ==> |s.nonces| == |s.recipients| && DekUnused(w.emitted, s.dek))
  }

  predicate FanoutServed(ring: Ring, s: Step)
    requires s.Fanout?
  {
    s.recipients != [] && |s.payload| <= DEK_MAX_PAYLOAD && Servable(ring, s.recipients)
  }

  function FannedOf(fromId: U16, sel: seq<Selected>, channel: U32, payload: Bytes,
                    dek: Key, bodyNonce: Nonce, nonces: seq<Nonce>): (r: seq<Emission>)
    requires |nonces| == |sel|
    ensures |r| == |sel|
    ensures forall i :: 0 <= i < |r| ==>
              r[i] == Fanned(Header(fromId, sel[i].toId, channel), sel[i].epoch, sel[i].key, nonces[i], payload, dek, bodyNonce)
  {
    seq(|sel|, i requires 0 <= i < |sel| =>
      Fanned(Header(fromId, sel[i].toId, channel), sel[i].epoch, sel[i].key, nonces[i], payload, dek, bodyNonce))
  }

  /** The frames a step puts on the wire. */
  function Emits(w: World, s: Step): seq<Emission>
    requires Possible(w, s)
  {
    match s
    case SealOne(node, toId, channel, epoch, payload, nonce) =>
      var ring := w.nodes[node];
      if |payload| > MAX_PAYLOAD || Slot(toId, epoch) !in ring.keys then []
      else [Single(Header(ring.localId, toId, channel), epoch, ring.keys[Slot(toId, epoch)], nonce, payload)]
    case Fanout(node, recipients, channel, payload, dek, bodyNonce, nonces) =>
      var ring := w.nodes[node];
      if !FanoutServed(ring, s) then []
      else FannedOf(ring.localId, SelectAll(ring, recipients), channel, payload, dek, bodyNonce, nonces)
    case _ => []
  }

  /** The AEAD calls a step makes. */
  function Calls(enc: Cipher, w: World, s: Step): Log
    requires IsAead(enc) && Possible(w, s)
  {
    match s
    case SealOne(node, toId, channel, epoch, payload, nonce) =>
      var ring := w.nodes[node];
      if |payload| > MAX_PAYLOAD || Slot(toId, epoch) !in ring.keys then {}
      else {StandardCall(Header(ring.localId, toId, channel), epoch, ring.keys[Slot(toId, epoch)], nonce, payload)}
    case Fanout(node, recipients, channel, payload, dek, bodyNonce, nonces) =>
      var ring := w.nodes[node];
      if !FanoutServed(ring, s) then {}
      else FanoutCalls(enc, ring.localId, SelectAll(ring, recipients), channel, payload, dek, bodyNonce, nonces)
    case _ => {}
  }

  function Nodes(w: World, s: Step): map<nat, Ring>
    requires Possible(w, s)
  {
    match s
    case Join(node, localId) => w.nodes[node := Ring(localId, map[])]
    case Leave(node) => w.nodes - {node}
    case Install(node, peer, epoch, key) =>
      (match Installed(w.nodes[node].keys, Slot(peer, epoch), key)
       case Ok(keys) => w.nodes[node := w.nodes[node].(keys := keys)]
       case Err(_) => w.nodes)
    case Retire(node, peer, epoch) =>
      w.nodes[node := w.nodes[node].(keys := w.nodes[node].keys - {Slot(peer, epoch)})]
    case Clear(node) => w.nodes[node := w.nodes[node].(keys := map[])]
    case _ => w.nodes
  }

  function Accepts(enc: Cipher, w: World, s: Step): seq<Acceptance>
    requires IsAead(enc) && Possible(w, s)
  {
    if !s.Receive? then []
    else
      var v := OpenVerdict(enc, w.log, w.nodes[s.node], s.bytes);
      if v.Accepted? then [Acceptance(w.nodes[s.node], s.bytes, v.header, v.flags, v.payload, |w.emitted|)] else []
  }

  function After(enc: Cipher, w: World, s: Step): World
    requires IsAead(enc) && Possible(w, s)
  {
    var n := |Emits(w, s)|;
    World(Nodes(w, s), w.log + Calls(enc, w, s), w.emitted + Emits(w, s),
          w.origins + seq(n, i requires 0 <= i < n => w.nodes[s.node].localId), w.accepted + Accepts(enc, w, s))
  }

  /** Running `steps` from `w`, or nothing if one of them is impossible where it comes. */
  function Run(enc: Cipher, w: World, steps: seq<Step>): Option<World>
    requires IsAead(enc)
    decreases steps
  {
    if steps == [] then Some(w)
    else if !Possible(w, steps[0]) then None
    else Run(enc, After(enc, w, steps[0]), steps[1..])
  }

  // ----- the invariant -----

  /** An acceptance is explained by an emission made before it. */
  ghost predicate Genuine(enc: Cipher, ems: seq<Emission>, a: Acceptance)
    requires IsAead(enc)
  {
    a.at <= |ems| && Explained(enc, ems[..a.at], a.ring, a.frame, a.header, a.flags, a.payload)
  }

  /** The log is what the emitted frames account for, and everything accepted was emitted before. */
  ghost predicate Inv(enc: Cipher, w: World)
    requires IsAead(enc)
  {
    && w.log == AllCalls(enc, w.emitted)
    && DeksOnce(w.emitted)
    && |w.origins| == |w.emitted|
    && (forall i :: 0 <= i < |w.emitted| ==> w.emitted[i].header.fromId == w.origins[i])
    && forall a :: a in w.accepted ==> Genuine(enc, w.emitted, a)
  }

  /** One fanout's calls are those of its frames: the body is encrypted once, whatever the number of recipients. */
  lemma {:induction false} FanoutCallsAreFrames(enc: Cipher, fromId: U16, sel: seq<Selected>, channel: U32, payload: Bytes,
                                               dek: Key, bodyNonce: Nonce, nonces: seq<Nonce>)
    requires IsAead(enc) && |nonces| == |sel|
    ensures FanoutCalls(enc, fromId, sel, channel, payload, dek, bodyNonce, nonces)
            == AllCalls(enc, FannedOf(fromId, sel, channel, payload, dek, bodyNonce, nonces))
               + {BodyCall(fromId, channel, dek, bodyNonce, payload)}
  {
    if sel != [] {
      var n := |sel| - 1;
      FanoutCallsAreFrames(enc, fromId, sel[..n], channel, payload, dek, bodyNonce, nonces[..n]);
      var ems := FannedOf(fromId, sel, channel, payload, dek, bodyNonce, nonces);
      assert ems[..n] == FannedOf(fromId, sel[..n], channel, payload, dek, bodyNonce, nonces[..n]);
    }
  }

  lemma CallsAreEmissions(enc: Cipher, w: World, s: Step)
    requires IsAead(enc) && Possible(w, s)
    ensures Calls(enc, w, s) == AllCalls(enc, Emits(w, s))
  {
    if s.Fanout? && FanoutServed(w.nodes[s.node], s) {
      var ring := w.nodes[s.node];
      var sel := SelectAll(ring, s.recipients);
      FanoutCallsAreFrames(enc, ring.localId, sel, s.channel, s.payload, s.dek, s.bodyNonce, s.nonces);
      var ems := Emits(w, s);
      assert ems[|ems| - 1] in ems;
      assert BodyCall(ring.localId, s.channel, s.dek, s.bodyNonce, s.payload) in CallsOf(enc, ems[|ems| - 1]);
    } else if s.SealOne? && Emits(w, s) != [] {
      assert Emits(w, s)[..0] == [];
    }
  }

  lemma DeksStayOnce(w: World, s: Step)
    requires Possible(w, s) && DeksOnce(w.emitted)
    ensures DeksOnce(w.emitted + Emits(w, s))
  {
    var before, added := w.emitted, Emits(w, s);
    forall a: Emission, b: Emission | a in before + added && b in before + added && a.Fanned? && b.Fanned? && a.dek == b.dek
      ensures SameFanout(a, b)
    {
      if a in added || b in added {
        assert s.Fanout?;
      }
    }
  }

  lemma StillGenuine(enc: Cipher, ems: seq<Emission>, more: seq<Emission>, a: Acceptance)
    requires IsAead(enc) && Genuine(enc, ems, a)
    ensures Genuine(enc, ems + more, a)
  {
    assert (ems + more)[..a.at] == ems[..a.at];
  }

  lemma StepKeepsInv(enc: Cipher, w: World, s: Step)
    requires IsAead(enc) && Possible(w, s) && Inv(enc, w)
    ensures Inv(enc, After(enc, w, s))
  {
    CallsAreEmissions(enc, w, s);
    AllCallsAppend(enc, w.emitted, Emits(w, s));
    DeksStayOnce(w, s);
    var w' := After(enc, w, s);
    forall a | a in w'.accepted
      ensures Genuine(enc, w'.emitted, a)
    {
      if a in w.accepted {
        StillGenuine(enc, w.emitted, Emits(w, s), a);
      } else {
        assert a in Accepts(enc, w, s);
        AcceptedIffEmitted(enc, w.emitted, a.ring, a.frame, a.header, a.flags, a.payload);
        assert w'.emitted[..a.at] == w.emitted;
      }
    }
  }

  lemma {:induction false} RunKeepsInv(enc: Cipher, w: World, steps: seq<Step>)
    requires IsAead(enc) && Inv(enc, w) && Run(enc, w, steps).Some?
    ensures Inv(enc, Run(enc, w, steps).value)
    decreases steps
  {
    if steps != [] {
      StepKeepsInv(enc, w, steps[0]);
      RunKeepsInv(enc, After(enc, w, steps[0]), steps[1..]);
    }
  }

  lemma OriginOf(enc: Cipher, w: World, i: nat) returns (j: nat)
    requires IsAead(enc) && Inv(enc, w) && i < |w.accepted|
    ensures var a := w.accepted[i];
            && j < a.at <= |w.emitted| && |w.origins| == |w.emitted|
            && FrameOf(enc, w.emitted[j]) == a.frame
            && a.header == w.emitted[j].header && a.header.toId == a.ring.localId
            && a.header.fromId == w.origins[j]
            && a.flags == FlagsFor(w.emitted[j]) && a.payload == w.emitted[j].payload
  {
    var a := w.accepted[i];
    assert a in w.accepted;
    var em :| em in w.emitted[..a.at] && FrameOf(enc, em) == a.frame && Reads(a.ring, em)
              && a.header == em.header && a.flags == FlagsFor(em) && a.payload == em.payload;
    j :| 0 <= j < a.at && w.emitted[..a.at][j] == em;
    assert w.emitted[j] == em;
  }

  /** In every run, every frame any node ever accepted is byte-identical to one emitted earlier by a
      node whose id is the header's source, to this node, with this payload, channel, mode and epoch. */
  lemma EveryAcceptanceIsGenuine(enc: Cipher, steps: seq<Step>, i: nat)
    requires IsAead(enc) && Run(enc, GENESIS, steps).Some?
    requires i < |Run(enc, GENESIS, steps).value.accepted|
    ensures var w := Run(enc, GENESIS, steps).value;
            var a := w.accepted[i];
            && a.at <= |w.emitted|
            && |w.origins| == |w.emitted|
            && exists j :: 0 <= j < a.at && FrameOf(enc, w.emitted[j]) == a.frame
                           && a.header == w.emitted[j].header && a.header.toId == a.ring.localId
                           && a.header.fromId == w.origins[j]
                           && a.flags == FlagsFor(w.emitted[j]) && a.payload == w.emitted[j].payload
  {
    RunKeepsInv(enc, GENESIS, steps);
    var j := OriginOf(enc, Run(enc, GENESIS, steps).value, i);
  }

  /** In every reachable state the verdict on any bytes at any ring is fixed by what was emitted. */
  lemma VerdictInEveryRun(enc: Cipher, steps: seq<Step>, ring: Ring, frame: Bytes, h: Header, f: Flags, p: Bytes)
    requires IsAead(enc) && Run(enc, GENESIS, steps).Some?
    ensures var w := Run(enc, GENESIS, steps).value;
            OpenVerdict(enc, w.log, ring, frame) == Accepted(h, f, p)
            <==> Explained(enc, w.emitted, ring, frame, h, f, p)
  {
    RunKeepsInv(enc, GENESIS, steps);
    AcceptedIffEmitted(enc, Run(enc, GENESIS, steps).value.emitted, ring, frame, h, f, p);
  }
}
