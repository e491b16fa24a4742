/** Consequences of provenance: fanout delivery, splicing, and key rotation. */
module Delivery {
  import opened Bytes
  import opened Codec
  import opened Sodium
  import opened KeyStores
  import opened StandardMode
  import opened DekMode
  import opened Provenance
  import opened Worlds
  import Stats

  // ----- delivery -----

  lemma {:induction false} EmittedStays(enc: Cipher, w: World, steps: seq<Step>, em: Emission)
    requires IsAead(enc) && Run(enc, w, steps).Some? && em in w.emitted
    ensures em in Run(enc, w, steps).value.emitted
    decreases steps
  {
    if steps != [] {
      EmittedStays(enc, After(enc, w, steps[0]), steps[1..], em);
    }
  }

  /** Once emitted, a frame opens to its payload at any later moment of the run, wherever its key is held. */
  lemma EmittedOpensEverAfter(enc: Cipher, w: World, steps: seq<Step>, em: Emission, ring: Ring)
    requires IsAead(enc) && Inv(enc, w) && Run(enc, w, steps).Some? && em in w.emitted && Reads(ring, em)
    ensures OpenVerdict(enc, Run(enc, w, steps).value.log, ring, FrameOf(enc, em))
            == Accepted(em.header, FlagsFor(em), em.payload)
  {
    EmittedStays(enc, w, steps, em);
    RunKeepsInv(enc, w, steps);
    EmittedOpens(enc, Run(enc, w, steps).value.emitted, ring, em);
  }

  /** A served fanout: frames in the caller's order, each under its peer's highest epoch, each payload + 97
      bytes, all sharing every byte from offset 69, each opening at its recipient. */
  lemma FanoutDelivers(enc: Cipher, w: World, s: Step, i: nat, j: nat, ring: Ring)
    requires IsAead(enc) && Inv(enc, w) && Possible(w, s) && s.Fanout? && FanoutServed(w.nodes[s.node], s)
    requires i < |s.recipients| && j < |s.recipients|
    ensures var w' := After(enc, w, s);
            && |w'.emitted| == |w.emitted| + |s.recipients|
            && var em, other := w'.emitted[|w.emitted| + i], w'.emitted[|w.emitted| + j];
            && em.header == Header(w.nodes[s.node].localId, s.recipients[i], s.channel)
            && IsCurrent(w.nodes[s.node].keys, s.recipients[i], em.epoch)
            && |FrameOf(enc, em)| == |s.payload| + DEK_OVERHEAD
            && FrameOf(enc, em)[BODY_START..] == FrameOf(enc, other)[BODY_START..]
            && (Reads(ring, em) ==>
                  OpenVerdict(enc, w'.log, ring, FrameOf(enc, em)) == Accepted(em.header, Flags(Dek, em.epoch), s.payload))
  {
    var w' := After(enc, w, s);
    StepKeepsInv(enc, w, s);
    FanoutEmits(w, s, i);
    FanoutEmits(w, s, j);
    OpensHere(enc, w', |w.emitted| + i, ring);
  }

  /** The i-th frame of a served fanout. */
  lemma FanoutEmits(w: World, s: Step, i: nat)
    requires Possible(w, s) && s.Fanout? && FanoutServed(w.nodes[s.node], s) && i < |s.recipients|
    ensures |Emits(w, s)| == |s.recipients|
    ensures var em := Emits(w, s)[i];
            && em.Fanned? && em.payload == s.payload && em.dek == s.dek && em.bodyNonce == s.bodyNonce
            && em.header == Header(w.nodes[s.node].localId, s.recipients[i], s.channel)
            && IsCurrent(w.nodes[s.node].keys, s.recipients[i], em.epoch)
  {
  }

  lemma OpensHere(enc: Cipher, w: World, n: nat, ring: Ring)
    requires IsAead(enc) && Inv(enc, w) && n < |w.emitted|
    ensures var em := w.emitted[n];
            Reads(ring, em) ==>
              OpenVerdict(enc, w.log, ring, FrameOf(enc, em)) == Accepted(em.header, FlagsFor(em), em.payload)
  {
    var em := w.emitted[n];
    assert em in w.emitted;
    if Reads(ring, em) {
      EmittedOpens(enc, w.emitted, ring, em);
    }
  }

  // ----- no splicing -----

  /** A standard frame and a reusable-DEK frame never account for the same AEAD call, nor look alike. */
  lemma ModesNeverMeet(enc: Cipher, a: Emission, b: Emission)
    requires IsAead(enc) && a.Single? && b.Fanned?
    ensures CallsOf(enc, a) !! CallsOf(enc, b)
    ensures FrameOf(enc, a) != FrameOf(enc, b)
  {
    FrameParts(enc, a);
    FrameParts(enc, b);
  }

  /** Two accepted reusable-DEK frames with the same envelope, body nonce and body tag are one frame:
      an envelope cannot be moved onto another body. */
  lemma EnvelopeFixesBody(enc: Cipher, ems: seq<Emission>, ring: Ring, f: Bytes, g: Bytes)
    requires IsAead(enc) && DeksOnce(ems) && IsDek(f) && IsDek(g)
    requires Acceptable(enc, AllCalls(enc, ems), ring, f) && Acceptable(enc, AllCalls(enc, ems), ring, g)
    requires f[..81] == g[..81] && Tag(f) == Tag(g)
    ensures f == g
  {
    var log, key := AllCalls(enc, ems), ring.keys[SlotOf(f)];
    SamePrefixSameSlot(f, g);
    var a := FannedProvenance(enc, ems, key, f);
    var b := FannedProvenance(enc, ems, key, g);
    SameEnvelopeSameBody(enc, ems, a, b);
  }

  lemma SamePrefixSameSlot(f: Bytes, g: Bytes)
    requires IsDek(f) && IsDek(g) && |f| >= 81 && |g| >= 81 && f[..81] == g[..81]
    ensures SlotOf(f) == SlotOf(g)
  {
    assert f[..9] == f[..81][..9] == g[..9];
    SerializeParsed(f);
    SerializeParsed(g);
    PrefixInjective(HeaderOf(f), FlagsOf(f), HeaderOf(g), FlagsOf(g));
  }

  /** Emissions that agree on prefix, envelope, body nonce and body tag have one DEK, hence one body. */
  lemma SameEnvelopeSameBody(enc: Cipher, ems: seq<Emission>, a: Emission, b: Emission)
    requires IsAead(enc) && DeksOnce(ems) && a in ems && b in ems && a.Fanned? && b.Fanned? && a.key == b.key
    requires FrameOf(enc, a)[..81] == FrameOf(enc, b)[..81] && Tag(FrameOf(enc, a)) == Tag(FrameOf(enc, b))
    ensures FrameOf(enc, a) == FrameOf(enc, b)
  {
    var f, g := FrameOf(enc, a), FrameOf(enc, b);
    FannedParts(enc, a);
    FannedParts(enc, b);
    FrameParts(enc, a);
    FrameParts(enc, b);
    assert f[..9] == f[..81][..9] == g[..9];
    assert f[9..21] == f[..81][9..21] == g[9..21];
    assert f[21..69] == f[..81][21..69] == g[21..69];
    assert f[69..81] == f[..81][69..81] == g[69..81];
    assert a.dek == b.dek;
    assert SameFanout(a, b);
    assert f == f[..81] + f[81..];
    assert g == g[..81] + g[81..];
  }

  /** A frame taken to a node it does not name is dropped there, whatever keys that node holds. */
  lemma NoRedirect(enc: Cipher, log: Log, ring: Ring, em: Emission)
    requires IsAead(enc) && em.header.toId != ring.localId
    ensures OpenVerdict(enc, log, ring, FrameOf(enc, em)) == Dropped(Stats.Plaintext)
  {
    FrameParts(enc, em);
    NestedIsFirstFailing(enc, log, ring, FrameOf(enc, em));
  }

  // ----- rotation -----

  /** Node `b` can open whatever node `a` can seal for it. */
  ghost predicate Covered(w: World, a: nat, b: nat) {
    && a in w.nodes && b in w.nodes
    && forall e: Epoch :: Slot(w.nodes[b].localId, e) in w.nodes[a].keys ==>
         Holds(w.nodes[b], Slot(w.nodes[a].localId, e), w.nodes[a].keys[Slot(w.nodes[b].localId, e)])
  }

  predicate Holds(ring: Ring, slot: Slot, key: Key) {
    slot in ring.keys && ring.keys[slot] == key
  }

  /** Install at the receiver first and retire there last, with one key on both sides; neither node leaves. */
  predicate Orderly(w: World, a: nat, b: nat, s: Step)
    requires a in w.nodes && b in w.nodes
  {
    var from, to := w.nodes[a], w.nodes[b];
    if a == b then s != Leave(a)
    else
      match s
      case Leave(n) => n != a && n != b
      case Install(n, peer, e, k) =>
        && (n == a && peer == to.localId && Installed(from.keys, Slot(peer, e), k).Ok? ==> Holds(to, Slot(from.localId, e), k))
        && (n == b && peer == from.localId && Slot(to.localId, e) in from.keys ==> from.keys[Slot(to.localId, e)] == k)
      case Retire(n, peer, e) => n == b && peer == from.localId ==> Slot(to.localId, e) !in from.keys
      case Clear(n) => n == b ==> !PeerKnown(from.keys, to.localId)
      case _ => true
  }

  /** A step of any node keeps the link covered exactly when it is orderly. */
  lemma CoverKeptIffOrderly(enc: Cipher, w: World, a: nat, b: nat, s: Step)
    requires IsAead(enc) && Covered(w, a, b) && Possible(w, s)
    ensures Covered(After(enc, w, s), a, b) <==> Orderly(w, a, b, s)
  {
    if !Orderly(w, a, b, s) && !s.Leave? {
      var v, from, to := After(enc, w, s), w.nodes[a], w.nodes[b];
      var e: Epoch;
      if s.Clear? {
        e :| Slot(to.localId, e) in from.keys;
      } else {
        e := s.epoch;
      }
      assert Slot(to.localId, e) in v.nodes[a].keys;
      assert !Holds(v.nodes[b], Slot(from.localId, e), v.nodes[a].keys[Slot(to.localId, e)]);
    }
  }

  /** Every step of the run, by whatever node, is possible and orderly. */
  predicate OrderlyRun(enc: Cipher, w: World, a: nat, b: nat, steps: seq<Step>)
    requires IsAead(enc)
    decreases steps
  {
    steps == []
    || (a in w.nodes && b in w.nodes && Possible(w, steps[0]) && Orderly(w, a, b, steps[0])
        && OrderlyRun(enc, After(enc, w, steps[0]), a, b, steps[1..]))
  }

  lemma {:induction false} OrderlyRunKeepsCover(enc: Cipher, w: World, a: nat, b: nat, steps: seq<Step>)
    requires IsAead(enc) && Covered(w, a, b) && OrderlyRun(enc, w, a, b, steps)
    ensures Run(enc, w, steps).Some? && Covered(Run(enc, w, steps).value, a, b)
    decreases steps
  {
    if steps != [] {
      CoverKeptIffOrderly(enc, w, a, b, steps[0]);
      OrderlyRunKeepsCover(enc, After(enc, w, steps[0]), a, b, steps[1..]);
    }
  }

  /** Throughout an orderly rotation, in a world where anyone does anything else, every frame node `a` then
      emits to node `b`, alone or in a fanout, opens there to its payload. */
  lemma RotationNeverBreaksTheLink(enc: Cipher, w: World, a: nat, b: nat, steps: seq<Step>, v: World, s: Step, i: nat)
    requires IsAead(enc) && Inv(enc, w) && Covered(w, a, b) && OrderlyRun(enc, w, a, b, steps)
    requires Run(enc, w, steps) == Some(v) && Possible(v, s) && s.node == a && i < |Emits(v, s)|
    requires b in v.nodes ==> Emits(v, s)[i].header.toId == v.nodes[b].localId
    ensures b in v.nodes && (s.SealOne? || s.Fanout?)
    ensures var em := Emits(v, s)[i];
            OpenVerdict(enc, After(enc, v, s).log, v.nodes[b], FrameOf(enc, em))
            == Accepted(em.header, FlagsFor(em), s.payload)
  {
    OrderlyRunKeepsCover(enc, w, a, b, steps);
    RunKeepsInv(enc, w, steps);
    var em := Emits(v, s)[i];
    StepKeepsInv(enc, v, s);
    EmitsUnderHeldKeys(v, s, i);
    assert After(enc, v, s).emitted[|v.emitted| + i] == em;
    OpensHere(enc, After(enc, v, s), |v.emitted| + i, v.nodes[b]);
  }

  /** A node seals only under keys it holds for the addressee. */
  lemma EmitsUnderHeldKeys(w: World, s: Step, i: nat)
    requires Possible(w, s) && i < |Emits(w, s)|
    ensures s.SealOne? || s.Fanout?
    ensures var em := Emits(w, s)[i];
            && em.header.fromId == w.nodes[s.node].localId && em.payload == s.payload
            && Holds(w.nodes[s.node], Slot(em.header.toId, em.epoch), em.key)
  {
  }

  /** Out of order, the link breaks: a frame under an epoch the receiver lacks is dropped as a rotation
      or a topology problem. */
  lemma MissingEpochDrops(enc: Cipher, log: Log, ring: Ring, em: Emission)
    requires IsAead(enc) && em.header.toId == ring.localId && Slot(em.header.fromId, em.epoch) !in ring.keys
    ensures OpenVerdict(enc, log, ring, FrameOf(enc, em)) == Dropped(KeyMiss(ring, em.header.fromId))
  {
    FrameParts(enc, em);
    NestedIsFirstFailing(enc, log, ring, FrameOf(enc, em));
  }

  // ----- the reasons, on raw bytes -----

  /** The reason for every drop, read off the bytes: a reusable-DEK frame is measured before it is looked at,
      a standard frame only once it is addressed here. */
  lemma ReasonsExactly(enc: Cipher, log: Log, ring: Ring, frame: Bytes)
    requires IsAead(enc)
    ensures var v := OpenVerdict(enc, log, ring, frame);
            if |frame| < 9 then v == Dropped(Stats.TooShort)
            else
              var from, to, flags := (frame[0] as int) * 256 + frame[1], (frame[2] as int) * 256 + frame[3], frame[8];
              if flags / 2 % 4 != 2 then v == Dropped(Stats.BadFlags)
              else if flags % 2 == 1 && |frame| < 97 then v == Dropped(Stats.TooShort)
              else if to != ring.localId then v == Dropped(Stats.Plaintext)
              else if |frame| < 37 then v == Dropped(Stats.LenMismatch)
              else if forall e: Epoch :: Slot(from, e) !in ring.keys then v == Dropped(Stats.NoPeer)
              else if Slot(from, flags / 8) !in ring.keys then v == Dropped(Stats.NoEpoch)
              else v.Accepted? || v == Dropped(Stats.AuthFailed)
  {
    NestedIsFirstFailing(enc, log, ring, frame);
    if |frame| >= 9 {
      assert frame[..8][0..2] == frame[0..2] && frame[..8][2..4] == frame[2..4];
      if GoodPrefix(frame) {
        var from: U16 := (frame[0] as int) * 256 + frame[1];
        assert HeaderOf(frame).fromId == from && SlotOf(frame) == Slot(from, frame[8] / 8);
        PeerIsKnown(ring, from);
        assert (forall e: Epoch :: Slot(from, e) !in ring.keys) <==> !PeerKnown(ring.keys, from);
      }
    }
  }

  lemma PeerIsKnown(ring: Ring, peer: U16)
    ensures PeerKnown(ring.keys, peer) <==> exists e: Epoch :: Slot(peer, e) in ring.keys
  {
  }
}
