/**
 Whole runs of the frame layer.  Any number of nodes install, retire and clear keys under any
 policy, seal, fan out, and are handed arbitrary bytes to open.  What a node accepts is exactly
 what some node emitted to it earlier under the key the two share.
 */
module Provenance {
  import opened Bytes
  import opened Codec
  import opened Sodium
  import opened KeyStores
  import opened StandardMode
  import opened DekMode

  /** One frame put on the wire, with the key and random draws it was made from. */
  datatype Emission =
    | Single(header: Header, epoch: Epoch, key: Key, nonce: Nonce, payload: Bytes)
    | Fanned(header: Header, epoch: Epoch, key: Key, nonce: Nonce, payload: Bytes, dek: Key, bodyNonce: Nonce)

  function FlagsFor(em: Emission): Flags {
    Flags(if em.Single? then Standard else Dek, em.epoch)
  }

  function FrameOf(enc: Cipher, em: Emission): (r: Bytes)
    requires IsAead(enc)
    ensures |r| == |em.payload| + if em.Single? then OVERHEAD else DEK_OVERHEAD
  {
    match em
    case Single(h, e, k, n, p) => StandardFrame(enc, h, e, k, n, p)
    case Fanned(h, e, k, n, p, dek, bn) => DekFrame(enc, h, e, k, n, dek, bn, p)
  }

  function CallsOf(enc: Cipher, em: Emission): Log
    requires IsAead(enc)
  {
    match em
    case Single(h, e, k, n, p) => {StandardCall(h, e, k, n, p)}
    case Fanned(h, e, k, n, p, dek, bn) =>
      {EnvelopeCall(enc, h, e, k, n, dek, bn, p), BodyCall(h.fromId, h.channel, dek, bn, p)}
  }

  function AllCalls(enc: Cipher, ems: seq<Emission>): Log
    requires IsAead(enc)
  {
    if ems == [] then {} else AllCalls(enc, ems[..|ems| - 1]) + CallsOf(enc, ems[|ems| - 1])
  }

  lemma {:induction false} AllCallsIff(enc: Cipher, ems: seq<Emission>, c: Call)
    requires IsAead(enc)
    ensures c in AllCalls(enc, ems) <==> exists em :: em in ems && c in CallsOf(enc, em)
  {
    if ems != [] {
      var n := |ems| - 1;
      AllCallsIff(enc, ems[..n], c);
      assert forall em :: em in ems <==> em in ems[..n] || em == ems[n];
    }
  }

  lemma {:induction false} AllCallsAppend(enc: Cipher, ems: seq<Emission>, more: seq<Emission>)
    requires IsAead(enc)
    ensures AllCalls(enc, ems + more) == AllCalls(enc, ems) + AllCalls(enc, more)
  {
    if more == [] {
      assert ems + more == ems;
    } else {
      var n := |more| - 1;
      AllCallsAppend(enc, ems, more[..n]);
      assert (ems + more)[..|ems + more| - 1] == ems + more[..n];
    }
  }

  /** Frames sharing a DEK come from one fanout: same sender, channel, body nonce and payload. */
  ghost predicate DeksOnce(ems: seq<Emission>) {
    forall a, b :: a in ems && b in ems && a.Fanned? && b.Fanned? && a.dek == b.dek ==> SameFanout(a, b)
  }

  predicate SameFanout(a: Emission, b: Emission)
    requires a.Fanned? && b.Fanned?
  {
    a.header.fromId == b.header.fromId && a.header.channel == b.header.channel
    && a.bodyNonce == b.bodyNonce && a.payload == b.payload
  }

  // ----- what one frame is made of -----

  /** The regions of an emitted frame, read back at the receiver's offsets. */
  lemma FrameParts(enc: Cipher, em: Emission)
    requires IsAead(enc)
    ensures var f := FrameOf(enc, em);
            && ParsePrefix(f) == Ok((em.header, FlagsFor(em)))
            && f[..9] == SerializePrefix(em.header, FlagsFor(em))
            && f[9..21] == em.nonce
            && (em.Single? ==> f[21..] == enc(em.key, em.nonce, f[..9], em.payload))
  {
    var f, prefix := FrameOf(enc, em), SerializePrefix(em.header, FlagsFor(em));
    assert f[..9] == prefix;
    assert f == prefix + f[9..];
    ParseSerialized(em.header, FlagsFor(em), f[9..]);
  }

  lemma FannedParts(enc: Cipher, em: Emission)
    requires IsAead(enc) && em.Fanned?
    ensures var f := FrameOf(enc, em);
            var env := EnvelopeCall(enc, em.header, em.epoch, em.key, em.nonce, em.dek, em.bodyNonce, em.payload);
            && f[21..69] == enc(em.key, em.nonce, env.aad, em.dek)
            && f[69..81] == em.bodyNonce
            && f[81..] == enc(em.dek, em.bodyNonce, BodyAad(em.header.fromId, em.header.channel), em.payload)
            && EnvelopeAad(f[..9], f[69..81], Tag(f)) == env.aad
  {
    var f := FrameOf(enc, em);
    var body := Body(enc, em.header.fromId, em.header.channel, em.dek, em.bodyNonce, em.payload);
    FrameParts(enc, em);
    assert f[69..] == body;
    assert f[69..81] == body[..12] && f[81..] == body[12..];
    assert Tag(f) == Tag(body);
  }

  // ----- acceptance, both ways -----

  /** `ring` belongs to the addressee and holds the key `em` was sealed under. */
  predicate Reads(ring: Ring, em: Emission) {
    && em.header.toId == ring.localId
    && Slot(em.header.fromId, em.epoch) in ring.keys
    && ring.keys[Slot(em.header.fromId, em.epoch)] == em.key
  }

  /** Whatever was emitted to this ring opens, to exactly what was sealed. */
  lemma EmittedOpens(enc: Cipher, ems: seq<Emission>, ring: Ring, em: Emission)
    requires IsAead(enc) && em in ems && Reads(ring, em)
    ensures OpenVerdict(enc, AllCalls(enc, ems), ring, FrameOf(enc, em)) == Accepted(em.header, FlagsFor(em), em.payload)
  {
    var log, f := AllCalls(enc, ems), FrameOf(enc, em);
    forall c | c in CallsOf(enc, em)
      ensures c in log
    {
      AllCallsIff(enc, ems, c);
    }
    FrameParts(enc, em);
    if em.Fanned? {
      FannedParts(enc, em);
    }
    NestedIsFirstFailing(enc, log, ring, f);
  }

  /** A standard frame that authenticates was emitted as it stands. */
  lemma StandardProvenance(enc: Cipher, ems: seq<Emission>, key: Key, frame: Bytes) returns (em: Emission)
    requires IsAead(enc) && GoodPrefix(frame) && !IsDek(frame) && |frame| >= OVERHEAD
    requires StandardContent(enc, AllCalls(enc, ems), key, frame).Some?
    ensures em in ems && em.key == key && FrameOf(enc, em) == frame
    ensures em.Single? && StandardContent(enc, AllCalls(enc, ems), key, frame) == Some(em.payload)
  {
    var p := StandardContent(enc, AllCalls(enc, ems), key, frame).value;
    var c := Call(key, frame[9..21], frame[..9], p);
    AllCallsIff(enc, ems, c);
    em :| em in ems && c in CallsOf(enc, em);
    assert em.Single?;
    FrameParts(enc, em);
    assert frame == frame[..9] + frame[9..21] + frame[21..];
  }

  /** Both openings of a reusable-DEK frame together pin one emission; an envelope fixes its body. */
  lemma FannedProvenance(enc: Cipher, ems: seq<Emission>, key: Key, frame: Bytes) returns (em: Emission)
    requires IsAead(enc) && IsDek(frame) && |frame| >= DEK_OVERHEAD && DeksOnce(ems)
    requires DekContent(enc, AllCalls(enc, ems), key, frame).Some?
    ensures em in ems && em.key == key && FrameOf(enc, em) == frame
    ensures em.Fanned? && DekContent(enc, AllCalls(enc, ems), key, frame) == Some(em.payload)
  {
    var log := AllCalls(enc, ems);
    var aad := EnvelopeAad(frame[..9], frame[69..81], Tag(frame));
    var dek := Decrypt(enc, log, key, frame[9..21], aad, frame[21..69]).value;
    var c := Call(key, frame[9..21], aad, dek);
    AllCallsIff(enc, ems, c);
    em :| em in ems && c in CallsOf(enc, em);
    EnvelopeOrigin(enc, em, frame, key, dek);
    var p := DekContent(enc, log, key, frame).value;
    var d := Call(dek, frame[69..81], BodyAad(HeaderOf(frame).fromId, HeaderOf(frame).channel), p);
    AllCallsIff(enc, ems, d);
    var other :| other in ems && d in CallsOf(enc, other);
    assert other.Fanned? && other.dek == em.dek;
    assert SameFanout(other, em);
    Reassemble(enc, em, frame);
  }

  /** A body that opens in a frame, under whatever DEK and however DEKs were drawn, was sealed by that
      frame's source on that frame's channel. */
  lemma BodyOrigin(enc: Cipher, ems: seq<Emission>, dek: Key, frame: Bytes, p: Bytes) returns (em: Emission)
    requires IsAead(enc) && IsDek(frame) && |frame| >= DEK_OVERHEAD
    requires Decrypt(enc, AllCalls(enc, ems), dek, frame[69..81],
                     BodyAad(HeaderOf(frame).fromId, HeaderOf(frame).channel), frame[81..]) == Some(p)
    ensures em in ems && em.Fanned? && em.dek == dek && em.bodyNonce == frame[69..81] && em.payload == p
    ensures em.header.fromId == HeaderOf(frame).fromId && em.header.channel == HeaderOf(frame).channel
    ensures frame[69..] == Body(enc, em.header.fromId, em.header.channel, em.dek, em.bodyNonce, em.payload)
  {
    var h := HeaderOf(frame);
    var c := Call(dek, frame[69..81], BodyAad(h.fromId, h.channel), p);
    AllCallsIff(enc, ems, c);
    em :| em in ems && c in CallsOf(enc, em);
    assert em.Fanned? && c == BodyCall(em.header.fromId, em.header.channel, em.dek, em.bodyNonce, em.payload);
    BodyAadInjective(em.header.fromId, em.header.channel, h.fromId, h.channel);
    assert frame[69..] == frame[69..81] + frame[81..];
  }

  /** A frame whose regions are those of `em` is the frame of `em`. */
  lemma Reassemble(enc: Cipher, em: Emission, frame: Bytes)
    requires IsAead(enc) && em.Fanned? && |frame| >= DEK_OVERHEAD
    requires frame[..9] == SerializePrefix(em.header, FlagsFor(em)) && frame[9..21] == em.nonce
    requires frame[21..69] == enc(em.key, em.nonce, EnvelopeAad(frame[..9], em.bodyNonce, Tag(frame)), em.dek)
    requires frame[69..81] == em.bodyNonce
    requires frame[81..] == enc(em.dek, em.bodyNonce, BodyAad(em.header.fromId, em.header.channel), em.payload)
    ensures FrameOf(enc, em) == frame
  {
    var body := Body(enc, em.header.fromId, em.header.channel, em.dek, em.bodyNonce, em.payload);
    assert frame[69..] == frame[69..81] + frame[81..] == body;
    assert Tag(frame) == Tag(body);
    assert frame == frame[..9] + frame[9..21] + frame[21..69] + frame[69..];
  }

  /** A logged call with a 37-byte associated datum is an envelope, and its associated data name prefix and body. */
  lemma EnvelopeOrigin(enc: Cipher, em: Emission, frame: Bytes, key: Key, dek: Key)
    requires IsAead(enc) && IsDek(frame) && |frame| >= DEK_OVERHEAD
    requires Call(key, frame[9..21], EnvelopeAad(frame[..9], frame[69..81], Tag(frame)), dek) in CallsOf(enc, em)
    ensures em.Fanned? && em.key == key && em.dek == dek && em.nonce == frame[9..21]
    ensures em.bodyNonce == frame[69..81] && em.header == HeaderOf(frame)
    ensures SerializePrefix(em.header, FlagsFor(em)) == frame[..9]
  {
    var aad := EnvelopeAad(frame[..9], frame[69..81], Tag(frame));
    assert em.Fanned?;
    var prefix := SerializePrefix(em.header, FlagsFor(em));
    assert prefix == aad[..9] == frame[..9];
    assert em.bodyNonce == aad[9..21] == frame[69..81];
    SerializeParsed(frame);
    PrefixInjective(em.header, FlagsFor(em), HeaderOf(frame), FlagsOf(frame));
  }

  /** The frame is, byte for byte, an emission this ring can read. */
  ghost predicate Explained(enc: Cipher, ems: seq<Emission>, ring: Ring, frame: Bytes, h: Header, f: Flags, p: Bytes)
    requires IsAead(enc)
  {
    exists em :: em in ems && FrameOf(enc, em) == frame && Reads(ring, em)
                 && h == em.header && f == FlagsFor(em) && p == em.payload
  }

  /** The exact acceptance condition of `open`, in both modes. */
  lemma AcceptedIffEmitted(enc: Cipher, ems: seq<Emission>, ring: Ring, frame: Bytes, h: Header, f: Flags, p: Bytes)
    requires IsAead(enc) && DeksOnce(ems)
    ensures OpenVerdict(enc, AllCalls(enc, ems), ring, frame) == Accepted(h, f, p)
            <==> Explained(enc, ems, ring, frame, h, f, p)
  {
    var log := AllCalls(enc, ems);
    if OpenVerdict(enc, log, ring, frame) == Accepted(h, f, p) {
      var key := ring.keys[SlotOf(frame)];
      var em;
      if IsDek(frame) {
        em := FannedProvenance(enc, ems, key, frame);
      } else {
        em := StandardProvenance(enc, ems, key, frame);
      }
      FrameParts(enc, em);
      assert Reads(ring, em);
    }
    if Explained(enc, ems, ring, frame, h, f, p) {
      var em :| em in ems && FrameOf(enc, em) == frame && Reads(ring, em)
                && h == em.header && f == FlagsFor(em) && p == em.payload;
      EmittedOpens(enc, ems, ring, em);
    }
  }
}
