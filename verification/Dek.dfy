/** Reusable-DEK fanout and the receive dispatch (src/dek.rs): 97 bytes of overhead. */
module DekMode {
  import opened Bytes
  import opened Codec
  import opened Sodium
  import opened KeyStores
  import opened StandardMode
  import Stats

  const UDP_DATAGRAM_MAX := 65507
  const ENVELOPE_LEN := KEYBYTES + ABYTES
  const BODY_START := PREFIX_LEN + NPUBBYTES + ENVELOPE_LEN
  const DEK_OVERHEAD := BODY_START + NPUBBYTES + ABYTES
  const DEK_MAX_PAYLOAD := UDP_DATAGRAM_MAX - DEK_OVERHEAD

  datatype DekSealError =
    | Oversize(len: nat)
    | NoPsk
    | EmptyRecipients
    | DuplicateRecipient(peer: U16)
    | Internal

  datatype FanoutFrame = FanoutFrame(toId: U16, epoch: Epoch, frame: Bytes)

  datatype Selected = Selected(toId: U16, epoch: Epoch, key: Key)

  function BodyAad(fromId: U16, channel: U32): (r: Bytes)
    ensures |r| == 7
  {
    Be16(fromId) + Be32(channel) + [0x05]
  }

  /** The body is bound to exactly what the prefixes of all its frames share: source, channel, and the flags
      byte without its epoch. */
  lemma BodyAadIsShared(fromId: U16, toId: U16, channel: U32, epoch: Epoch)
    ensures var p := SerializePrefix(Header(fromId, toId, channel), Flags(Dek, epoch));
            BodyAad(fromId, channel) == p[..2] + p[4..8] + [p[8] % 8]
  {
    var p := SerializePrefix(Header(fromId, toId, channel), Flags(Dek, epoch));
    assert p[..2] == Be16(fromId) && p[4..8] == Be32(channel);
    assert p[8] == 5 + 8 * epoch;
  }

  /** So it determines them. */
  lemma BodyAadInjective(from1: U16, channel1: U32, from2: U16, channel2: U32)
    requires BodyAad(from1, channel1) == BodyAad(from2, channel2)
    ensures from1 == from2 && channel1 == channel2
  {
    var a, b := BodyAad(from1, channel1), BodyAad(from2, channel2);
    assert a[..2] == Be16(from1) && a[2..6] == Be32(channel1);
    assert b[..2] == Be16(from2) && b[2..6] == Be32(channel2);
    Be16RoundTrip(from1);
    Be16RoundTrip(from2);
    Be32RoundTrip(channel1);
    Be32RoundTrip(channel2);
  }

  function EnvelopeAad(prefix: Bytes, bodyNonce: Nonce, bodyTag: Bytes): (r: Bytes)
    requires |prefix| == PREFIX_LEN && |bodyTag| == ABYTES
    ensures |r| == 37
  {
    prefix + bodyNonce + bodyTag
  }

  // ----- sealing -----

  /** The body every frame of one fanout carries: nonce, ciphertext, tag. */
  function Body(enc: Cipher, fromId: U16, channel: U32, dek: Key, bodyNonce: Nonce, payload: Bytes): (r: Bytes)
    requires IsAead(enc)
    ensures |r| == NPUBBYTES + |payload| + ABYTES
  {
    bodyNonce + enc(dek, bodyNonce, BodyAad(fromId, channel), payload)
  }

  function Tag(b: Bytes): (r: Bytes)
    requires |b| >= ABYTES
    ensures |r| == ABYTES
  {
    b[|b| - ABYTES..]
  }

  function BodyCall(fromId: U16, channel: U32, dek: Key, bodyNonce: Nonce, payload: Bytes): Call {
    Call(dek, bodyNonce, BodyAad(fromId, channel), payload)
  }

  function EnvelopeCall(enc: Cipher, h: Header, epoch: Epoch, key: Key, envelopeNonce: Nonce,
                        dek: Key, bodyNonce: Nonce, payload: Bytes): Call
    requires IsAead(enc)
  {
    var body := Body(enc, h.fromId, h.channel, dek, bodyNonce, payload);
    Call(key, envelopeNonce, EnvelopeAad(SerializePrefix(h, Flags(Dek, epoch)), bodyNonce, Tag(body)), dek)
  }

  /** Prefix | envelope nonce | sealed DEK and tag | body. */
  function DekFrame(enc: Cipher, h: Header, epoch: Epoch, key: Key, envelopeNonce: Nonce,
                    dek: Key, bodyNonce: Nonce, payload: Bytes): (r: Bytes)
    requires IsAead(enc)
    ensures |r| == |payload| + DEK_OVERHEAD
    ensures r[BODY_START..] == Body(enc, h.fromId, h.channel, dek, bodyNonce, payload)
  {
    var c := EnvelopeCall(enc, h, epoch, key, envelopeNonce, dek, bodyNonce, payload);
    SerializePrefix(h, Flags(Dek, epoch)) + envelopeNonce + enc(key, envelopeNonce, c.aad, dek)
    + Body(enc, h.fromId, h.channel, dek, bodyNonce, payload)
  }

  /** `dek::seal`: one recipient, always a standard frame. */
  method Seal(store: KeyStore, aead: Aead, toId: U16, channel: U32, epoch: Epoch, payload: Bytes, nonce: Nonce)
    returns (r: Result<Bytes, DekSealError>)
    requires store.Valid() && IsAead(aead.enc)
    modifies aead
    ensures if |payload| > MAX_PAYLOAD then r == Err(Oversize(|payload|)) && aead.log == old(aead.log)
            else if Slot(toId, epoch) !in store.Meaning().keys then r == Err(NoPsk) && aead.log == old(aead.log)
            else
              var h := Header(store.localId, toId, channel);
              var key := store.Meaning().keys[Slot(toId, epoch)];
              && r == Ok(StandardFrame(aead.enc, h, epoch, key, nonce, payload))
              && aead.log == old(aead.log) + {StandardCall(h, epoch, key, nonce, payload)}
  {
    if |payload| > MAX_PAYLOAD {
      return Err(Oversize(|payload|));
    }
    var frame := new Byte[|payload| + OVERHEAD];
    var res := StandardMode.Seal(store, aead, toId, channel, epoch, payload, nonce, frame);
    match res {
      case Ok(_) =>
        assert frame[..][..|payload| + OVERHEAD] == frame[..];
        r := Ok(frame[..]);
      case Err(NoKey) => r := Err(NoPsk);
      case Err(_) => r := Err(Internal);
    }
  }

  predicate Distinct(s: seq<U16>) {
    forall i, j :: 0 <= i < j < |s| ==> s[i] != s[j]
  }

  /** Every recipient is listed once and has a current key. */
  predicate Servable(ring: Ring, recipients: seq<U16>) {
    Distinct(recipients) && forall i :: 0 <= i < |recipients| ==> PeerKnown(ring.keys, recipients[i])
  }

  function SelectOne(ring: Ring, toId: U16): Selected
    requires PeerKnown(ring.keys, toId)
  {
    var e := Current(ring.keys, toId).value;
    Selected(toId, e, ring.keys[Slot(toId, e)])
  }

  function SelectAll(ring: Ring, recipients: seq<U16>): (r: seq<Selected>)
    requires Servable(ring, recipients)
    ensures |r| == |recipients|
    ensures forall i :: 0 <= i < |recipients| ==> r[i] == SelectOne(ring, recipients[i])
  {
    seq(|recipients|, i requires 0 <= i < |recipients| => SelectOne(ring, recipients[i]))
  }

  /** Recipient `i` is the first that is listed twice or has no key. */
  predicate Offends(ring: Ring, recipients: seq<U16>, i: nat) {
    && i < |recipients| && Servable(ring, recipients[..i])
    && (recipients[i] in recipients[..i] || !PeerKnown(ring.keys, recipients[i]))
  }

  /** The refusal `e` is due: no recipients, then size, then the first offending recipient. */
  ghost predicate Refuses(ring: Ring, recipients: seq<U16>, payload: Bytes, e: DekSealError) {
    if recipients == [] then e == EmptyRecipients
    else if |payload| > DEK_MAX_PAYLOAD then e == Oversize(|payload|)
    else
      exists i: nat :: Offends(ring, recipients, i)
                  && e == if recipients[i] in recipients[..i] then DuplicateRecipient(recipients[i]) else NoPsk
  }

  lemma OnlyOneOffends(ring: Ring, recipients: seq<U16>, i: nat, j: nat)
    requires Offends(ring, recipients, i) && Offends(ring, recipients, j)
    ensures i == j
  {
    if i < j {
      OffenceIsNotServable(ring, recipients, i, j);
    } else if j < i {
      OffenceIsNotServable(ring, recipients, j, i);
    }
  }

  lemma OffenceIsNotServable(ring: Ring, recipients: seq<U16>, i: nat, n: nat)
    requires Offends(ring, recipients, i) && i < n <= |recipients|
    ensures !Servable(ring, recipients[..n])
  {
    assert recipients[..n][i] == recipients[i];
    if recipients[i] in recipients[..i] {
      var k :| 0 <= k < i && recipients[..i][k] == recipients[i];
      assert recipients[..n][k] == recipients[..n][i];
    }
  }

  /** At most one refusal is due, and none when the fanout can be served. */
  lemma RefusalIsDetermined(ring: Ring, recipients: seq<U16>, payload: Bytes, e: DekSealError, f: DekSealError)
    requires Refuses(ring, recipients, payload, e) && Refuses(ring, recipients, payload, f)
    ensures e == f
    ensures !(recipients != [] && |payload| <= DEK_MAX_PAYLOAD && Servable(ring, recipients))
  {
    if recipients != [] && |payload| <= DEK_MAX_PAYLOAD {
      var i: nat :| Offends(ring, recipients, i)
               && e == if recipients[i] in recipients[..i] then DuplicateRecipient(recipients[i]) else NoPsk;
      var j: nat :| Offends(ring, recipients, j)
               && f == if recipients[j] in recipients[..j] then DuplicateRecipient(recipients[j]) else NoPsk;
      OnlyOneOffends(ring, recipients, i, j);
      OffenceIsNotServable(ring, recipients, i, |recipients|);
      assert recipients[..|recipients|] == recipients;
    }
  }

  /** `select_fanout`: all-or-nothing validation, in recipient order. */
  method SelectFanout(store: KeyStore, recipients: seq<U16>, payload: Bytes)
    returns (r: Result<seq<Selected>, DekSealError>)
    requires store.Valid()
    ensures r.Ok? <==> recipients != [] && |payload| <= DEK_MAX_PAYLOAD && Servable(store.Meaning(), recipients)
    ensures r.Ok? ==> r.value == SelectAll(store.Meaning(), recipients)
    ensures r.Err? ==> Refuses(store.Meaning(), recipients, payload, r.error)
  {
    if recipients == [] {
      return Err(EmptyRecipients);
    }
    if |payload| > DEK_MAX_PAYLOAD {
      return Err(Oversize(|payload|));
    }
    var seen: set<U16> := {};
    var selected: seq<Selected> := [];
    var i := 0;
    while i < |recipients|
      invariant 0 <= i <= |recipients| && |selected| == i
      invariant forall p :: p in seen <==> p in recipients[..i]
      invariant Servable(store.Meaning(), recipients[..i])
      invariant forall j :: 0 <= j < i ==> selected[j] == SelectOne(store.Meaning(), recipients[j])
    {
      var toId := recipients[i];
      if toId in seen {
        assert exists j :: 0 <= j < i && recipients[j] == recipients[i];
        assert Offends(store.Meaning(), recipients, i);
        return Err(DuplicateRecipient(toId));
      }
      seen := seen + {toId};
      var current := store.GetCurrent(toId);
      if current.None? {
        assert Offends(store.Meaning(), recipients, i);
        return Err(NoPsk);
      }
      selected := selected + [Selected(toId, current.value.0, current.value.1)];
      assert recipients[..i + 1] == recipients[..i] + [toId];
      i := i + 1;
    }
    assert recipients[..i] == recipients;
    return Ok(selected);
  }

  /** The calls one fanout makes: the body once and an envelope per recipient. */
  function FanoutCalls(enc: Cipher, fromId: U16, sel: seq<Selected>, channel: U32, payload: Bytes,
                       dek: Key, bodyNonce: Nonce, nonces: seq<Nonce>): Log
    requires IsAead(enc) && |nonces| == |sel|
  {
    if sel == [] then {BodyCall(fromId, channel, dek, bodyNonce, payload)}
    else
      var n := |sel| - 1;
      FanoutCalls(enc, fromId, sel[..n], channel, payload, dek, bodyNonce, nonces[..n])
      + {EnvelopeCall(enc, Header(fromId, sel[n].toId, channel), sel[n].epoch, sel[n].key, nonces[n], dek, bodyNonce, payload)}
  }

  function FanoutFrameOf(enc: Cipher, fromId: U16, s: Selected, channel: U32, payload: Bytes,
                         dek: Key, bodyNonce: Nonce, nonce: Nonce): FanoutFrame
    requires IsAead(enc)
  {
    FanoutFrame(s.toId, s.epoch,
                DekFrame(enc, Header(fromId, s.toId, channel), s.epoch, s.key, nonce, dek, bodyNonce, payload))
  }

  /** `seal_fanout_core`: one body, then one frame per selected recipient. */
  method SealFanoutCore(aead: Aead, localId: U16, selected: seq<Selected>, channel: U32, payload: Bytes,
                        dek: Key, bodyNonce: Nonce, nonces: seq<Nonce>)
    returns (frames: seq<FanoutFrame>)
    requires IsAead(aead.enc) && |nonces| == |selected|
    modifies aead
    ensures |frames| == |selected|
    ensures forall i :: 0 <= i < |frames| ==>
              frames[i] == FanoutFrameOf(aead.enc, localId, selected[i], channel, payload, dek, bodyNonce, nonces[i])
    ensures aead.log == old(aead.log) + FanoutCalls(aead.enc, localId, selected, channel, payload, dek, bodyNonce, nonces)
  {
    var body := SealBody(aead, localId, channel, payload, dek, bodyNonce);
    frames := [];
    var i := 0;
    while i < |selected|
      invariant 0 <= i <= |selected| && |frames| == i
      invariant forall j :: 0 <= j < i ==>
                  frames[j] == FanoutFrameOf(aead.enc, localId, selected[j], channel, payload, dek, bodyNonce, nonces[j])
      invariant aead.log == old(aead.log)
                + FanoutCalls(aead.enc, localId, selected[..i], channel, payload, dek, bodyNonce, nonces[..i])
    {
      var frame := SealEnvelope(aead, Header(localId, selected[i].toId, channel), selected[i], payload, dek,
                                bodyNonce, nonces[i], body);
      frames := frames + [FanoutFrame(selected[i].toId, selected[i].epoch, frame)];
      assert selected[..i + 1][..i] == selected[..i] && nonces[..i + 1][..i] == nonces[..i];
      i := i + 1;
    }
    assert selected[..i] == selected && nonces[..i] == nonces;
  }

  /** The shared body, sealed once into one buffer. */
  method SealBody(aead: Aead, localId: U16, channel: U32, payload: Bytes, dek: Key, bodyNonce: Nonce)
    returns (r: Bytes)
    requires IsAead(aead.enc)
    modifies aead
    ensures r == Body(aead.enc, localId, channel, dek, bodyNonce, payload)
    ensures aead.log == old(aead.log) + {BodyCall(localId, channel, dek, bodyNonce, payload)}
  {
    var body := new Byte[NPUBBYTES + |payload| + ABYTES];
    Store(body, 0, bodyNonce);
    assert body[..NPUBBYTES] == bodyNonce;
    var written := aead.Encrypt(dek, bodyNonce, BodyAad(localId, channel), payload, body, NPUBBYTES, body.Length);
    r := body[..];
    assert r == Body(aead.enc, localId, channel, dek, bodyNonce, payload);
  }

  /** One iteration of the fanout loop: wrap the DEK for one recipient and append the shared body. */
  method SealEnvelope(aead: Aead, header: Header, s: Selected, payload: Bytes, dek: Key, bodyNonce: Nonce,
                      nonce: Nonce, body: Bytes)
    returns (frame: Bytes)
    requires IsAead(aead.enc) && header.toId == s.toId
    requires body == Body(aead.enc, header.fromId, header.channel, dek, bodyNonce, payload)
    modifies aead
    ensures frame == DekFrame(aead.enc, header, s.epoch, s.key, nonce, dek, bodyNonce, payload)
    ensures aead.log == old(aead.log)
                        + {EnvelopeCall(aead.enc, header, s.epoch, s.key, nonce, dek, bodyNonce, payload)}
  {
    var prefix := SerializePrefix(header, Flags(Dek, s.epoch));
    var aad := EnvelopeAad(prefix, bodyNonce, body[|body| - ABYTES..]);
    var head := new Byte[BODY_START];
    Store(head, 0, prefix);
    Store(head, PREFIX_LEN, nonce);
    assert head[..21] == prefix + nonce;
    var written := aead.Encrypt(s.key, nonce, aad, dek, head, PREFIX_LEN + NPUBBYTES, BODY_START);
    frame := head[..] + body;
  }

  /** `seal_fanout`; the random draws are parameters. */
  method SealFanout(store: KeyStore, aead: Aead, recipients: seq<U16>, channel: U32, payload: Bytes,
                    dek: Key, bodyNonce: Nonce, nonces: seq<Nonce>)
    returns (r: Result<seq<FanoutFrame>, DekSealError>)
    requires store.Valid() && IsAead(aead.enc) && |nonces| == |recipients|
    modifies aead
    ensures r.Ok? <==> recipients != [] && |payload| <= DEK_MAX_PAYLOAD && Servable(store.Meaning(), recipients)
    ensures r.Err? ==> Refuses(store.Meaning(), recipients, payload, r.error) && aead.log == old(aead.log)
    ensures r.Ok? ==>
              var selected := SelectAll(store.Meaning(), recipients);
              && |r.value| == |recipients|
              && (forall i :: 0 <= i < |recipients| ==>
                    r.value[i] == FanoutFrameOf(aead.enc, store.localId, selected[i], channel, payload, dek, bodyNonce, nonces[i]))
              && aead.log == old(aead.log)
                 + FanoutCalls(aead.enc, store.localId, selected, channel, payload, dek, bodyNonce, nonces)
  {
    var sel := SelectFanout(store, recipients, payload);
    match sel {
      case Err(e) => r := Err(e);
      case Ok(selected) =>
        var frames := SealFanoutCore(aead, store.localId, selected, channel, payload, dek, bodyNonce, nonces);
        r := Ok(frames);
    }
  }

  // ----- receiving: the gates, as a table -----

  datatype Gate = Gate(passes: bool, reason: Stats.RejectReason)

  function FirstFailing(gates: seq<Gate>): (r: Option<Stats.RejectReason>)
    ensures r.None? <==> forall i :: 0 <= i < |gates| ==> gates[i].passes
  {
    if gates == [] then None
    else if !gates[0].passes then Some(gates[0].reason)
    else FirstFailing(gates[1..])
  }

  /** The first failing gate is the one all of whose predecessors pass. */
  lemma {:induction false} FirstFailingAt(gates: seq<Gate>, k: nat)
    requires k < |gates| && !gates[k].passes && forall i :: 0 <= i < k ==> gates[i].passes
    ensures FirstFailing(gates) == Some(gates[k].reason)
  {
    if k > 0 {
      assert forall i :: 0 <= i < |gates[1..]| ==> gates[1..][i] == gates[i + 1];
      FirstFailingAt(gates[1..], k - 1);
    }
  }

  predicate GoodPrefix(frame: Bytes) {
    ParsePrefix(frame).Ok?
  }

  function HeaderOf(frame: Bytes): Header
    requires GoodPrefix(frame)
  {
    ParsePrefix(frame).value.0
  }

  function FlagsOf(frame: Bytes): Flags
    requires GoodPrefix(frame)
  {
    ParsePrefix(frame).value.1
  }

  /** The slot the frame claims to be sealed under. */
  function SlotOf(frame: Bytes): Slot
    requires GoodPrefix(frame)
  {
    Slot(HeaderOf(frame).fromId, FlagsOf(frame).epoch)
  }

  /** Both openings of a reusable-DEK frame: the envelope under `key`, then the body under what it held. */
  function DekContent(enc: Cipher, log: Log, key: Key, frame: Bytes): (r: Option<Bytes>)
    requires IsAead(enc) && |frame| >= DEK_OVERHEAD && GoodPrefix(frame)
    ensures r.Some? ==> |r.value| == |frame| - DEK_OVERHEAD
  {
    match Decrypt(enc, log, key, frame[9..21], EnvelopeAad(frame[..9], frame[69..81], Tag(frame)), frame[21..69])
    case None => None
    case Some(dek) =>
      Decrypt(enc, log, dek, frame[69..81], BodyAad(HeaderOf(frame).fromId, HeaderOf(frame).channel), frame[81..])
  }

  predicate IsDek(frame: Bytes) {
    GoodPrefix(frame) && FlagsOf(frame).mode.Dek?
  }

  function Overhead(frame: Bytes): nat {
    if IsDek(frame) then DEK_OVERHEAD else OVERHEAD
  }

  /** What authenticates in `frame` under `key`, by its mode. */
  function Content(enc: Cipher, log: Log, key: Key, frame: Bytes): (r: Option<Bytes>)
    requires IsAead(enc) && GoodPrefix(frame) && |frame| >= Overhead(frame)
    ensures r.Some? ==> |r.value| == |frame| - Overhead(frame)
  {
    if IsDek(frame) then DekContent(enc, log, key, frame) else StandardContent(enc, log, key, frame)
  }

  predicate ForUs(ring: Ring, frame: Bytes) {
    GoodPrefix(frame) && HeaderOf(frame).toId == ring.localId
  }

  predicate PeerOk(ring: Ring, frame: Bytes) {
    GoodPrefix(frame) && PeerKnown(ring.keys, HeaderOf(frame).fromId)
  }

  predicate EpochOk(ring: Ring, frame: Bytes) {
    GoodPrefix(frame) && SlotOf(frame) in ring.keys
  }

  predicate Authentic(enc: Cipher, log: Log, ring: Ring, frame: Bytes)
    requires IsAead(enc)
  {
    EpochOk(ring, frame) && |frame| >= Overhead(frame) && Content(enc, log, ring.keys[SlotOf(frame)], frame).Some?
  }

  /** The gates in the order each mode applies them: a standard frame is tested for address before
      size, a reusable-DEK frame for size before address. */
  function Gates(enc: Cipher, log: Log, ring: Ring, frame: Bytes): seq<Gate>
    requires IsAead(enc)
  {
    var address := Gate(ForUs(ring, frame), Stats.Plaintext);
    [ Gate(|frame| >= PREFIX_LEN, Stats.TooShort),
      Gate(GoodPrefix(frame), Stats.BadFlags),
      if IsDek(frame) then Gate(|frame| >= DEK_OVERHEAD, Stats.TooShort) else address,
      if IsDek(frame) then address else Gate(|frame| >= OVERHEAD, Stats.LenMismatch),
      Gate(PeerOk(ring, frame), Stats.NoPeer),
      Gate(EpochOk(ring, frame), Stats.NoEpoch),
      Gate(Authentic(enc, log, ring, frame), Stats.AuthFailed) ]
  }

  /** Every gate passed: the frame is this node's to open. */
  predicate Acceptable(enc: Cipher, log: Log, ring: Ring, frame: Bytes)
    requires IsAead(enc)
  {
    ForUs(ring, frame) && Authentic(enc, log, ring, frame)
  }

  lemma GateList(enc: Cipher, log: Log, ring: Ring, frame: Bytes)
    requires IsAead(enc)
    ensures FirstFailing(Gates(enc, log, ring, frame)).None? <==> Acceptable(enc, log, ring, frame)
  {
    var gates := Gates(enc, log, ring, frame);
    if FirstFailing(gates).None? {
      assert gates[0].passes && gates[1].passes && gates[2].passes && gates[3].passes;
      assert gates[4].passes && gates[5].passes && gates[6].passes;
    }
    if Acceptable(enc, log, ring, frame) {
      assert SlotOf(frame) in ring.keys;
    }
  }

  /** The outcome of `dek::open`: the reason of the first failing gate, or the authenticated content. */
  function OpenVerdict(enc: Cipher, log: Log, ring: Ring, frame: Bytes): (v: Verdict)
    requires IsAead(enc)
    ensures !v.Uncounted?
    ensures v.Accepted? <==> Acceptable(enc, log, ring, frame)
  {
    GateList(enc, log, ring, frame);
    match FirstFailing(Gates(enc, log, ring, frame))
    case Some(reason) => Dropped(reason)
    case None => Accepted(HeaderOf(frame), FlagsOf(frame), Content(enc, log, ring.keys[SlotOf(frame)], frame).value)
  }

  /** The dispatch as the source nests it. */
  function NestedVerdict(enc: Cipher, log: Log, ring: Ring, frame: Bytes): Verdict
    requires IsAead(enc)
  {
    match ParsePrefix(frame)
    case Err(e) => Dropped(Stats.FromCodec(e))
    case Ok((header, flags)) =>
      if flags.mode.Standard? then StandardVerdict(enc, log, ring, frame, |frame|)
      else if |frame| < DEK_OVERHEAD then Dropped(Stats.TooShort)
      else if header.toId != ring.localId then Dropped(Stats.Plaintext)
      else if SlotOf(frame) !in ring.keys then Dropped(KeyMiss(ring, header.fromId))
      else
        match DekContent(enc, log, ring.keys[SlotOf(frame)], frame)
        case None => Dropped(Stats.AuthFailed)
        case Some(payload) => Accepted(header, flags, payload)
  }

  /** The nested tests of the source pick the first failing gate of the table. */
  lemma NestedIsFirstFailing(enc: Cipher, log: Log, ring: Ring, frame: Bytes)
    requires IsAead(enc)
    ensures NestedVerdict(enc, log, ring, frame) == OpenVerdict(enc, log, ring, frame)
  {
    var gates := Gates(enc, log, ring, frame);
    if EpochOk(ring, frame) {
      assert SlotOf(frame) in ring.keys;
    }
    if Acceptable(enc, log, ring, frame) {
      GateList(enc, log, ring, frame);
    } else {
      var k := if !gates[0].passes then 0 else if !gates[1].passes then 1 else if !gates[2].passes then 2
               else if !gates[3].passes then 3 else if !gates[4].passes then 4 else if !gates[5].passes then 5 else 6;
      FirstFailingAt(gates, k);
    }
  }

  /** Through the dispatch the uncounted arms of `standard::open` cannot be reached. */
  lemma DispatchAvoidsUncountedArms(enc: Cipher, log: Log, ring: Ring, frame: Bytes, room: nat)
    requires IsAead(enc) && !IsDek(frame) && room >= |frame| - OVERHEAD
    ensures StandardVerdict(enc, log, ring, frame, room) == OpenVerdict(enc, log, ring, frame)
    ensures !StandardVerdict(enc, log, ring, frame, room).Uncounted?
  {
    NestedIsFirstFailing(enc, log, ring, frame);
  }

  /** `dek::open`; `None` stands for every rejection alike. */
  method Open(store: KeyStore, aead: Aead, cells: Stats.Cells, frame: Bytes)
    returns (r: Option<(Header, Flags, Bytes)>)
    requires store.Valid() && IsAead(aead.enc)
    modifies cells
    ensures var v := OpenVerdict(aead.enc, aead.log, store.Meaning(), frame);
            && cells.State() == Recorded(old(cells.State()), v)
            && r == if v.Accepted? then Some((v.header, v.flags, v.payload)) else None
  {
    NestedIsFirstFailing(aead.enc, aead.log, store.Meaning(), frame);
    var header, flags;
    match ParsePrefix(frame) {
      case Ok((h, f)) => header, flags := h, f;
      case Err(e) =>
        cells.RecordReject(Stats.FromCodec(e));
        return None;
    }
    if flags.mode == Standard {
      var maxPayload := if |frame| < OVERHEAD then 0 else |frame| - OVERHEAD;
      var out := new Byte[maxPayload];
      DispatchAvoidsUncountedArms(aead.enc, aead.log, store.Meaning(), frame, maxPayload);
      var res := StandardMode.Open(store, aead, cells, frame, out);
      match res {
        case Ok((h, f, n)) => return Some((h, f, out[..n]));
        case Err(_) => return None;
      }
    }
    r := OpenDek(store, aead, cells, frame, header, flags);
  }

  method OpenDek(store: KeyStore, aead: Aead, cells: Stats.Cells, frame: Bytes, header: Header, flags: Flags)
    returns (r: Option<(Header, Flags, Bytes)>)
    requires store.Valid() && IsAead(aead.enc)
    requires ParsePrefix(frame) == Ok((header, flags)) && flags.mode.Dek?
    modifies cells
    ensures var v := OpenVerdict(aead.enc, aead.log, store.Meaning(), frame);
            && cells.State() == Recorded(old(cells.State()), v)
            && r == if v.Accepted? then Some((v.header, v.flags, v.payload)) else None
  {
    NestedIsFirstFailing(aead.enc, aead.log, store.Meaning(), frame);
    if |frame| < DEK_OVERHEAD {
      cells.RecordReject(Stats.TooShort);
      return None;
    }
    if header.toId != store.localId {
      cells.RecordReject(Stats.Plaintext);
      return None;
    }
    var stored := store.Get(header.fromId, flags.epoch);
    if stored.None? {
      cells.RecordReject(if store.IsPeerKnown(header.fromId) then Stats.NoEpoch else Stats.NoPeer);
      return None;
    }
    var payload := Unwrap(aead, stored.value, frame, header);
    match payload {
      case Some(plain) => r := Some((header, flags, plain));
      case None =>
        cells.RecordReject(Stats.AuthFailed);
        r := None;
    }
  }

  /** The two openings: the envelope into a key buffer, then the body into the output. */
  method Unwrap(aead: Aead, key: Key, frame: Bytes, header: Header) returns (r: Option<Bytes>)
    requires IsAead(aead.enc) && |frame| >= DEK_OVERHEAD && GoodPrefix(frame) && header == HeaderOf(frame)
    ensures r == DekContent(aead.enc, aead.log, key, frame)
  {
    var envelopeNonce, bodyNonce := frame[9..21], frame[69..81];
    var bodyTag := frame[|frame| - ABYTES..];
    var envelopeAad := EnvelopeAad(frame[..9], bodyNonce, bodyTag);
    var dek := new Byte[KEYBYTES];
    var res := aead.Open(key, envelopeNonce, envelopeAad, frame[21..69], dek);
    if res.Err? {
      return None;
    }
    assert Decrypt(aead.enc, aead.log, key, envelopeNonce, envelopeAad, frame[21..69]).value == dek[..];
    var out := new Byte[|frame| - DEK_OVERHEAD];
    res := aead.Open(dek[..], bodyNonce, BodyAad(header.fromId, header.channel), frame[81..], out);
    if res.Err? {
      return None;
    }
    assert Decrypt(aead.enc, aead.log, dek[..], bodyNonce, BodyAad(header.fromId, header.channel), frame[81..]).value == out[..];
    return Some(out[..]);
  }
}
