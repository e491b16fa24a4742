/** Standard frames (src/standard.rs): one AEAD call under the link key, 37 bytes of overhead. */
module StandardMode {
  import opened Bytes
  import opened Codec
  import opened Sodium
  import opened KeyStores
  import Stats

  const OVERHEAD := PREFIX_LEN + NPUBBYTES + ABYTES
  const MAX_UDP_DATAGRAM := 65507
  const MAX_PAYLOAD := MAX_UDP_DATAGRAM - OVERHEAD

  datatype SealError =
    | PayloadTooLarge(len: nat)
    | OutputTooSmall(needed: nat, actual: nat)
    | NoKey
    | Sodium(cause: SodiumError)

  /** `frame_aad`: the first nine bytes of the frame itself. */
  function FrameAad(frame: Bytes): Option<Bytes> {
    if |frame| >= PREFIX_LEN then Some(frame[..PREFIX_LEN]) else None
  }

  /** Prefix | nonce | ciphertext and tag. */
  function StandardFrame(enc: Cipher, h: Header, epoch: Epoch, key: Key, nonce: Nonce, payload: Bytes): (r: Bytes)
    requires IsAead(enc)
    ensures |r| == |payload| + OVERHEAD
  {
    var prefix := SerializePrefix(h, Flags(Standard, epoch));
    prefix + nonce + enc(key, nonce, prefix, payload)
  }

  function StandardCall(h: Header, epoch: Epoch, key: Key, nonce: Nonce, payload: Bytes): Call {
    Call(key, nonce, SerializePrefix(h, Flags(Standard, epoch)), payload)
  }

  /** Which of the three typed refusals applies, if any. */
  function Refusal(ring: Ring, toId: U16, epoch: Epoch, payload: Bytes, room: nat): Option<SealError> {
    if |payload| > MAX_PAYLOAD then Some(PayloadTooLarge(|payload|))
    else if room < |payload| + OVERHEAD then Some(OutputTooSmall(|payload| + OVERHEAD, room))
    else if Slot(toId, epoch) !in ring.keys then Some(NoKey)
    else None
  }

  /** `seal_core`, writing the frame into the front of the caller's buffer. */
  method Seal(store: KeyStore, aead: Aead, toId: U16, channel: U32, epoch: Epoch, payload: Bytes,
              nonce: Nonce, out: array<Byte>)
    returns (r: Result<nat, SealError>)
    requires store.Valid() && IsAead(aead.enc)
    modifies aead, out
    ensures match Refusal(store.Meaning(), toId, epoch, payload, out.Length)
            case Some(e) => r == Err(e) && out[..] == old(out[..]) && aead.log == old(aead.log)
            case None =>
              var h := Header(store.localId, toId, channel);
              var key := store.Meaning().keys[Slot(toId, epoch)];
              && r == Ok(|payload| + OVERHEAD)
              && out[..] == StandardFrame(aead.enc, h, epoch, key, nonce, payload) + old(out[|payload| + OVERHEAD..])
              && aead.log == old(aead.log) + {StandardCall(h, epoch, key, nonce, payload)}
  {
    if |payload| > MAX_PAYLOAD {
      return Err(PayloadTooLarge(|payload|));
    }
    var frameLen := |payload| + OVERHEAD;
    if out.Length < frameLen {
      return Err(OutputTooSmall(frameLen, out.Length));
    }
    var stored := store.Get(toId, epoch);
    if stored.None? {
      return Err(NoKey);
    }
    var header := Header(store.localId, toId, channel);
    var flags := Flags(Standard, epoch);
    var prefix := SerializePrefix(header, flags);
    ghost var tail := out[frameLen..];
    Store(out, 0, prefix);
    Store(out, PREFIX_LEN, nonce);
    assert out[..PREFIX_LEN] == prefix;
    assert out[..21] == prefix + nonce;
    assert out[frameLen..] == tail;
    var written := aead.Encrypt(stored.value, nonce, out[..PREFIX_LEN], payload, out, PREFIX_LEN + NPUBBYTES, out.Length);
    return Ok(frameLen);
  }

  // ----- the receive gates -----

  datatype Verdict =
    | Accepted(header: Header, flags: Flags, payload: Bytes)
    | Dropped(reason: Stats.RejectReason)
    | Uncounted

  /** What a verdict does to the counters: a drop records its one reason, nothing else moves. */
  function Recorded(s: Stats.StatsState, v: Verdict): Stats.StatsState {
    if v.Dropped? then Stats.Reject(s, v.reason) else s
  }

  /** The reason recorded for a failed key lookup. */
  function KeyMiss(ring: Ring, peer: U16): Stats.RejectReason {
    if PeerKnown(ring.keys, peer) then Stats.NoEpoch else Stats.NoPeer
  }

  /** The authenticated content of a standard frame, if its tag verifies under `key`. */
  function StandardContent(enc: Cipher, log: Log, key: Key, frame: Bytes): (r: Option<Bytes>)
    requires IsAead(enc) && |frame| >= OVERHEAD
    ensures r.Some? ==> |r.value| == |frame| - OVERHEAD
  {
    Decrypt(enc, log, key, frame[9..21], frame[..9], frame[21..])
  }

  /** `standard::open` with `room` bytes of output, as a function. */
  function StandardVerdict(enc: Cipher, log: Log, ring: Ring, frame: Bytes, room: nat): Verdict
    requires IsAead(enc)
  {
    match ParsePrefix(frame)
    case Err(e) => Dropped(Stats.FromCodec(e))
    case Ok((header, flags)) =>
      if header.toId != ring.localId then Dropped(Stats.Plaintext)
      else if flags.mode != Standard then Uncounted
      else if |frame| < OVERHEAD then Dropped(Stats.LenMismatch)
      else if Slot(header.fromId, flags.epoch) !in ring.keys then Dropped(KeyMiss(ring, header.fromId))
      else if room < |frame| - OVERHEAD then Uncounted
      else
        match StandardContent(enc, log, ring.keys[Slot(header.fromId, flags.epoch)], frame)
        case None => Dropped(Stats.AuthFailed)
        case Some(payload) => Accepted(header, flags, payload)
  }

  /** `standard::open`; `Err` carries nothing, as the single opaque rejection does. */
  method Open(store: KeyStore, aead: Aead, cells: Stats.Cells, frame: Bytes, out: array<Byte>)
    returns (r: Result<(Header, Flags, nat), ()>)
    requires store.Valid() && IsAead(aead.enc)
    modifies cells, out
    ensures var v := StandardVerdict(aead.enc, aead.log, store.Meaning(), frame, out.Length);
            && cells.State() == Recorded(old(cells.State()), v)
            && match v
               case Accepted(h, f, payload) =>
                 r == Ok((h, f, |payload|)) && |payload| <= out.Length && out[..] == payload + old(out[|payload|..])
               case Dropped(reason) =>
                 && r == Err(())
                 && if reason == Stats.AuthFailed then
                      OVERHEAD <= |frame| <= out.Length + OVERHEAD
                      && out[..] == Zeros(|frame| - OVERHEAD) + old(out[|frame| - OVERHEAD..])
                    else out[..] == old(out[..])
               case Uncounted => r == Err(()) && out[..] == old(out[..])
  {
    var header, flags;
    match ParsePrefix(frame) {
      case Ok((h, f)) => header, flags := h, f;
      case Err(e) =>
        cells.RecordReject(Stats.FromCodec(e));
        return Err(());
    }
    if header.toId != store.localId {
      cells.RecordReject(Stats.Plaintext);
      return Err(());
    }
    if flags.mode != Standard {
      return Err(());
    }
    if |frame| < OVERHEAD {
      cells.RecordReject(Stats.LenMismatch);
      return Err(());
    }
    var stored := store.Get(header.fromId, flags.epoch);
    if stored.None? {
      cells.RecordReject(if store.IsPeerKnown(header.fromId) then Stats.NoEpoch else Stats.NoPeer);
      return Err(());
    }
    var aad := FrameAad(frame);
    var res := aead.Open(stored.value, frame[9..21], aad.value, frame[21..], out);
    match res {
      case Ok(n) => r := Ok((header, flags, n));
      case Err(AuthFailed) =>
        cells.RecordReject(Stats.AuthFailed);
        r := Err(());
      case Err(_) => r := Err(());
    }
  }
}
