/** The C ABI session (src/ffi.rs): identity, keystore, counters and last error across any sequence of calls. */
module Sessions {
  import opened Bytes
  import opened Codec
  import opened Sodium
  import opened KeyStores
  import opened StandardMode
  import opened DekMode
  import Stats

  const RC_OK := 0
  const RC_OK_ABSENT := 1
  const RC_ERR := -1
  const RC_INVAL := -2
  const RC_DROP := -3

  /** What the last-error buffer was last written for. */
  datatype Complaint =
    | NodeIdRange | AlreadyConfigured | NotConfigured | PeerRange | EpochRange | KeyLength | StoreFull
    | DestinationRange | ReservedChannel | PayloadTooBig | NoKeyForPeer | FrameRoom | PayloadRoom | UnknownPolicy

  datatype SessionState = SessionState(ring: Option<Ring>, stats: Stats.StatsState, lastError: Option<Complaint>)

  const FRESH := SessionState(None, Stats.INITIAL, None)

  datatype Api =
    | SetLocalId(nodeId: U32)
    | KeystoreSet(peer: U32, epoch: U32, key: Bytes)
    | KeystoreRetire(peer: U32, epoch: U32)
    | KeystoreClear
    | Seal(payload: Bytes, toId: U32, channel: U32, room: nat, nonce: Nonce)
    | Open(frame: Bytes, room: nat)
    | FrameForUs(frame: Bytes)
    | PolicySet(policy: Option<Stats.FailPolicy>)
    | Shutdown
    | RecordFanned

  datatype Output = Nothing | Framed(frame: Bytes) | Opened(payload: Bytes, fromId: U16, channel: U32, mode: Mode)

  datatype Outcome = Outcome(rc: int, output: Output)

  // ----- argument checks -----

  function CheckU16(v: U32): Option<U16> {
    if v < 0x1_0000 then Some(v) else None
  }

  function CheckEpoch(v: U32): Option<Epoch> {
    if v < 0x100 then
      match NewEpoch(v) case Ok(e) => Some(e) case Err(_) => None
    else None
  }

  predicate ChannelReserved(v: U32) {
    1 <= v <= 99
  }

  // ----- the meaning of each call -----

  function Fail(s: SessionState, c: Complaint): (SessionState, Outcome) {
    (s.(lastError := Some(c)), Outcome(RC_ERR, Nothing))
  }

  function Invalid(s: SessionState, c: Complaint): (SessionState, Outcome) {
    (s.(lastError := Some(c)), Outcome(RC_INVAL, Nothing))
  }

  function Done(s: SessionState): (SessionState, Outcome) {
    (s, Outcome(RC_OK, Nothing))
  }

  function Counted(s: SessionState, c: Stats.Counters): SessionState {
    s.(stats := s.stats.(counters := c))
  }

  function CallSetLocalId(s: SessionState, nodeId: U32): (SessionState, Outcome) {
    if CheckU16(nodeId).None? then Invalid(s, NodeIdRange)
    else if s.ring.Some? then Invalid(s, AlreadyConfigured)
    else Done(s.(ring := Some(Ring(nodeId, map[]))))
  }

  function CallKeystoreSet(s: SessionState, peer: U32, epoch: U32, key: Bytes): (SessionState, Outcome) {
    if CheckU16(peer).None? then Invalid(s, PeerRange)
    else if CheckEpoch(epoch).None? then Invalid(s, EpochRange)
    else if |key| != KEYBYTES then Invalid(s, KeyLength)
    else if s.ring.None? then Fail(s, NotConfigured)
    else
      match Installed(s.ring.value.keys, Slot(peer, epoch), key)
      case Ok(keys) => Done(s.(ring := Some(s.ring.value.(keys := keys))))
      case Err(_) => Fail(s, StoreFull)
  }

  function CallKeystoreRetire(s: SessionState, peer: U32, epoch: U32): (SessionState, Outcome) {
    if CheckU16(peer).None? then Invalid(s, PeerRange)
    else if CheckEpoch(epoch).None? then Invalid(s, EpochRange)
    else if s.ring.None? then Fail(s, NotConfigured)
    else
      var keys := s.ring.value.keys;
      (s.(ring := Some(s.ring.value.(keys := keys - {Slot(peer, epoch)}))),
       Outcome(if Slot(peer, epoch) in keys then RC_OK else RC_OK_ABSENT, Nothing))
  }

  function CallKeystoreClear(s: SessionState): (SessionState, Outcome) {
    if s.ring.None? then Done(s) else Done(s.(ring := Some(s.ring.value.(keys := map[]))))
  }

  /** The frame `seal` makes, when it gets as far as sealing. */
  function SealedBy(enc: Cipher, ring: Ring, payload: Bytes, toId: U16, channel: U32, nonce: Nonce): Bytes
    requires IsAead(enc) && PeerKnown(ring.keys, toId)
  {
    var e := Current(ring.keys, toId).value;
    StandardFrame(enc, Header(ring.localId, toId, channel), e, ring.keys[Slot(toId, e)], nonce, payload)
  }

  /** The encryption a seal call makes: one as soon as the arguments are good and the peer has a key, even
      when the frame then does not fit the caller's buffer. */
  function SealCalls(ring: Option<Ring>, payload: Bytes, toId: U32, channel: U32, nonce: Nonce): Log {
    if CheckU16(toId).None? || ChannelReserved(channel) || |payload| > MAX_PAYLOAD || ring.None? then {}
    else
      match Current(ring.value.keys, toId)
      case None => {}
      case Some(e) =>
        {StandardCall(Header(ring.value.localId, toId, channel), e, ring.value.keys[Slot(toId, e)], nonce, payload)}
  }

  function CallSeal(enc: Cipher, s: SessionState, payload: Bytes, toId: U32, channel: U32, room: nat, nonce: Nonce)
    : (SessionState, Outcome)
    requires IsAead(enc)
  {
    if CheckU16(toId).None? then Invalid(s, DestinationRange)
    else if ChannelReserved(channel) then Invalid(s, ReservedChannel)
    else if |payload| > MAX_PAYLOAD then
      Fail(Counted(s, Stats.TxOversize(s.stats.counters)), PayloadTooBig)
    else if s.ring.None? then Fail(s, NotConfigured)
    else if !PeerKnown(s.ring.value.keys, toId) then Fail(s, NoKeyForPeer)
    else if room < |payload| + OVERHEAD then Invalid(s, FrameRoom)
    else
      (Counted(s, Stats.TxSealed(s.stats.counters, Standard)),
       Outcome(RC_OK, Framed(SealedBy(enc, s.ring.value, payload, toId, channel, nonce))))
  }

  function Delivered(s: SessionState, h: Header, f: Flags, payload: Bytes, room: nat): (r: (SessionState, Outcome))
    ensures r.1.output.Opened? ==> |payload| <= room && r.1.output.payload == payload
  {
    if |payload| > room then Invalid(s, PayloadRoom)
    else (Counted(s, Stats.RxOk(s.stats.counters)), Outcome(RC_OK, Opened(payload, h.fromId, h.channel, f.mode)))
  }

  function CallOpen(enc: Cipher, log: Log, s: SessionState, frame: Bytes, room: nat): (SessionState, Outcome)
    requires IsAead(enc)
  {
    if s.ring.None? then (s, Outcome(RC_DROP, Nothing))
    else
      match OpenVerdict(enc, log, s.ring.value, frame)
      case Accepted(h, f, payload) => Delivered(s, h, f, payload, room)
      case Dropped(reason) =>
        var t := s.(stats := Stats.Reject(s.stats, reason));
        (Counted(t, Stats.RxDrop(t.stats.counters)), Outcome(RC_DROP, Nothing))
      case Uncounted => (Counted(s, Stats.RxDrop(s.stats.counters)), Outcome(RC_DROP, Nothing))
  }

  /** Long enough for a prefix, and bytes 2-3 name this node. */
  predicate LooksOurs(localId: U16, frame: Bytes) {
    |frame| >= PREFIX_LEN && FromBe16(frame[2..4]) == localId
  }

  function CallFrameForUs(s: SessionState, frame: Bytes): (SessionState, Outcome) {
    if s.ring.None? then (s, Outcome(0, Nothing))
    else if LooksOurs(s.ring.value.localId, frame) then (s, Outcome(1, Nothing))
    else
      var t := Counted(s, Stats.RxDrop(s.stats.counters));
      (t.(stats := Stats.Reject(t.stats, Stats.Plaintext)), Outcome(0, Nothing))
  }

  function CallPolicySet(s: SessionState, policy: Option<Stats.FailPolicy>): (SessionState, Outcome) {
    if policy.None? then Invalid(s, UnknownPolicy) else Done(s.(stats := Stats.SetPolicy(s.stats, policy.value)))
  }

  function CallShutdown(s: SessionState): (SessionState, Outcome) {
    Done(SessionState(None, Stats.ResetMemo(s.stats), None))
  }

  function Call(enc: Cipher, log: Log, s: SessionState, c: Api): (SessionState, Outcome)
    requires IsAead(enc)
  {
    match c
    case SetLocalId(id) => CallSetLocalId(s, id)
    case KeystoreSet(peer, epoch, key) => CallKeystoreSet(s, peer, epoch, key)
    case KeystoreRetire(peer, epoch) => CallKeystoreRetire(s, peer, epoch)
    case KeystoreClear => CallKeystoreClear(s)
    case Seal(payload, toId, channel, room, nonce) => CallSeal(enc, s, payload, toId, channel, room, nonce)
    case Open(frame, room) => CallOpen(enc, log, s, frame, room)
    case FrameForUs(frame) => CallFrameForUs(s, frame)
    case PolicySet(policy) => CallPolicySet(s, policy)
    case Shutdown => CallShutdown(s)
    case RecordFanned => Done(Counted(s, Stats.TxSealed(s.stats.counters, Dek)))
  }

  /** One call of a run, with everything encrypted anywhere by the time it is made. */
  datatype Moment = Moment(call: Api, log: Log)

  function CallAll(enc: Cipher, s: SessionState, run: seq<Moment>): SessionState
    requires IsAead(enc)
    decreases run
  {
    if run == [] then s else CallAll(enc, Call(enc, run[0].log, s, run[0].call).0, run[1..])
  }

  // ----- the session object -----

  class Session {
    const aead: Aead
    const cells: Stats.Cells
    var store: KeyStore?
    var lastError: Option<Complaint>

    ghost predicate Valid()
      reads this, store, aead
    {
      IsAead(aead.enc) && (store != null ==> store.Valid())
    }

    ghost function State(): SessionState
      requires Valid()
      reads this, store, aead, cells
    {
      SessionState(if store == null then None else Some(store.Meaning()), cells.State(), lastError)
    }

    constructor (aead: Aead)
      requires IsAead(aead.enc)
      ensures Valid() && State() == FRESH && this.aead == aead && fresh(cells)
    {
      this.aead := aead;
      cells := new Stats.Cells();
      store := null;
      lastError := None;
    }

    method SetLocalIdCall(nodeId: U32) returns (r: Outcome)
      requires Valid()
      modifies this
      ensures Valid() && (State(), r) == CallSetLocalId(old(State()), nodeId)
      ensures store != old(store) ==> fresh(store)
    {
      var id := CheckU16(nodeId);
      if id.None? {
        lastError := Some(NodeIdRange);
        return Outcome(RC_INVAL, Nothing);
      }
      if store != null {
        lastError := Some(AlreadyConfigured);
        return Outcome(RC_INVAL, Nothing);
      }
      store := new KeyStore(id.value);
      return Outcome(RC_OK, Nothing);
    }

    method KeystoreSetCall(peer: U32, epoch: U32, key: Bytes) returns (r: Outcome)
      requires Valid()
      modifies this`lastError, store
      ensures Valid() && (State(), r) == CallKeystoreSet(old(State()), peer, epoch, key)
    {
      if CheckU16(peer).None? {
        lastError := Some(PeerRange);
        return Outcome(RC_INVAL, Nothing);
      }
      if CheckEpoch(epoch).None? {
        lastError := Some(EpochRange);
        return Outcome(RC_INVAL, Nothing);
      }
      if |key| != KEYBYTES {
        lastError := Some(KeyLength);
        return Outcome(RC_INVAL, Nothing);
      }
      if store == null {
        lastError := Some(NotConfigured);
        return Outcome(RC_ERR, Nothing);
      }
      var res := store.Install(peer, epoch, key);
      if res.Err? {
        lastError := Some(StoreFull);
        return Outcome(RC_ERR, Nothing);
      }
      return Outcome(RC_OK, Nothing);
    }

    method KeystoreRetireCall(peer: U32, epoch: U32) returns (r: Outcome)
      requires Valid()
      modifies this`lastError, store
      ensures Valid() && (State(), r) == CallKeystoreRetire(old(State()), peer, epoch)
    {
      if CheckU16(peer).None? {
        lastError := Some(PeerRange);
        return Outcome(RC_INVAL, Nothing);
      }
      if CheckEpoch(epoch).None? {
        lastError := Some(EpochRange);
        return Outcome(RC_INVAL, Nothing);
      }
      if store == null {
        lastError := Some(NotConfigured);
        return Outcome(RC_ERR, Nothing);
      }
      var removed := store.Retire(peer, epoch);
      return Outcome(if removed then RC_OK else RC_OK_ABSENT, Nothing);
    }

    method KeystoreClearCall() returns (r: Outcome)
      requires Valid()
      modifies store
      ensures Valid() && (State(), r) == CallKeystoreClear(old(State()))
    {
      if store != null {
        store.Clear();
      }
      return Outcome(RC_OK, Nothing);
    }

    method SealCall(payload: Bytes, toId: U32, channel: U32, out: array<Byte>, nonce: Nonce) returns (r: Outcome)
      requires Valid()
      modifies this`lastError, cells, aead, out
      ensures Valid() && (State(), r) == CallSeal(aead.enc, old(State()), payload, toId, channel, out.Length, nonce)
      ensures aead.log == old(aead.log) + SealCalls(old(State()).ring, payload, toId, channel, nonce)
      ensures out[..] == match r.output
                         case Framed(frame) => frame + old(out[|payload| + OVERHEAD..])
                         case _ => old(out[..])
    {
      if CheckU16(toId).None? {
        lastError := Some(DestinationRange);
        return Outcome(RC_INVAL, Nothing);
      }
      if ChannelReserved(channel) {
        lastError := Some(ReservedChannel);
        return Outcome(RC_INVAL, Nothing);
      }
      if |payload| > MAX_PAYLOAD {
        cells.RecordTxOversize();
        lastError := Some(PayloadTooBig);
        return Outcome(RC_ERR, Nothing);
      }
      if store == null {
        lastError := Some(NotConfigured);
        return Outcome(RC_ERR, Nothing);
      }
      var current := store.GetCurrent(toId);
      if current.None? {
        lastError := Some(NoKeyForPeer);
        return Outcome(RC_ERR, Nothing);
      }
      var res := DekMode.Seal(store, aead, toId, channel, current.value.0, payload, nonce);
      var frame := res.value;
      if |frame| > out.Length {
        lastError := Some(FrameRoom);
        return Outcome(RC_INVAL, Nothing);
      }
      Store(out, 0, frame);
      cells.RecordTxSealed(Standard);
      return Outcome(RC_OK, Framed(frame));
    }

    method OpenCall(frame: Bytes, out: array<Byte>) returns (r: Outcome)
      requires Valid()
      modifies this`lastError, cells, out
      ensures Valid() && (State(), r) == CallOpen(aead.enc, aead.log, old(State()), frame, out.Length)
      ensures out[..] == match r.output
                         case Opened(payload, _, _, _) => payload + old(out[..])[|payload|..]
                         case _ => old(out[..])
    {
      if store == null {
        return Outcome(RC_DROP, Nothing);
      }
      var res := DekMode.Open(store, aead, cells, frame);
      match res {
        case None =>
          cells.RecordRxDrop();
          return Outcome(RC_DROP, Nothing);
        case Some((h, f, plain)) =>
          r := Deliver(h, f, plain, out);
      }
    }

    /** Hand an accepted payload to the caller; a short buffer is the caller's error and is not counted. */
    method Deliver(h: Header, f: Flags, plain: Bytes, out: array<Byte>) returns (r: Outcome)
      requires Valid()
      modifies this`lastError, cells, out
      ensures Valid() && (State(), r) == Delivered(old(State()), h, f, plain, out.Length)
      ensures out[..] == if r.output.Opened? then plain + old(out[..])[|plain|..] else old(out[..])
    {
      if |plain| > out.Length {
        lastError := Some(PayloadRoom);
        return Outcome(RC_INVAL, Nothing);
      }
      Store(out, 0, plain);
      cells.RecordRxOk();
      return Outcome(RC_OK, Opened(plain, h.fromId, h.channel, f.mode));
    }

    method FrameForUsCall(frame: Bytes) returns (r: Outcome)
      requires Valid()
      modifies cells
      ensures Valid() && (State(), r) == CallFrameForUs(old(State()), frame)
    {
      if store == null {
        return Outcome(0, Nothing);
      }
      var toId := if |frame| >= 4 then FromBe16(frame[2..4]) else 0;
      if |frame| >= PREFIX_LEN && toId == store.localId {
        return Outcome(1, Nothing);
      }
      cells.RecordRxDrop();
      cells.RecordReject(Stats.Plaintext);
      return Outcome(0, Nothing);
    }

    method PolicySetCall(policy: Option<Stats.FailPolicy>) returns (r: Outcome)
      requires Valid()
      modifies this`lastError, cells
      ensures Valid() && (State(), r) == CallPolicySet(old(State()), policy)
    {
      match policy {
        case Some(p) =>
          cells.SelectPolicy(p);
          return Outcome(RC_OK, Nothing);
        case None =>
          lastError := Some(UnknownPolicy);
          return Outcome(RC_INVAL, Nothing);
      }
    }

    method ShutdownCall() returns (r: Outcome)
      requires Valid()
      modifies this, cells
      ensures Valid() && (State(), r) == CallShutdown(old(State()))
    {
      store := null;
      lastError := None;
      cells.ResetLogOnceMemo();
      return Outcome(RC_OK, Nothing);
    }
  }

  // ----- what every run keeps -----

  lemma OpenKeepsBalance(enc: Cipher, log: Log, s: SessionState, frame: Bytes, room: nat)
    requires IsAead(enc) && Stats.Balanced(s.stats.counters)
    ensures Stats.Balanced(CallOpen(enc, log, s, frame, room).0.stats.counters)
  {
    if s.ring.Some? && OpenVerdict(enc, log, s.ring.value, frame).Dropped? {
      Stats.DropKeepsBalance(s.stats.counters, OpenVerdict(enc, log, s.ring.value, frame).reason);
    }
  }

  lemma CallKeepsBalance(enc: Cipher, log: Log, s: SessionState, c: Api)
    requires IsAead(enc) && Stats.Balanced(s.stats.counters)
    ensures Stats.Balanced(Call(enc, log, s, c).0.stats.counters)
  {
    match c {
      case Open(frame, room) =>
        OpenKeepsBalance(enc, log, s, frame, room);
      case FrameForUs(frame) =>
        Stats.DropKeepsBalance(s.stats.counters, Stats.Plaintext);
      case _ =>
    }
  }

  /** After every call of every run the receive and transmit totals balance, saturation included. */
  lemma {:induction false} EveryRunBalances(enc: Cipher, s: SessionState, run: seq<Moment>)
    requires IsAead(enc) && Stats.Balanced(s.stats.counters)
    ensures Stats.Balanced(CallAll(enc, s, run).stats.counters)
    decreases run
  {
    if run != [] {
      CallKeepsBalance(enc, run[0].log, s, run[0].call);
      EveryRunBalances(enc, Call(enc, run[0].log, s, run[0].call).0, run[1..]);
    }
  }

  lemma FreshRunsBalance(enc: Cipher, run: seq<Moment>)
    requires IsAead(enc)
    ensures Stats.Balanced(CallAll(enc, FRESH, run).stats.counters)
  {
    assert Stats.Balanced(Stats.ZERO) by {
      assert Stats.Sum([0, 0, 0, 0, 0, 0, 0]) == 0 by {
        ZeroSum(Stats.ZERO.rxRejects);
      }
    }
    EveryRunBalances(enc, FRESH, run);
  }

  lemma {:induction false} ZeroSum(s: seq<U64>)
    requires forall i :: 0 <= i < |s| ==> s[i] == 0
    ensures Stats.Sum(s) == 0
  {
    if s != [] {
      ZeroSum(s[..|s| - 1]);
    }
  }

  lemma AtLeastTransitive(a: Stats.Counters, b: Stats.Counters, c: Stats.Counters)
    requires Stats.AtLeast(b, a) && Stats.AtLeast(c, b)
    ensures Stats.AtLeast(c, a)
  {
  }

  lemma CallNeverLowers(enc: Cipher, log: Log, s: SessionState, c: Api)
    requires IsAead(enc)
    ensures Stats.AtLeast(Call(enc, log, s, c).0.stats.counters, s.stats.counters)
  {
  }

  /** No call of any run, shutdown included, ever lowers a counter. */
  lemma {:induction false} CountersNeverDecrease(enc: Cipher, s: SessionState, run: seq<Moment>)
    requires IsAead(enc)
    ensures Stats.AtLeast(CallAll(enc, s, run).stats.counters, s.stats.counters)
    decreases run
  {
    if run != [] {
      var t := Call(enc, run[0].log, s, run[0].call).0;
      CallNeverLowers(enc, run[0].log, s, run[0].call);
      CountersNeverDecrease(enc, t, run[1..]);
      AtLeastTransitive(s.stats.counters, t.stats.counters, CallAll(enc, s, run).stats.counters);
    }
  }

  /** A rejected frame leaves the last-error buffer, the identity and the keys as they were. */
  lemma DropsSayNothing(enc: Cipher, log: Log, s: SessionState, c: Api)
    requires IsAead(enc)
    requires c.FrameForUs? || (c.Open? && Call(enc, log, s, c).1.rc == RC_DROP)
    ensures Call(enc, log, s, c).0.lastError == s.lastError && Call(enc, log, s, c).0.ring == s.ring
    ensures c.Open? ==> Call(enc, log, s, c).1.output == Nothing
  {
  }

  // ----- gate, then open -----

  /** The protected-socket path: open only what the gate lets through. */
  function GateThenOpen(enc: Cipher, log: Log, s: SessionState, frame: Bytes, room: nat): SessionState
    requires IsAead(enc)
  {
    var (t, verdict) := CallFrameForUs(s, frame);
    if verdict.rc == 1 then CallOpen(enc, log, t, frame, room).0 else t
  }

  /** Every datagram counts exactly once: as received if it passes the gate and opens, else under one reason,
      plaintext at the gate and the first failing test of open behind it. */
  lemma GatedDatagramsCountOnce(enc: Cipher, log: Log, s: SessionState, frame: Bytes, room: nat)
    requires IsAead(enc) && s.ring.Some? && room >= |frame|
    ensures var c, d := s.stats.counters, GateThenOpen(enc, log, s, frame, room).stats.counters;
            var v := OpenVerdict(enc, log, s.ring.value, frame);
            if !LooksOurs(s.ring.value.localId, frame) then d == Stats.RxDrop(Stats.CountReject(c, Stats.Plaintext))
            else if v.Accepted? then d == Stats.RxOk(c)
            else d == Stats.RxDrop(Stats.CountReject(c, v.reason))
    ensures CallFrameForUs(s, frame).1.rc == 1 ==>
              var v := OpenVerdict(enc, log, s.ring.value, frame);
              && v != Dropped(Stats.Plaintext)
              && (v == Dropped(Stats.TooShort) ==> IsDek(frame) && |frame| < DEK_OVERHEAD)
  {
    var c, ring := s.stats.counters, s.ring.value;
    var d := GateThenOpen(enc, log, s, frame, room).stats.counters;
    if LooksOurs(ring.localId, frame) {
      NestedIsFirstFailing(enc, log, ring, frame);
      if GoodPrefix(frame) {
        assert frame[..8][2..4] == frame[2..4];
      }
      var v := OpenVerdict(enc, log, ring, frame);
      if v.Dropped? {
        assert d == Stats.RxDrop(Stats.CountReject(c, v.reason));
      }
    } else {
      assert d == Stats.RxDrop(Stats.CountReject(c, Stats.Plaintext));
    }
  }

  // ----- log-once windows -----

  /** The reason a call drops a frame for, if it drops one. */
  function DropOf(enc: Cipher, s: SessionState, m: Moment): Option<Stats.RejectReason>
    requires IsAead(enc)
  {
    if s.ring.None? then None
    else
      match m.call
      case Open(frame, _) =>
        var v := OpenVerdict(enc, m.log, s.ring.value, frame);
        if v.Dropped? then Some(v.reason) else None
      case FrameForUs(frame) => if LooksOurs(s.ring.value.localId, frame) then None else Some(Stats.Plaintext)
      case _ => None
  }

  function DropsOf(enc: Cipher, s: SessionState, run: seq<Moment>): seq<Stats.RejectReason>
    requires IsAead(enc)
    decreases run
  {
    if run == [] then []
    else
      (match DropOf(enc, s, run[0]) case Some(r) => [r] case None => [])
      + DropsOf(enc, Call(enc, run[0].log, s, run[0].call).0, run[1..])
  }

  /** Neither a policy change nor a shutdown. */
  predicate InWindow(m: Moment) {
    !m.call.Shutdown? && !(m.call.PolicySet? && m.call.policy.Some?)
  }

  /** `t` is `s` after the drop `d`, if any, as far as the log is concerned. */
  ghost predicate LogStep(s: Stats.StatsState, t: Stats.StatsState, d: Option<Stats.RejectReason>) {
    && t.policy == s.policy
    && match d
       case None => t.lines == s.lines && t.logged == s.logged
       case Some(r) =>
         var (emit, logged) := Stats.Decide(s.policy, s.logged, r);
         t.logged == logged && t.lines == s.lines + if emit then [r] else []
  }

  lemma WindowStep(enc: Cipher, s: SessionState, m: Moment)
    requires IsAead(enc) && InWindow(m)
    ensures LogStep(s.stats, Call(enc, m.log, s, m.call).0.stats, DropOf(enc, s, m))
  {
  }

  lemma WrittenAfter(s: Stats.StatsState, t: Stats.StatsState, d: Option<Stats.RejectReason>, rest: seq<Stats.RejectReason>)
    requires LogStep(s, t, d)
    ensures t.lines + Stats.Written(t.policy, t.logged, rest)
            == s.lines + Stats.Written(s.policy, s.logged, (match d case Some(r) => [r] case None => []) + rest)
  {
    match d {
      case None =>
        assert [] + rest == rest;
      case Some(r) =>
        Stats.WrittenStep(s.policy, s.logged, [r] + rest);
        assert ([r] + rest)[1..] == rest;
    }
  }

  lemma {:induction false} WindowLines(enc: Cipher, s: SessionState, run: seq<Moment>)
    requires IsAead(enc) && forall i :: 0 <= i < |run| ==> InWindow(run[i])
    ensures CallAll(enc, s, run).stats.lines
            == s.stats.lines + Stats.Written(s.stats.policy, s.stats.logged, DropsOf(enc, s, run))
    decreases run
  {
    if run == [] {
      assert Stats.Written(s.stats.policy, s.stats.logged, []) == [];
    } else {
      var t := Call(enc, run[0].log, s, run[0].call).0;
      WindowStep(enc, s, run[0]);
      WindowLines(enc, t, run[1..]);
      WrittenAfter(s.stats, t.stats, DropOf(enc, s, run[0]), DropsOf(enc, t, run[1..]));
    }
  }

  lemma ResetForgets(enc: Cipher, log: Log, s: SessionState, c: Api)
    requires IsAead(enc) && !InWindow(Moment(c, log)) && Call(enc, log, s, c).0.stats.policy.LogOnce?
    ensures Call(enc, log, s, c).0.stats.logged == {}
  {
  }

  lemma FirstsAfter(before: seq<Stats.RejectReason>, drops: seq<Stats.RejectReason>)
    ensures var lines := before + Stats.Firsts(drops, {});
            && (forall i, j :: |before| <= i < j < |lines| ==> lines[i] != lines[j])
            && (forall r :: r in lines[|before|..] <==> r in drops)
  {
    var firsts := Stats.Firsts(drops, {});
    Stats.FirstsAreDistinct(drops, {});
    assert (before + firsts)[|before|..] == firsts;
  }

  /** Between a memo reset and the next policy change or shutdown, log_once writes exactly one line per
      distinct reason dropped in that window, in order of first occurrence. */
  lemma LogOnceWindow(enc: Cipher, before: seq<Moment>, reset: Moment, window: seq<Moment>)
    requires IsAead(enc) && forall i :: 0 <= i < |window| ==> InWindow(window[i])
    requires !InWindow(reset)
    requires var s := CallAll(enc, FRESH, before); Call(enc, reset.log, s, reset.call).0.stats.policy.LogOnce?
    ensures var t := Call(enc, reset.log, CallAll(enc, FRESH, before), reset.call).0;
            var lines := CallAll(enc, t, window).stats.lines;
            var drops := DropsOf(enc, t, window);
            && lines == t.stats.lines + Stats.Firsts(drops, {})
            && (forall i, j :: |t.stats.lines| <= i < j < |lines| ==> lines[i] != lines[j])
            && (forall r :: r in lines[|t.stats.lines|..] <==> r in drops)
  {
    var t := Call(enc, reset.log, CallAll(enc, FRESH, before), reset.call).0;
    var drops := DropsOf(enc, t, window);
    ResetForgets(enc, reset.log, CallAll(enc, FRESH, before), reset.call);
    WindowLines(enc, t, window);
    FirstsAfter(t.stats.lines, drops);
  }
}
