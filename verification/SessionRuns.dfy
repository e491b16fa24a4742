/** What the calls of the C ABI mean over whole runs: what is accepted, what is reported, what is counted. */
module SessionRuns {
  import opened Bytes
  import opened Codec
  import opened Sodium
  import opened KeyStores
  import opened StandardMode
  import opened DekMode
  import opened Provenance
  import opened Sessions
  import Stats

  // ----- provenance, down to the out-pointers -----

  /** Some node emitted `frame` to this ring, with this payload, as this source, on this channel, in this mode. */
  ghost predicate EmittedAs(enc: Cipher, ems: seq<Emission>, ring: Ring, frame: Bytes,
                            p: Bytes, from: U16, channel: U32, mode: Mode)
    requires IsAead(enc)
  {
    exists em :: em in ems && FrameOf(enc, em) == frame && Reads(ring, em)
                 && em.payload == p && em.header.fromId == from && em.header.channel == channel && FlagsFor(em).mode == mode
  }

  /** An open call reports a payload, source, channel and mode exactly when this very frame was emitted to this
      session with that payload, as that source, on that channel and in that mode, and the payload fits. */
  lemma OpenReportsIffEmitted(enc: Cipher, ems: seq<Emission>, s: SessionState, frame: Bytes, room: nat,
                              p: Bytes, from: U16, channel: U32, mode: Mode)
    requires IsAead(enc) && DeksOnce(ems) && s.ring.Some?
    ensures CallOpen(enc, AllCalls(enc, ems), s, frame, room).1.output == Opened(p, from, channel, mode)
            <==> |p| <= room && EmittedAs(enc, ems, s.ring.value, frame, p, from, channel, mode)
  {
    OpenReports(enc, AllCalls(enc, ems), s, frame, room, p, from, channel, mode);
    VerdictIffEmittedAs(enc, ems, s.ring.value, frame, p, from, channel, mode);
  }

  /** The verdict accepts `frame` with this payload, source, channel and mode. */
  predicate AcceptedAs(v: Verdict, p: Bytes, from: U16, channel: U32, mode: Mode) {
    v.Accepted? && v.payload == p && v.header.fromId == from && v.header.channel == channel && v.flags.mode == mode
  }

  lemma OpenReports(enc: Cipher, log: Log, s: SessionState, frame: Bytes, room: nat, p: Bytes, from: U16, channel: U32, mode: Mode)
    requires IsAead(enc) && s.ring.Some?
    ensures CallOpen(enc, log, s, frame, room).1.output == Opened(p, from, channel, mode)
            <==> |p| <= room && AcceptedAs(OpenVerdict(enc, log, s.ring.value, frame), p, from, channel, mode)
  {
  }

  lemma VerdictIffEmittedAs(enc: Cipher, ems: seq<Emission>, ring: Ring, frame: Bytes, p: Bytes, from: U16, channel: U32, mode: Mode)
    requires IsAead(enc) && DeksOnce(ems)
    ensures AcceptedAs(OpenVerdict(enc, AllCalls(enc, ems), ring, frame), p, from, channel, mode)
            <==> EmittedAs(enc, ems, ring, frame, p, from, channel, mode)
  {
    var v := OpenVerdict(enc, AllCalls(enc, ems), ring, frame);
    if v.Accepted? {
      AcceptedIffEmitted(enc, ems, ring, frame, v.header, v.flags, v.payload);
    }
    if EmittedAs(enc, ems, ring, frame, p, from, channel, mode) {
      var em :| em in ems && FrameOf(enc, em) == frame && Reads(ring, em)
                && em.payload == p && em.header.fromId == from && em.header.channel == channel && FlagsFor(em).mode == mode;
      EmittedOpens(enc, ems, ring, em);
    }
  }

  /** What one session seals another opens: the seal call's frame, handed to any session that is the
      destination and holds the sender's current key, yields the payload and names its source and channel. */
  lemma SealThenOpen(enc: Cipher, ems: seq<Emission>, s: SessionState, r: SessionState,
                     payload: Bytes, toId: U32, channel: U32, room: nat, nonce: Nonce, room': nat) returns (em: Emission)
    requires IsAead(enc) && CallSeal(enc, s, payload, toId, channel, room, nonce).1.output.Framed?
    requires s.ring.Some? && r.ring.Some? && toId == r.ring.value.localId && room' >= |payload|
    requires exists e :: IsCurrent(s.ring.value.keys, toId, e) && Slot(s.ring.value.localId, e) in r.ring.value.keys
                         && r.ring.value.keys[Slot(s.ring.value.localId, e)] == s.ring.value.keys[Slot(toId, e)]
    ensures SealCalls(s.ring, payload, toId, channel, nonce) == CallsOf(enc, em)
    ensures var frame := CallSeal(enc, s, payload, toId, channel, room, nonce).1.output.frame;
            CallOpen(enc, AllCalls(enc, ems + [em]), r, frame, room').1
            == Outcome(RC_OK, Opened(payload, s.ring.value.localId, channel, Standard))
  {
    var ring := s.ring.value;
    var e :| IsCurrent(ring.keys, toId, e) && Slot(ring.localId, e) in r.ring.value.keys
             && r.ring.value.keys[Slot(ring.localId, e)] == ring.keys[Slot(toId, e)];
    CurrentIsUnique(ring.keys, toId, e);
    em := Single(Header(ring.localId, toId, channel), e, ring.keys[Slot(toId, e)], nonce, payload);
    assert em in ems + [em];
    EmittedOpens(enc, ems + [em], r.ring.value, em);
  }

  // ----- what each call accepts -----

  /** Configuring calls succeed exactly on these arguments and in these states, and then do exactly this. */
  lemma ConfiguringCalls(enc: Cipher, log: Log, s: SessionState, c: Api)
    requires IsAead(enc)
    ensures var (t, o) := Sessions.Call(enc, log, s, c);
            && (c.SetLocalId? ==>
                  && (o.rc == RC_OK <==> c.nodeId <= 65535 && s.ring.None?)
                  && (o.rc == RC_OK ==> t.ring == Some(Ring(c.nodeId, map[]))))
            && (c.KeystoreSet? ==>
                  && (o.rc == RC_OK <==> c.peer <= 65535 && c.epoch <= 31 && |c.key| == 32 && s.ring.Some?
                                         && (Slot(c.peer, c.epoch) in s.ring.value.keys || |s.ring.value.keys| < 1024))
                  && (o.rc == RC_OK ==> t.ring == Some(Ring(s.ring.value.localId, s.ring.value.keys[Slot(c.peer, c.epoch) := c.key]))))
            && (c.KeystoreRetire? ==>
                  && (o.rc >= 0 <==> c.peer <= 65535 && c.epoch <= 31 && s.ring.Some?)
                  && (o.rc == RC_OK ==> Slot(c.peer, c.epoch) in s.ring.value.keys)
                  && (o.rc == RC_OK_ABSENT ==> Slot(c.peer, c.epoch) !in s.ring.value.keys)
                  && (o.rc >= 0 ==> t.ring == Some(Ring(s.ring.value.localId, s.ring.value.keys - {Slot(c.peer, c.epoch)}))))
            && (o.rc < 0 ==> t.ring == s.ring)
  {
  }

  /** A seal call succeeds exactly for a 16-bit destination, an unreserved channel, a payload of at most 65470
      bytes, a known peer, and room for 37 bytes more than the payload. */
  lemma SealingCalls(enc: Cipher, s: SessionState, payload: Bytes, toId: U32, channel: U32, room: nat, nonce: Nonce)
    requires IsAead(enc)
    ensures var (t, o) := CallSeal(enc, s, payload, toId, channel, room, nonce);
            && (o.rc == RC_OK <==>
                  && toId <= 65535 && (channel == 0 || channel >= 100) && |payload| <= 65470
                  && s.ring.Some? && (exists e: Epoch :: Slot(toId, e) in s.ring.value.keys)
                  && |payload| + 37 <= room)
            && (o.rc == RC_OK <==> o.output.Framed?)
            && t.ring == s.ring
  {
    if s.ring.Some? && toId <= 65535 {
      if e: Epoch :| Slot(toId, e) in s.ring.value.keys {
        assert PeerKnown(s.ring.value.keys, toId);
      }
    }
  }

  // ----- shutdown -----

  lemma {:induction false} StaysUnconfigured(enc: Cipher, s: SessionState, run: seq<Moment>)
    requires IsAead(enc) && s.ring.None? && forall i :: 0 <= i < |run| ==> !run[i].call.SetLocalId?
    ensures CallAll(enc, s, run).ring.None?
    decreases run
  {
    if run != [] {
      StaysUnconfigured(enc, Sessions.Call(enc, run[0].log, s, run[0].call).0, run[1..]);
    }
  }

  /** After shutdown no call yields a frame or a payload until an identity is set again, whatever keys were
      installed before; the counters are as they were. */
  lemma ShutdownForgets(enc: Cipher, s: SessionState, run: seq<Moment>, m: Moment)
    requires IsAead(enc) && forall i :: 0 <= i < |run| ==> !run[i].call.SetLocalId?
    ensures var t := CallShutdown(s).0;
            && t.ring.None? && t.lastError.None? && t.stats.logged == {}
            && t.stats.counters == s.stats.counters && t.stats.policy == s.stats.policy && t.stats.lines == s.stats.lines
            && Sessions.Call(enc, m.log, CallAll(enc, t, run), m.call).1.output == Nothing
  {
    StaysUnconfigured(enc, CallShutdown(s).0, run);
  }

  // ----- what the counters count -----

  datatype Happening = Received | Refused(reason: Stats.RejectReason) | Sent(mode: Mode) | TooBig | Nought

  /** What a call is to the statistics, told from its arguments and outcome. */
  function HappeningOf(enc: Cipher, s: SessionState, m: Moment): Happening
    requires IsAead(enc)
  {
    var o := Sessions.Call(enc, m.log, s, m.call).1;
    match m.call
    case Open(_, _) =>
      if o.output.Opened? then Received
      else (match DropOf(enc, s, m) case Some(r) => Refused(r) case None => Nought)
    case FrameForUs(_) => (match DropOf(enc, s, m) case Some(r) => Refused(r) case None => Nought)
    case Seal(payload, toId, channel, _, _) =>
      if o.output.Framed? then Sent(Standard)
      else if toId <= 65535 && (channel == 0 || channel >= 100) && |payload| > 65470 then TooBig
      else Nought
    case RecordFanned => Sent(Dek)
    case _ => Nought
  }

  function Happenings(enc: Cipher, s: SessionState, run: seq<Moment>): seq<Happening>
    requires IsAead(enc)
    decreases run
  {
    if run == [] then []
    else [HappeningOf(enc, s, run[0])] + Happenings(enc, Sessions.Call(enc, run[0].log, s, run[0].call).0, run[1..])
  }

  /** Every counter is the number of its happenings, up to saturation. */
  ghost predicate Counts(c: Stats.Counters, h: multiset<Happening>) {
    && c.rxOk == Min(U64_MAX, h[Received])
    && (forall r: Stats.RejectReason :: c.rxRejects[Stats.Index(r)] == Min(U64_MAX, h[Refused(r)]))
    && c.txStandard == Min(U64_MAX, h[Sent(Standard)])
    && c.txDek == Min(U64_MAX, h[Sent(Dek)])
    && c.txOversize == Min(U64_MAX, h[TooBig])
  }

  lemma IndexApart(r: Stats.RejectReason, q: Stats.RejectReason)
    requires r != q
    ensures Stats.Index(r) != Stats.Index(q)
  {
  }

  lemma RejectCounts(c: Stats.Counters, h: multiset<Happening>, r: Stats.RejectReason)
    requires Counts(c, h)
    ensures Counts(Stats.RxDrop(Stats.CountReject(c, r)), h + multiset{Refused(r)})
  {
    var d := Stats.RxDrop(Stats.CountReject(c, r));
    forall q: Stats.RejectReason
      ensures d.rxRejects[Stats.Index(q)] == Min(U64_MAX, (h + multiset{Refused(r)})[Refused(q)])
    {
      if q != r {
        IndexApart(r, q);
      }
    }
  }

  /** The counters after a call are those before it moved for its happening. */
  ghost function Moved(c: Stats.Counters, e: Happening): Stats.Counters {
    match e
    case Received => Stats.RxOk(c)
    case Refused(r) => Stats.RxDrop(Stats.CountReject(c, r))
    case Sent(mode) => Stats.TxSealed(c, mode)
    case TooBig => Stats.TxOversize(c)
    case Nought => c
  }

  lemma CallMoves(enc: Cipher, s: SessionState, m: Moment)
    requires IsAead(enc)
    ensures Sessions.Call(enc, m.log, s, m.call).0.stats.counters == Moved(s.stats.counters, HappeningOf(enc, s, m))
  {
    if m.call.Open? {
      OpenMoves(enc, s, m);
    } else if m.call.Seal? {
      SealMoves(enc, s, m);
    }
  }

  lemma OpenMoves(enc: Cipher, s: SessionState, m: Moment)
    requires IsAead(enc) && m.call.Open?
    ensures CallOpen(enc, m.log, s, m.call.frame, m.call.room).0.stats.counters
            == Moved(s.stats.counters, HappeningOf(enc, s, m))
  {
  }

  lemma SealMoves(enc: Cipher, s: SessionState, m: Moment)
    requires IsAead(enc) && m.call.Seal?
    ensures CallSeal(enc, s, m.call.payload, m.call.toId, m.call.channel, m.call.room, m.call.nonce).0.stats.counters
            == Moved(s.stats.counters, HappeningOf(enc, s, m))
  {
  }

  lemma MoveCounts(c: Stats.Counters, h: multiset<Happening>, e: Happening)
    requires Counts(c, h)
    ensures Counts(Moved(c, e), h + multiset{e})
  {
    if e.Refused? {
      RejectCounts(c, h, e.reason);
    }
  }

  lemma {:induction false} RunCounts(enc: Cipher, s: SessionState, run: seq<Moment>, h: multiset<Happening>)
    requires IsAead(enc) && Counts(s.stats.counters, h)
    ensures Counts(CallAll(enc, s, run).stats.counters, h + multiset(Happenings(enc, s, run)))
    decreases run
  {
    if run == [] {
      assert h + multiset([]) == h;
    } else {
      var e, t := HappeningOf(enc, s, run[0]), Sessions.Call(enc, run[0].log, s, run[0].call).0;
      CallMoves(enc, s, run[0]);
      MoveCounts(s.stats.counters, h, e);
      RunCounts(enc, t, run[1..], h + multiset{e});
      var rest := Happenings(enc, t, run[1..]);
      assert h + multiset([e] + rest) == (h + multiset{e}) + multiset(rest);
    }
  }

  /** In every run of a fresh process each counter is exactly the number of calls that received, refused for
      that reason, sealed in that mode, or were oversize. */
  lemma EveryCounterCounts(enc: Cipher, run: seq<Moment>)
    requires IsAead(enc)
    ensures Counts(CallAll(enc, FRESH, run).stats.counters, multiset(Happenings(enc, FRESH, run)))
  {
    assert Counts(Stats.ZERO, multiset{});
    RunCounts(enc, FRESH, run, multiset{});
    assert multiset{} + multiset(Happenings(enc, FRESH, run)) == multiset(Happenings(enc, FRESH, run));
  }
}
