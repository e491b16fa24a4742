/**
 From the frame a client sends to the reply it gets: what each frame asks for, and the round trip of
 an operation on the other node's key through any run of the pair.
 */
module Requests {
  import opened Bytes
  import opened Text
  import opened Kv
  import opened PeerCodec
  import opened Server
  import opened Atomic
  import opened Pairs
  import opened PairProofs
  import opened PairRuns
  import opened PairFates
  import Stomp
  import StompStream
  import Utf8

  // ----- what a frame asks for -----

  /** A SEND, in any case. */
  predicate Sends(frame: ClientFrame) {
    Spells(frame.command, "SEND")
  }

  /** The body, whitespace aside, is SIZE in any case. */
  predicate AsksSize(frame: ClientFrame) {
    Spells(Trim(frame.body), "SIZE")
  }

  lemma SpellsSend(w: string)
    ensures Upper(w) == "SEND" <==> Spells(w, "SEND")
  {
    UpperIffSpells(w, "SEND");
  }

  lemma SpellsSize(w: string)
    ensures Upper(w) == "SIZE" <==> Spells(w, "SIZE")
  {
    UpperIffSpells(w, "SIZE");
  }

  lemma SpellsDisconnect(w: string)
    ensures Upper(w) == "DISCONNECT" <==> Spells(w, "DISCONNECT")
  {
    UpperIffSpells(w, "DISCONNECT");
  }

  /** How the node reads a frame. */
  lemma FrameReading(frame: ClientFrame)
    ensures AskOf(frame) ==
            if Sends(frame) && AsksSize(frame) then Size
            else if Sends(frame) then (match ParseOp(frame.body) case Ok(op) => Do(op) case Err(e) => Malformed(e))
            else if Spells(frame.command, "DISCONNECT") then Quit
            else Unserved
  {
    SpellsSend(frame.command);
    SpellsDisconnect(frame.command);
    SpellsSize(Trim(frame.body));
  }

  /** The frame is a request for `op`. */
  predicate Requests(frame: ClientFrame, op: Op) {
    Sends(frame) && !AsksSize(frame) && ParseOp(frame.body) == Ok(op)
  }

  /** The key lives on this side: odd keys on the lower node, even keys on the higher. */
  predicate Home(side: Side, op: Op) {
    op.k % 2 == if side.Lo? then 1 else 0
  }

  /** A request for an operation on the node's own key is executed on the one map and answered from it, on
      the spot, with the receipt of the frame. */
  lemma HomeRequestAnswered(ids: Ids, s: Pair, side: Side, conn: nat, frame: ClientFrame, now: int, sendOk: bool, op: Op)
    requires Reachable(ids, s) && Requests(frame, op) && Home(side, op)
    ensures var ev := FromClient(conn, frame, now, sendOk);
            && Possible(ids, s, Local(side, ev))
            && var e, t := Handle(CfgOf(ids, side), NodeOf(s, side), ev), Next(ids, s, Local(side, ev));
            && t.hist.requests == s.hist.requests + [Req(side, conn, op, 0, |s.hist.effects|)]
            && Merged(t) == Apply(Merged(s), op).0
            && e.replies == [ReplyCall(conn, frame.receipt, Apply(Merged(s), op).1)]
            && t.net == s.net
  {
    FrameReading(frame);
    AskedOpsAreSmall(frame);
    ReachableIsGood(ids, s);
    MineIsParity(ids, side, op);
    HomeStep(ids, s, side, op);
    HomeAnswer(ids, s, side, conn, frame.receipt, op, now, sendOk);
  }

  lemma HomeAnswer(ids: Ids, s: Pair, side: Side, conn: nat, receipt: Option<string>, op: Op, now: int, sendOk: bool)
    requires Inv(ids, s) && Mine(CfgOf(ids, side), op)
    ensures var e := HandleAsk(CfgOf(ids, side), NodeOf(s, side), conn, receipt, Do(op), now, sendOk);
            var (entries, reply) := Execute(NodeOf(s, side).entries, op);
            var t := Settle(s, side, e, NoteRequest(ids, s, side, conn, op, e));
            && e.state == NodeOf(s, side).(entries := entries) && e.replies == [ReplyCall(conn, receipt, reply)]
            && t.lo == WithNode(s, side, e.state).lo && t.hi == WithNode(s, side, e.state).hi
            && t.hist.requests == s.hist.requests + [Req(side, conn, op, 0, |s.hist.effects|)]
            && t.net == s.net
  {
    var e := HandleAsk(CfgOf(ids, side), NodeOf(s, side), conn, receipt, Do(op), now, sendOk);
    SettleNothing(s, side, e, NoteRequest(ids, s, side, conn, op, e));
  }

  /** `t` is `s` with the operation on the network whole, under a new id, and waited on for five seconds with
      the frame's receipt; or, if the send failed, with the client refused at once. */
  ghost predicate Forwarded(s: Pair, t: Pair, e: Effects, side: Side, conn: nat, receipt: Option<string>, op: Op,
                            now: int, sendOk: bool)
    requires NodeOf(s, side).nextCorr < U64_MAX
  {
    var corr := NodeOf(s, side).nextCorr + 1;
    && t.hist.requests == s.hist.requests + [Req(side, conn, op, corr, |s.hist.effects|)]
    && Ticket(side, corr) in t.hist.issued && t.hist.issued[Ticket(side, corr)] == |s.hist.requests|
    && Merged(t) == Merged(s)
    && if sendOk then
         && t.net == s.net + multiset{Packet(side, Request(corr, op))} && e.replies == []
         && NodeOf(t, side).pending == NodeOf(s, side).pending[corr := Pending(conn, receipt, now + 5000)]
       else
         && t.net == s.net && |e.replies| == 1 && e.replies[0].reply.Refused?
         && e.replies[0].conn == conn && e.replies[0].receipt == receipt
         && NodeOf(t, side).pending == NodeOf(s, side).pending
  }

  /** A request for an operation on the other node's key is forwarded. */
  lemma AwayRequestForwarded(ids: Ids, s: Pair, side: Side, conn: nat, frame: ClientFrame, now: int, sendOk: bool, op: Op)
    requires Reachable(ids, s) && Requests(frame, op) && !Home(side, op) && NodeOf(s, side).nextCorr < U64_MAX
    ensures var ev := FromClient(conn, frame, now, sendOk);
            && Possible(ids, s, Local(side, ev))
            && Forwarded(s, Next(ids, s, Local(side, ev)), Handle(CfgOf(ids, side), NodeOf(s, side), ev),
                         side, conn, frame.receipt, op, now, sendOk)
  {
    FrameReading(frame);
    AskedOpsAreSmall(frame);
    MineIsParity(ids, side, op);
    AwayAnswer(ids, s, side, conn, frame.receipt, op, now, sendOk);
  }

  lemma AwayAnswer(ids: Ids, s: Pair, side: Side, conn: nat, receipt: Option<string>, op: Op, now: int, sendOk: bool)
    requires !Mine(CfgOf(ids, side), op) && NodeOf(s, side).nextCorr < U64_MAX && SmallOp(op)
    ensures var e := HandleAsk(CfgOf(ids, side), NodeOf(s, side), conn, receipt, Do(op), now, sendOk);
            Forwarded(s, Settle(s, side, e, NoteRequest(ids, s, side, conn, op, e)), e, side, conn, receipt, op, now, sendOk)
  {
    ForwardedExactly(CfgOf(ids, side), NodeOf(s, side), conn, receipt, op, now, sendOk);
    AwayNoted(ids, s, side, conn, op, HandleAsk(CfgOf(ids, side), NodeOf(s, side), conn, receipt, Do(op), now, sendOk));
  }

  /** What forwarding does: the message always fits. */
  lemma ForwardedExactly(cfg: Config, st: NodeState, conn: nat, receipt: Option<string>, op: Op, now: int, sendOk: bool)
    requires !Mine(cfg, op) && st.nextCorr < U64_MAX && SmallOp(op)
    ensures var corr, e := st.nextCorr + 1, HandleAsk(cfg, st, conn, receipt, Do(op), now, sendOk);
            && e.state.entries == st.entries
            && if sendOk then
                 && e.messages == [Request(corr, op)] && e.replies == []
                 && e.state.pending == st.pending[corr := Pending(conn, receipt, now + 5000)]
               else
                 && e.messages == [] && |e.replies| == 1 && e.replies[0].reply.Refused?
                 && e.replies[0].conn == conn && e.replies[0].receipt == receipt && e.state.pending == st.pending
  {
    MessagesAreSmall(Request(st.nextCorr + 1, op));
  }

  lemma AwayNoted(ids: Ids, s: Pair, side: Side, conn: nat, op: Op, e: Effects)
    requires !Mine(CfgOf(ids, side), op) && NodeOf(s, side).nextCorr < U64_MAX
    requires e.state.entries == NodeOf(s, side).entries
    requires e.messages == [] || e.messages == [Request(NodeOf(s, side).nextCorr + 1, op)]
    ensures var corr, t := NodeOf(s, side).nextCorr + 1, Settle(s, side, e, NoteRequest(ids, s, side, conn, op, e));
            && t.hist.requests == s.hist.requests + [Req(side, conn, op, corr, |s.hist.effects|)]
            && Ticket(side, corr) in t.hist.issued && t.hist.issued[Ticket(side, corr)] == |s.hist.requests|
            && Merged(t) == Merged(s) && NodeOf(t, side) == e.state
            && t.net == if e.messages == [] then s.net else s.net + multiset{Packet(side, e.messages[0])}
  {
    var q := Packet(side, Request(NodeOf(s, side).nextCorr + 1, op));
    assert Packets(side, []) == [] && Packets(side, [q.message]) == [q];
  }

  /** A frame that is no request for an operation adds none, and touches neither store, network nor table. */
  lemma OtherFramesRequestNothing(ids: Ids, s: Pair, side: Side, conn: nat, frame: ClientFrame, now: int, sendOk: bool)
    requires forall op :: !Requests(frame, op)
    ensures var ev := FromClient(conn, frame, now, sendOk);
            && Possible(ids, s, Local(side, ev))
            && var e, t := Handle(CfgOf(ids, side), NodeOf(s, side), ev), Next(ids, s, Local(side, ev));
            && t.hist == s.hist && t.net == s.net && Merged(t) == Merged(s) && t.lo.pending == s.lo.pending && t.hi.pending == s.hi.pending
            && e.replies ==
               if !Sends(frame) then []
               else if AsksSize(frame) then
                 [ReplyCall(conn, frame.receipt, Value(Decimal(|NodeOf(s, side).entries|) + " of 1000000 keys on node "
                                                       + Decimal(CfgOf(ids, side).id)))]
               else (match ParseOp(frame.body)
                     case Err(why) => [ReplyCall(conn, frame.receipt, Refused(why))]
                     case Ok(_) => [])
  {
    FrameReading(frame);
    if Sends(frame) && !AsksSize(frame) && ParseOp(frame.body).Ok? {
      assert Requests(frame, ParseOp(frame.body).value);
    }
    NoAsk(ids, s, side, conn, frame.receipt, AskOf(frame), now, sendOk);
  }

  lemma NoAsk(ids: Ids, s: Pair, side: Side, conn: nat, receipt: Option<string>, ask: Ask, now: int, sendOk: bool)
    requires !ask.Do?
    ensures var e := HandleAsk(CfgOf(ids, side), NodeOf(s, side), conn, receipt, ask, now, sendOk);
            var t := Settle(s, side, e, s.hist);
            && t.net == s.net && Merged(t) == Merged(s) && t.lo.pending == s.lo.pending && t.hi.pending == s.hi.pending
  {
    var e := HandleAsk(CfgOf(ids, side), NodeOf(s, side), conn, receipt, ask, now, sendOk);
    SettleNothing(s, side, e, s.hist);
  }

  /** A SEND of the text of an operation requests that operation. */
  lemma TextRequestsOp(frame: ClientFrame, op: Op)
    requires Sends(frame) && frame.body == OpText(op) && (op.Put? ==> Utf8.ByteLen(OpText(op)) <= 1024)
    ensures Requests(frame, op)
  {
    ParsersAgree(op);
    VerbKnown(op);
    NotSize(op);
  }

  lemma NotSize(op: Op)
    ensures !Spells(Trim(OpText(op)), "SIZE")
  {
    WordsOf(op);
    VerbKnown(op);
    TrimKeepsFirst(OpText(op));
    assert OpText(op)[0] == VerbText(op)[0];
  }

  lemma TrimKeepsFirst(s: string)
    requires s != [] && !IsSpace(s[0])
    ensures Trim(s) != [] && Trim(s)[0] == s[0]
  {
    assert TrimStart(s) == s;
    TrimEndKeepsFirst(s);
  }

  lemma {:induction false} TrimEndKeepsFirst(s: string)
    requires s != [] && !IsSpace(s[0])
    ensures TrimEnd(s) != [] && TrimEnd(s)[0] == s[0]
  {
    if IsSpace(s[|s| - 1]) {
      TrimEndKeepsFirst(s[..|s| - 1]);
    }
  }

  // ----- the round trip -----

  /** A request served at its home with a working socket is answered with one message. */
  lemma ServedExactly(cfg: Config, st: NodeState, corr: U64, op: Op)
    requires Mine(cfg, op) && SmallReply(Execute(st.entries, op).1)
    ensures var e := HandlePeer(cfg, st, Request(corr, op), true);
            && e.messages == [Response(corr, Execute(st.entries, op).1)]
            && e.state == st.(entries := Execute(st.entries, op).0)
  {
    MessagesAreSmall(Response(corr, Execute(st.entries, op).1));
  }

  /** Delivering a request executes it on the one map and puts the map's answer on the network. */
  lemma DeliveredRequestIsServed(ids: Ids, s: Pair, p: Packet)
    requires Reachable(ids, s) && p in s.net && p.message.Request?
    ensures var t, op := Next(ids, s, Deliver(p, true)), p.message.op;
            && Merged(t) == Apply(Merged(s), op).0
            && Packet(Other(p.from), Response(p.message.corr, Apply(Merged(s), op).1)) in t.net
            && NodeOf(t, p.from) == NodeOf(s, p.from)
  {
    ReachableIsGood(ids, s);
    var u, side, op := s.(net := s.net - multiset{p}), Other(p.from), p.message.op;
    TakenOff(ids, s, p);
    assert PacketOk(s.hist, p);
    RequestArrives(ids, u, p, true);
    assert RequestOk(ids, s.hist, s.hist.requests[s.hist.issued[Ticket(p.from, p.message.corr)]]);
    HomeStep(ids, u, side, op);
    ServedExactly(CfgOf(ids, side), NodeOf(u, side), p.message.corr, op);
    ServedNet(ids, u, p, Response(p.message.corr, Execute(NodeOf(u, side).entries, op).1),
              NodeOf(u, side).(entries := Execute(NodeOf(u, side).entries, op).0));
  }

  lemma ServedNet(ids: Ids, s: Pair, p: Packet, m: Peer, st: NodeState)
    requires var e := HandlePeer(CfgOf(ids, Other(p.from)), NodeOf(s, Other(p.from)), p.message, true);
             e.messages == [m] && e.state == st
    ensures var t := Arrive(ids, s, p, true);
            && Packet(Other(p.from), m) in t.net && Merged(t) == Merged(WithNode(s, Other(p.from), st))
            && NodeOf(t, p.from) == NodeOf(s, p.from)
  {
    var q := Packet(Other(p.from), m);
    assert Packets(Other(p.from), [m])[0] == q;
  }

  /** Delivering an awaited response makes one reply call, to the connection and with the receipt that were
      noted with its id, and one relayed answer. */
  lemma DeliveredResponseIsRelayed(ids: Ids, s: Pair, side: Side, corr: U64, reply: Reply, sendOk: bool)
    requires corr in NodeOf(s, side).pending
    ensures var m, p := Response(corr, reply), NodeOf(s, side).pending[corr];
            && HandlePeer(CfgOf(ids, side), NodeOf(s, side), m, sendOk).replies == [ReplyCall(p.conn, p.receipt, reply)]
            && Arrive(ids, s, Packet(Other(side), m), sendOk).hist.answers
               == s.hist.answers + [Answer(Named(s.hist, Ticket(side, corr)), p.conn, reply, true, |s.hist.effects|)]
  {
  }

  /** While an id is awaited, what was noted with it does not change. */
  lemma {:induction false} NoteStays(ids: Ids, s: Pair, steps: seq<Step>, t: Ticket)
    requires ids.lo < ids.hi && Inv(ids, s) && t in s.hist.issued && Run(ids, s, steps).Some?
    requires var u := Run(ids, s, steps).value; Awaited(u.lo, u.hi, t)
    ensures Awaited(s.lo, s.hi, t)
    ensures NodeOf(Run(ids, s, steps).value, t.side).pending[t.corr] == NodeOf(s, t.side).pending[t.corr]
    ensures var g := Run(ids, s, steps).value.hist; t in g.issued && g.issued[t] == s.hist.issued[t]
    decreases steps
  {
    if steps != [] {
      StepKeepsInv(ids, s, steps[0]);
      StepKeepsNote(ids, s, steps[0], t);
      NoteStays(ids, Next(ids, s, steps[0]), steps[1..], t);
    }
  }

  /** Ticket `t` is awaited in `v` only if it was in `s`, and then as before. */
  ghost predicate SameNote(s: Pair, v: Pair, t: Ticket)
    requires t in s.hist.issued
  {
    && t in v.hist.issued && v.hist.issued[t] == s.hist.issued[t]
    && (Awaited(v.lo, v.hi, t) ==>
          Awaited(s.lo, s.hi, t) && NodeOf(v, t.side).pending[t.corr] == NodeOf(s, t.side).pending[t.corr])
  }

  lemma AskKeepsNote(ids: Ids, s: Pair, side: Side, conn: nat, receipt: Option<string>, ask: Ask, now: int, sendOk: bool, t: Ticket)
    requires Inv(ids, s) && t in s.hist.issued
    requires ask.Do? && !Mine(CfgOf(ids, side), ask.op) ==> NodeOf(s, side).nextCorr < U64_MAX
    ensures var e := HandleAsk(CfgOf(ids, side), NodeOf(s, side), conn, receipt, ask, now, sendOk);
            SameNote(s, Settle(s, side, e, if ask.Do? then NoteRequest(ids, s, side, conn, ask.op, e) else s.hist), t)
  {
    assert SideOk(s.hist, t.side, NodeOf(s, t.side));
    if ask.Do? && !Mine(CfgOf(ids, side), ask.op) {
      ForwardShape(CfgOf(ids, side), NodeOf(s, side), conn, receipt, ask.op, now, sendOk);
    } else {
      AskKeepsPending(CfgOf(ids, side), NodeOf(s, side), conn, receipt, ask, now, sendOk);
    }
  }

  lemma PeerKeepsNote(ids: Ids, s: Pair, p: Packet, sendOk: bool, t: Ticket)
    requires t in s.hist.issued
    ensures SameNote(s, Arrive(ids, s, p, sendOk), t)
  {
    PeerShape(ids, s, p, sendOk);
  }

  lemma EventKeepsNote(ids: Ids, s: Pair, side: Side, ev: Event, t: Ticket)
    requires Possible(ids, s, Local(side, ev)) && !ev.FromClient? && t in s.hist.issued
    ensures SameNote(s, Next(ids, s, Local(side, ev)), t)
  {
  }

  lemma StepKeepsNote(ids: Ids, s: Pair, step: Step, t: Ticket)
    requires Inv(ids, s) && Possible(ids, s, step) && t in s.hist.issued
    ensures SameNote(s, Next(ids, s, step), t)
  {
    match step {
      case Local(side, ev) =>
        if ev.FromClient? {
          AskKeepsNote(ids, s, side, ev.conn, ev.frame.receipt, AskOf(ev.frame), ev.now, ev.sendOk, t);
        } else {
          EventKeepsNote(ids, s, side, ev, t);
        }
      case Deliver(p, sendOk) =>
        PeerKeepsNote(ids, s.(net := s.net - multiset{p}), p, sendOk, t);
      case Lose(p) =>
      case Replay(p, sendOk) =>
        PeerKeepsNote(ids, s, p, sendOk, t);
    }
  }

  lemma {:induction false} RunAppends(ids: Ids, s: Pair, steps: seq<Step>, more: seq<Step>)
    requires Run(ids, s, steps).Some?
    ensures Run(ids, s, steps + more) == Run(ids, Run(ids, s, steps).value, more)
    decreases steps
  {
    if steps == [] {
      assert steps + more == more;
    } else {
      assert (steps + more)[1..] == steps[1..] + more;
      RunAppends(ids, Next(ids, s, steps[0]), steps[1..], more);
    }
  }

  lemma ReachableOn(ids: Ids, s: Pair, steps: seq<Step>, t: Pair)
    requires Reachable(ids, s) && Run(ids, s, steps) == Some(t)
    ensures Reachable(ids, t)
  {
    var before :| Run(ids, START, before) == Some(s);
    RunAppends(ids, START, before, steps);
  }

  lemma ReachableNext(ids: Ids, s: Pair, step: Step)
    requires Reachable(ids, s) && Possible(ids, s, step)
    ensures Reachable(ids, Next(ids, s, step))
  {
    assert Run(ids, s, [step]) == Run(ids, Next(ids, s, step), []);
    ReachableOn(ids, s, [step], Next(ids, s, step));
  }

  /** From `asked`, where request number `req` for `op` was put on the network under `corr`: once it is delivered
      in `u` the one map has executed it and its response is on the network; once that is delivered in `w`, to a
      client still waited for, the one reply call and the one answer are what the map answered in `u`. */
  ghost predicate ComesBack(ids: Ids, asked: Pair, side: Side, corr: U64, op: Op, conn: nat, receipt: Option<string>, req: nat,
                            there: seq<Step>, u: Pair, back: seq<Step>, w: Pair, sendOk: bool)
  {
    var reply, request := Apply(Merged(u), op).1, Packet(side, Request(corr, op));
    var response := Packet(Other(side), Response(corr, reply));
    && request in asked.net
    && (Run(ids, asked, there) == Some(u) && request in u.net ==>
          var served := Next(ids, u, Deliver(request, true));
          && Merged(served) == Apply(Merged(u), op).0 && response in served.net
          && (Run(ids, served, back) == Some(w) && response in w.net && corr in NodeOf(w, side).pending ==>
                && HandlePeer(CfgOf(ids, side), NodeOf(w, side), response.message, sendOk).replies
                   == [ReplyCall(conn, receipt, reply)]
                && Next(ids, w, Deliver(response, sendOk)).hist.answers
                   == w.hist.answers + [Answer(req, conn, reply, true, |w.hist.effects|)]))
  }

  /** The round trip of a client's operation on the other node's key, whatever else happens on the way. */
  lemma RoundTrip(ids: Ids, s: Pair, side: Side, conn: nat, frame: ClientFrame, now: int, op: Op,
                  there: seq<Step>, u: Pair, back: seq<Step>, w: Pair, sendOk: bool)
    requires Reachable(ids, s) && Requests(frame, op) && !Home(side, op) && NodeOf(s, side).nextCorr < U64_MAX
    ensures Possible(ids, s, Local(side, FromClient(conn, frame, now, true)))
    ensures ComesBack(ids, Next(ids, s, Local(side, FromClient(conn, frame, now, true))), side, NodeOf(s, side).nextCorr + 1,
                      op, conn, frame.receipt, |s.hist.requests|, there, u, back, w, sendOk)
  {
    var step := Local(side, FromClient(conn, frame, now, true));
    AwayRequestForwarded(ids, s, side, conn, frame, now, true, op);
    ReachableNext(ids, s, step);
    TripFrom(ids, Next(ids, s, step), side, NodeOf(s, side).nextCorr + 1, op, Pending(conn, frame.receipt, now + 5000),
             |s.hist.requests|, there, u, back, w, sendOk);
  }

  lemma TripFrom(ids: Ids, asked: Pair, side: Side, corr: U64, op: Op, note: Pending, req: nat,
                 there: seq<Step>, u: Pair, back: seq<Step>, w: Pair, sendOk: bool)
    requires Reachable(ids, asked) && Packet(side, Request(corr, op)) in asked.net
    requires Ticket(side, corr) in asked.hist.issued && asked.hist.issued[Ticket(side, corr)] == req
    requires corr in NodeOf(asked, side).pending && NodeOf(asked, side).pending[corr] == note
    ensures ComesBack(ids, asked, side, corr, op, note.conn, note.receipt, req, there, u, back, w, sendOk)
  {
    var request := Packet(side, Request(corr, op));
    if Run(ids, asked, there) == Some(u) && request in u.net {
      ReachableOn(ids, asked, there, u);
      DeliveredRequestIsServed(ids, u, request);
      if Run(ids, Next(ids, u, Deliver(request, true)), back) == Some(w) && corr in NodeOf(w, side).pending {
        BackHome(ids, asked, there, u, request, back, w, note, req, Apply(Merged(u), op).1, sendOk);
      }
    }
  }

  /** The way back: the note made with the request is the one the response finds. */
  lemma BackHome(ids: Ids, asked: Pair, there: seq<Step>, u: Pair, request: Packet, back: seq<Step>, w: Pair,
                 note: Pending, req: nat, reply: Reply, sendOk: bool)
    requires Reachable(ids, asked) && request.message.Request? && Run(ids, asked, there) == Some(u) && request in u.net
    requires Run(ids, Next(ids, u, Deliver(request, true)), back) == Some(w)
    requires var t := Ticket(request.from, request.message.corr);
             && t in asked.hist.issued && asked.hist.issued[t] == req && Awaited(asked.lo, asked.hi, t)
             && NodeOf(asked, t.side).pending[t.corr] == note && Awaited(w.lo, w.hi, t)
    ensures var side, corr := request.from, request.message.corr;
            && HandlePeer(CfgOf(ids, side), NodeOf(w, side), Response(corr, reply), sendOk).replies
               == [ReplyCall(note.conn, note.receipt, reply)]
            && Arrive(ids, w, Packet(Other(side), Response(corr, reply)), sendOk).hist.answers
               == w.hist.answers + [Answer(req, note.conn, reply, true, |w.hist.effects|)]
  {
    var t, path := Ticket(request.from, request.message.corr), there + [Deliver(request, true)] + back;
    RunAppends(ids, asked, there, [Deliver(request, true)]);
    assert Run(ids, u, [Deliver(request, true)]) == Some(Next(ids, u, Deliver(request, true)));
    RunAppends(ids, asked, there + [Deliver(request, true)], back);
    ReachableIsGood(ids, asked);
    NoteStays(ids, asked, path, t);
    DeliveredResponseIsRelayed(ids, w, request.from, request.message.corr, reply, sendOk);
  }

  // ----- from the bytes of a connection -----

  /** `Frame::header`: the first header of that name. */
  function FirstHeader(hs: Stomp.Headers, name: string): (r: Option<string>)
    ensures r.None? <==> forall i :: 0 <= i < |hs| ==> hs[i].0 != name
    ensures r.Some? ==>
              exists i :: 0 <= i < |hs| && hs[i] == (name, r.value) && forall j :: 0 <= j < i ==> hs[j].0 != name
  {
    if hs == [] then None
    else if hs[0].0 == name then Some(hs[0].1)
    else
      var r := FirstHeader(hs[1..], name);
      assert r.Some? ==>
          exists i :: 0 <= i < |hs| && hs[i] == (name, r.value) && forall j :: 0 <= j < i ==> hs[j].0 != name by {
        if r.Some? {
          var i :| 0 <= i < |hs[1..]| && hs[1..][i] == (name, r.value) && forall j :: 0 <= j < i ==> hs[1..][j].0 != name;
          assert hs[i + 1] == (name, r.value);
          assert forall j :: 0 <= j < i + 1 ==> hs[j].0 != name by {
            forall j | 0 <= j < i + 1
              ensures hs[j].0 != name
            {
              if j > 0 {
                assert hs[j] == hs[1..][j - 1];
              }
            }
          }
        }
      }
      assert r.None? ==> forall i :: 0 < i < |hs| ==> hs[i].0 == hs[1..][i - 1].0;
      r
  }

  function ClientFrameOf(f: Stomp.Frame): ClientFrame {
    ClientFrame(f.command, FirstHeader(f.headers, "receipt"), f.body)
  }

  /** Whatever a well-behaved client has sent, however its bytes arrive, each SEND of an operation's text is
      read as a request for that operation. */
  lemma SentTextIsRequested(items: seq<StompStream.Item>, ps: StompStream.Pieces, n: nat, op: Op)
    requires forall i :: 0 <= i < |items| ==> StompStream.GoodItem(items[i])
    requires StompStream.Flat(ps) == StompStream.StreamOf(items) && n < |StompStream.FramesOf(items)|
    requires var f := StompStream.FramesOf(items)[n];
             Spells(f.command, "SEND") && f.body == OpText(op) && (op.Put? ==> Utf8.ByteLen(OpText(op)) <= 1024)
    ensures |StompStream.ReadingAll(ps).0| == |StompStream.FramesOf(items)|
    ensures Requests(ClientFrameOf(StompStream.ReadingAll(ps).0[n]), op)
  {
    StompStream.EncodedFramesReadBack(items, ps);
    TextRequestsOp(ClientFrameOf(StompStream.FramesOf(items)[n]), op);
  }

  // ----- who is connected -----

  /** Whether `conn` is connected after `evs`: the last of its arrival, its departure and its DISCONNECT says. */
  function ConnectedAfter(before: bool, evs: seq<Event>, conn: nat): bool
    decreases evs
  {
    if evs == [] then before
    else
      var now := match evs[0]
                 case Up(c) => c == conn || before
                 case Down(c) => c != conn && before
                 case FromClient(c, frame, _, _) => !(c == conn && Spells(frame.command, "DISCONNECT")) && before
                 case _ => before;
      ConnectedAfter(now, evs[1..], conn)
  }

  lemma {:induction false} ClientsAreTheConnected(cfg: Config, l: Ledger, st: NodeState, evs: seq<Event>, conn: nat)
    requires RunEvents(cfg, l, st, evs).Some?
    ensures conn in RunEvents(cfg, l, st, evs).value.1.clients <==> ConnectedAfter(conn in st.clients, evs, conn)
    decreases evs
  {
    if evs != [] {
      var ev := evs[0];
      if ev.FromClient? {
        FrameReading(ev.frame);
        NotBoth(ev.frame);
        AskClients(cfg, st, ev.conn, ev.frame.receipt, AskOf(ev.frame), ev.now, ev.sendOk);
      }
      ClientsAreTheConnected(cfg, Book(cfg, l, st, ev), Handle(cfg, st, ev).state, evs[1..], conn);
    }
  }

  lemma NotBoth(frame: ClientFrame)
    ensures !(Sends(frame) && Spells(frame.command, "DISCONNECT"))
  {
  }

  lemma AskClients(cfg: Config, st: NodeState, conn: nat, receipt: Option<string>, ask: Ask, now: int, sendOk: bool)
    requires ask.Do? && !Mine(cfg, ask.op) ==> st.nextCorr < U64_MAX
    ensures HandleAsk(cfg, st, conn, receipt, ask, now, sendOk).state.clients
            == if ask.Quit? then st.clients - {conn} else st.clients
  {
  }
}
