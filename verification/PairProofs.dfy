/** Every step of the pair keeps its invariant. */
module PairProofs {
  import opened Bytes
  import opened Kv
  import opened PeerCodec
  import opened Server
  import opened Atomic
  import opened Pairs
  import Utf8
  import Text

  // ----- histories only grow -----

  ghost predicate Grows(h: History, g: History) {
    && (forall t :: t in h.issued ==> t in g.issued && g.issued[t] == h.issued[t])
    && h.requests <= g.requests && h.effects <= g.effects && h.answers <= g.answers
  }

  lemma GaveReplyGrows(h: History, g: History, req: nat, reply: Reply, from: nat, to: nat, to': nat)
    requires Grows(h, g) && GaveReply(h, req, reply, from, to) && to <= to'
    ensures GaveReply(g, req, reply, from, to')
  {
    var i :| from <= i < to && i < |h.effects| && h.effects[i].req == req && h.effects[i].reply == reply;
    assert g.effects[i] == h.effects[i];
  }

  lemma PacketOkGrows(h: History, g: History, p: Packet)
    requires Grows(h, g) && PacketOk(h, p)
    ensures PacketOk(g, p)
  {
    if p.message.Response? {
      var n := h.issued[Ticket(Other(p.from), p.message.corr)];
      GaveReplyGrows(h, g, n, p.message.reply, h.requests[n].start, |h.effects|, |g.effects|);
    }
  }

  lemma AnswerOkGrows(h: History, g: History, a: Answer)
    requires Grows(h, g) && AnswerOk(h, a)
    ensures AnswerOk(g, a)
  {
    if a.relayed {
      GaveReplyGrows(h, g, a.req, a.reply, h.requests[a.req].start, a.end, a.end);
    }
  }

  lemma EffectOkGrows(h: History, g: History, i: nat)
    requires Grows(h, g) && i < |h.effects| && EffectOk(h, i)
    ensures EffectOk(g, i)
  {
    assert g.effects[i] == h.effects[i] && g.effects[..i] == h.effects[..i];
  }

  // ----- the four ways a history grows -----

  function AddRequest(h: History, r: Req): History {
    h.(requests := h.requests + [r])
  }

  function AddTicket(h: History, t: Ticket, n: nat): History {
    h.(issued := h.issued[t := n])
  }

  function AddEffect(h: History, f: Effect): History {
    h.(effects := h.effects + [f])
  }

  function AddAnswer(h: History, a: Answer): History {
    h.(answers := h.answers + [a])
  }

  lemma RequestAdded(ids: Ids, h: History, r: Req)
    requires HistoryOk(ids, h) && RequestOk(ids, h, r)
    ensures HistoryOk(ids, AddRequest(h, r)) && Grows(h, AddRequest(h, r))
  {
    var g := AddRequest(h, r);
    forall i | 0 <= i < |g.answers|
      ensures AnswerOk(g, g.answers[i])
    {
      AnswerOkGrows(h, g, h.answers[i]);
    }
    forall i | 0 <= i < |g.effects|
      ensures EffectOk(g, i)
    {
      EffectOkGrows(h, g, i);
    }
  }

  lemma TicketAdded(ids: Ids, h: History, t: Ticket, n: nat)
    requires HistoryOk(ids, h) && t !in h.issued && n < |h.requests|
    requires h.requests[n].side == t.side && h.requests[n].corr == t.corr
    ensures HistoryOk(ids, AddTicket(h, t, n)) && Grows(h, AddTicket(h, t, n))
  {
    var g := AddTicket(h, t, n);
    forall i | 0 <= i < |g.answers|
      ensures AnswerOk(g, g.answers[i])
    {
      AnswerOkGrows(h, g, h.answers[i]);
    }
    forall i | 0 <= i < |g.effects|
      ensures EffectOk(g, i)
    {
      EffectOkGrows(h, g, i);
    }
  }

  lemma EffectAdded(ids: Ids, h: History, f: Effect)
    requires HistoryOk(ids, h) && f.req < |h.requests| && f.op == h.requests[f.req].op
    requires f.reply == Apply(ApplyAll(Ops(h.effects)), f.op).1
    ensures HistoryOk(ids, AddEffect(h, f)) && Grows(h, AddEffect(h, f))
    ensures ApplyAll(Ops(AddEffect(h, f).effects)) == Apply(ApplyAll(Ops(h.effects)), f.op).0
  {
    var g := AddEffect(h, f);
    assert Ops(g.effects)[..|h.effects|] == Ops(h.effects);
    forall i | 0 <= i < |g.answers|
      ensures AnswerOk(g, g.answers[i])
    {
      AnswerOkGrows(h, g, h.answers[i]);
    }
    forall i | 0 <= i < |g.effects|
      ensures EffectOk(g, i)
    {
      if i < |h.effects| {
        EffectOkGrows(h, g, i);
      } else {
        assert g.effects[..i] == h.effects;
        assert RequestOk(ids, h, h.requests[f.req]);
      }
    }
  }

  lemma AnswerAdded(ids: Ids, h: History, a: Answer)
    requires HistoryOk(ids, h) && AnswerOk(h, a) && !Answered(h, a.req)
    ensures HistoryOk(ids, AddAnswer(h, a)) && Grows(h, AddAnswer(h, a))
  {
    var g := AddAnswer(h, a);
    forall i | 0 <= i < |g.answers|
      ensures AnswerOk(g, g.answers[i])
    {
      AnswerOkGrows(h, g, g.answers[i]);
    }
    forall i | 0 <= i < |g.effects|
      ensures EffectOk(g, i)
    {
      EffectOkGrows(h, g, i);
    }
  }

  // ----- a side under a growing history -----

  /** No new answer is for a request this node still waits on. */
  ghost predicate LeavesWaiting(h: History, g: History, side: Side, st: NodeState) {
    forall i, c :: |h.answers| <= i < |g.answers| && c in st.pending && Ticket(side, c) in h.issued ==>
      g.answers[i].req != h.issued[Ticket(side, c)]
  }

  lemma WaitsGrow(h: History, g: History, side: Side, st: NodeState)
    requires Grows(h, g) && |h.answers| <= |g.answers| && WaitsProperly(h, side, st) && LeavesWaiting(h, g, side, st)
    ensures WaitsProperly(g, side, st)
  {
    forall c | c in st.pending
      ensures Names(g, Ticket(side, c)) && !Answered(g, g.issued[Ticket(side, c)])
    {
      var n := h.issued[Ticket(side, c)];
      assert !Answered(h, n);
      forall i | 0 <= i < |g.answers|
        ensures g.answers[i].req != n
      {
        if i < |h.answers| {
          assert g.answers[i] == h.answers[i];
        }
      }
    }
  }

  /** The two halves of the keyspace. */
  lemma MineIsParity(ids: Ids, side: Side, op: Op)
    requires ids.lo < ids.hi
    ensures Mine(CfgOf(ids, side), op) <==> op.k % 2 == if side.Lo? then 1 else 0
    ensures Mine(CfgOf(ids, side), op) <==> !Mine(CfgOf(ids, Other(side)), op)
  {
  }

  lemma PacketsOkGrows(h: History, g: History, net: multiset<Packet>, made: set<Packet>)
    requires PacketsOk(h, net, made) && Grows(h, g)
    ensures PacketsOk(g, net, made)
  {
    forall p | p in made
      ensures PacketOk(g, p)
    {
      PacketOkGrows(h, g, p);
    }
  }

  /** Executing an operation at its home: placement, sizes and the merged map. */
  lemma HomeStep(ids: Ids, s: Pair, side: Side, op: Op)
    requires ids.lo < ids.hi && Inv(ids, s) && Mine(CfgOf(ids, side), op) && SmallOp(op)
    ensures var (entries, reply) := Execute(NodeOf(s, side).entries, op);
            && Placed(side, entries)
            && reply == Apply(ApplyAll(Ops(s.hist.effects)), op).1
            && Merged(WithNode(s, side, NodeOf(s, side).(entries := entries))) == Apply(ApplyAll(Ops(s.hist.effects)), op).0
            && SmallReply(reply)
  {
    MineIsParity(ids, side, op);
    var home, away := NodeOf(s, side).entries, NodeOf(s, Other(side)).entries;
    HomeExecutionIsAtomic(home, away, op);
    assert Merged(s) == home + away by {
      MergeCommutes(s.lo.entries, s.hi.entries);
    }
    var entries := Execute(home, op).0;
    PlacedAfter(side, home, op);
    SmallReplyAfter(side, home, op);
    assert Merged(WithNode(s, side, NodeOf(s, side).(entries := entries))) == entries + away by {
      MergeCommutes(entries, away);
    }
  }

  lemma PlacedAfter(side: Side, home: Entries, op: Op)
    requires Placed(side, home) && SmallOp(op) && op.k % 2 == if side.Lo? then 1 else 0
    ensures Placed(side, Execute(home, op).0)
  {
    var after := Execute(home, op).0;
    forall k | k in after
      ensures k % 2 == (if side.Lo? then 1 else 0) && Utf8.ByteLen(after[k]) <= 1018
    {
      assert k == op.k || (k in home && after[k] == home[k]);
    }
  }

  lemma SmallReplyAfter(side: Side, home: Entries, op: Op)
    requires Placed(side, home)
    ensures SmallReply(Execute(home, op).1)
  {
    var r := Execute(home, op).1;
    match r {
      case Refused(why) => BytesAtMost(why);
      case Value(v) => assert v == home[op.k];
      case _ =>
    }
  }

  // ----- the steps -----

  lemma AskedOpsAreSmall(frame: ClientFrame)
    requires AskOf(frame).Do?
    ensures SmallOp(AskOf(frame).op)
  {
    assert ParseOp(frame.body) == Ok(AskOf(frame).op);
    if AskOf(frame).op.Put? {
      ParsedPutFits(frame.body);
    }
  }

  /** `st` differs from `node` only in its clients and by having dropped pending entries. */
  predicate Lighter(st: NodeState, node: NodeState) {
    && st.entries == node.entries && st.nextCorr == node.nextCorr
    && forall c | c in st.pending :: c in node.pending && st.pending[c] == node.pending[c]
  }

  lemma LighterSide(h: History, side: Side, st: NodeState, node: NodeState)
    requires SideOk(h, side, node) && Lighter(st, node)
    ensures SideOk(h, side, st)
  {
  }

  lemma LighterKeepsInv(ids: Ids, s: Pair, side: Side, st: NodeState)
    requires Inv(ids, s) && Lighter(st, NodeOf(s, side))
    ensures Inv(ids, WithNode(s, side, st))
  {
    LighterSide(s.hist, side, st, NodeOf(s, side));
  }

  lemma SettleNothing(s: Pair, side: Side, e: Effects, h: History)
    requires e.made == [] && e.messages == []
    ensures Settle(s, side, e, h) == WithNode(s, side, e.state).(hist := h)
  {
    assert Packets(side, []) == [];
    assert s.net + multiset(Packets(side, e.messages)) == s.net;
    assert s.made + (set p | p in Packets(side, e.made)) == s.made;
  }

  lemma NotYetAnswered(ids: Ids, h: History, n: nat)
    requires HistoryOk(ids, h) && n >= |h.requests|
    ensures !Answered(h, n)
  {
    forall i | 0 <= i < |h.answers|
      ensures h.answers[i].req != n
    {
      assert AnswerOk(h, h.answers[i]);
    }
  }

  /** A history grown without new tickets, and without answers to waiting requests, suits the node as before. */
  lemma SideGrew(h: History, g: History, side: Side, st: NodeState)
    requires SideOk(h, side, st) && Grows(h, g) && g.issued == h.issued && LeavesWaiting(h, g, side, st)
    ensures SideOk(g, side, st)
  {
    WaitsGrow(h, g, side, st);
  }

  lemma NewAnswersLeaveWaiting(h: History, g: History, side: Side, st: NodeState)
    requires WaitsProperly(h, side, st)
    requires forall i :: |h.answers| <= i < |g.answers| ==> g.answers[i].req >= |h.requests|
    ensures LeavesWaiting(h, g, side, st)
  {
    forall i, c | |h.answers| <= i < |g.answers| && c in st.pending && Ticket(side, c) in h.issued
      ensures g.answers[i].req != h.issued[Ticket(side, c)]
    {
      assert Names(h, Ticket(side, c));
    }
  }

  function HomeHistory(h: History, side: Side, conn: nat, op: Op, reply: Reply): History {
    AddAnswer(AddEffect(AddRequest(h, Req(side, conn, op, 0, |h.effects|)), Effect(|h.requests|, op, reply)),
              Answer(|h.requests|, conn, reply, true, |h.effects| + 1))
  }

  lemma HomeHistoryOk(ids: Ids, h: History, side: Side, conn: nat, op: Op, reply: Reply)
    requires HistoryOk(ids, h) && SmallOp(op) && reply == Apply(ApplyAll(Ops(h.effects)), op).1
    ensures var g := HomeHistory(h, side, conn, op, reply);
            && HistoryOk(ids, g) && Grows(h, g) && g.issued == h.issued && g.answers[..|h.answers|] == h.answers
            && |g.answers| == |h.answers| + 1 && g.answers[|h.answers|].req == |h.requests|
            && ApplyAll(Ops(g.effects)) == Apply(ApplyAll(Ops(h.effects)), op).0
  {
    var n := |h.requests|;
    var r := Req(side, conn, op, 0, |h.effects|);
    var f := Effect(n, op, reply);
    var a := Answer(n, conn, reply, true, |h.effects| + 1);
    var h1 := AddRequest(h, r);
    RequestAdded(ids, h, r);
    EffectAdded(ids, h1, f);
    var h2 := AddEffect(h1, f);
    assert h2.effects[|h.effects|] == f;
    NotYetAnswered(ids, h, n);
    assert !Answered(h2, n) by {
      assert h2.answers == h.answers;
    }
    AnswerAdded(ids, h2, a);
  }

  lemma HomeNoted(ids: Ids, s: Pair, side: Side, conn: nat, op: Op, e: Effects)
    requires Mine(CfgOf(ids, side), op)
    ensures NoteRequest(ids, s, side, conn, op, e)
            == HomeHistory(s.hist, side, conn, op, Execute(NodeOf(s, side).entries, op).1)
  {
  }

  /** A client operation on a key this node owns. */
  lemma HomeRequest(ids: Ids, s: Pair, side: Side, conn: nat, op: Op, receipt: Option<string>)
    requires ids.lo < ids.hi && Inv(ids, s) && Mine(CfgOf(ids, side), op) && SmallOp(op)
    ensures var (entries, reply) := Execute(NodeOf(s, side).entries, op);
            var e := Effects(NodeOf(s, side).(entries := entries), [], [], [ReplyCall(conn, receipt, reply)]);
            Inv(ids, Settle(s, side, e, NoteRequest(ids, s, side, conn, op, e)))
  {
    var (entries, reply) := Execute(NodeOf(s, side).entries, op);
    var e := Effects(NodeOf(s, side).(entries := entries), [], [], [ReplyCall(conn, receipt, reply)]);
    HomeStep(ids, s, side, op);
    HomeNoted(ids, s, side, conn, op, e);
    HomeHistoryOk(ids, s.hist, side, conn, op, reply);
    QuietExecution(ids, s, side, e, HomeHistory(s.hist, side, conn, op, reply));
  }

  /** An execution at home that says nothing to the peer. */
  lemma QuietExecution(ids: Ids, s: Pair, side: Side, e: Effects, g: History)
    requires Inv(ids, s) && HistoryOk(ids, g) && Grows(s.hist, g) && g.issued == s.hist.issued
    requires e.made == [] && e.messages == []
    requires e.state == NodeOf(s, side).(entries := e.state.entries) && Placed(side, e.state.entries)
    requires Merged(WithNode(s, side, e.state)) == ApplyAll(Ops(g.effects))
    requires |g.answers| == |s.hist.answers| + 1 && g.answers[|s.hist.answers|].req == |s.hist.requests|
    ensures Inv(ids, Settle(s, side, e, g))
  {
    SettleNothing(s, side, e, g);
    ExecutionSettles(ids, s, side, e.state, g);
  }

  /** An execution at home, put together: the node has the new entries, the history the new effect. */
  lemma ExecutionSettles(ids: Ids, s: Pair, side: Side, st: NodeState, g: History)
    requires Inv(ids, s) && HistoryOk(ids, g) && Grows(s.hist, g) && g.issued == s.hist.issued
    requires st == NodeOf(s, side).(entries := st.entries) && Placed(side, st.entries)
    requires Merged(WithNode(s, side, st)) == ApplyAll(Ops(g.effects))
    requires forall i :: |s.hist.answers| <= i < |g.answers| ==> g.answers[i].req >= |s.hist.requests|
    ensures Inv(ids, WithNode(s, side, st).(hist := g))
  {
    PacketsOkGrows(s.hist, g, s.net, s.made);
    BothSidesGrew(s, g);
    assert SideOk(g, side, st);
  }

  lemma BothSidesGrew(s: Pair, g: History)
    requires SideOk(s.hist, Lo, s.lo) && SideOk(s.hist, Hi, s.hi) && Grows(s.hist, g) && g.issued == s.hist.issued
    requires forall i :: |s.hist.answers| <= i < |g.answers| ==> g.answers[i].req >= |s.hist.requests|
    ensures SideOk(g, Lo, s.lo) && SideOk(g, Hi, s.hi)
  {
    NewAnswersLeaveWaiting(s.hist, g, Lo, s.lo);
    NewAnswersLeaveWaiting(s.hist, g, Hi, s.hi);
    SideGrew(s.hist, g, Lo, s.lo);
    SideGrew(s.hist, g, Hi, s.hi);
  }

  /** At most one message is made, and only what is made is put on the network. */
  predicate SaysAtMost(e: Effects, m: Peer) {
    (e.made == [] || e.made == [m]) && (e.messages == [] || (e.messages == [m] && e.made == [m]))
  }

  lemma PacketsAdded(h: History, net: multiset<Packet>, made: set<Packet>, side: Side, e: Effects, m: Peer)
    requires PacketsOk(h, net, made) && SaysAtMost(e, m) && PacketOk(h, Packet(side, m))
    ensures PacketsOk(h, net + multiset(Packets(side, e.messages)), made + (set p | p in Packets(side, e.made)))
  {
    var more, out := Packets(side, e.made), Packets(side, e.messages);
    assert forall p :: p in more ==> p == Packet(side, m);
    assert forall p :: p in out ==> p == Packet(side, m) && more[0] == p;
  }

  function ForwardHistory(h: History, side: Side, conn: nat, op: Op, corr: U64): History {
    AddTicket(AddRequest(h, Req(side, conn, op, corr, |h.effects|)), Ticket(side, corr), |h.requests|)
  }

  lemma ForwardHistoryOk(ids: Ids, h: History, side: Side, conn: nat, op: Op, corr: U64)
    requires ids.lo < ids.hi && HistoryOk(ids, h) && SmallOp(op) && !Mine(CfgOf(ids, side), op)
    requires Ticket(side, corr) !in h.issued
    ensures var g := ForwardHistory(h, side, conn, op, corr);
            && HistoryOk(ids, g) && Grows(h, g)
            && Names(g, Ticket(side, corr)) && !Answered(g, |h.requests|)
            && PacketOk(g, Packet(side, Request(corr, op)))
  {
    MineIsParity(ids, side, op);
    var r := Req(side, conn, op, corr, |h.effects|);
    RequestAdded(ids, h, r);
    TicketAdded(ids, AddRequest(h, r), Ticket(side, corr), |h.requests|);
    NotYetAnswered(ids, h, |h.requests|);
    assert ForwardHistory(h, side, conn, op, corr).answers == h.answers;
  }

  /** The forwarding node itself: it waits for the new ticket, or has just answered it. */
  lemma ForwarderOk(h: History, side: Side, st: NodeState, conn: nat, op: Op, p: Pending)
    requires SideOk(h, side, st) && st.nextCorr < U64_MAX && p.conn == conn
    requires Ticket(side, st.nextCorr + 1) !in h.issued
    requires var g := ForwardHistory(h, side, conn, op, st.nextCorr + 1); Grows(h, g) && !Answered(g, |h.requests|)
    ensures var g, corr := ForwardHistory(h, side, conn, op, st.nextCorr + 1), st.nextCorr + 1;
            && SideOk(g, side, st.(nextCorr := corr))
            && SideOk(g, side, st.(nextCorr := corr, pending := st.pending[corr := p]))
  {
    var corr := st.nextCorr + 1;
    var g := ForwardHistory(h, side, conn, op, corr);
    WaitsGrow(h, g, side, st);
    assert Names(g, Ticket(side, corr));
    assert IdsFresh(g, side, st.(nextCorr := corr));
  }

  lemma BystanderOk(h: History, side: Side, st: NodeState, conn: nat, op: Op, corr: U64)
    requires SideOk(h, Other(side), st) && Grows(h, ForwardHistory(h, side, conn, op, corr))
    ensures SideOk(ForwardHistory(h, side, conn, op, corr), Other(side), st)
  {
    WaitsGrow(h, ForwardHistory(h, side, conn, op, corr), Other(side), st);
  }

  /** An answer to a request that is not pending anywhere. */
  lemma AnswerKeepsSide(h: History, side: Side, st: NodeState, a: Answer)
    requires SideOk(h, side, st)
    requires forall c :: c in st.pending ==> h.issued[Ticket(side, c)] != a.req
    ensures SideOk(AddAnswer(h, a), side, st)
  {
    SideGrew(h, AddAnswer(h, a), side, st);
  }

  /** Tickets of different nodes, or with different ids, name different requests. */
  lemma NamesApart(h: History, t: Ticket, u: Ticket)
    requires Names(h, t) && Names(h, u) && t != u
    ensures h.issued[t] != h.issued[u]
  {
  }

  /** A step that leaves the stores alone and says at most `m`, put together. */
  lemma ForwardSettles(ids: Ids, s: Pair, side: Side, e: Effects, g: History, m: Peer)
    requires Inv(ids, s) && HistoryOk(ids, g) && g.effects == s.hist.effects
    requires SideOk(g, side, e.state) && SideOk(g, Other(side), NodeOf(s, Other(side)))
    requires e.state.entries == NodeOf(s, side).entries
    requires PacketsOk(g, s.net, s.made) && SaysAtMost(e, m) && PacketOk(g, Packet(side, m))
    ensures Inv(ids, Settle(s, side, e, g))
  {
    PacketsAdded(g, s.net, s.made, side, e, m);
  }

  /** The operation was handed to the socket and its answer is waited for. */
  lemma ForwardTaken(ids: Ids, s: Pair, side: Side, conn: nat, op: Op, p: Pending)
    requires ids.lo < ids.hi && Inv(ids, s) && !Mine(CfgOf(ids, side), op) && SmallOp(op)
    requires NodeOf(s, side).nextCorr < U64_MAX && p.conn == conn
    ensures var node, corr := NodeOf(s, side), NodeOf(s, side).nextCorr + 1;
            var e := Effects(node.(nextCorr := corr, pending := node.pending[corr := p]),
                             [Request(corr, op)], [Request(corr, op)], []);
            Inv(ids, Settle(s, side, e, ForwardHistory(s.hist, side, conn, op, corr)))
  {
    var node, h, corr := NodeOf(s, side), s.hist, NodeOf(s, side).nextCorr + 1;
    var e := Effects(node.(nextCorr := corr, pending := node.pending[corr := p]),
                     [Request(corr, op)], [Request(corr, op)], []);
    assert SideOk(h, side, node) && SideOk(h, Other(side), NodeOf(s, Other(side)));
    ForwardHistoryOk(ids, h, side, conn, op, corr);
    ForwarderOk(h, side, node, conn, op, p);
    BystanderOk(h, side, NodeOf(s, Other(side)), conn, op, corr);
    PacketsOkGrows(h, ForwardHistory(h, side, conn, op, corr), s.net, s.made);
    ForwardSettles(ids, s, side, e, ForwardHistory(h, side, conn, op, corr), Request(corr, op));
  }

  /** It could not be sent, and the client was told so. */
  lemma ForwardFailed(ids: Ids, s: Pair, side: Side, conn: nat, op: Op, e: Effects, reply: Reply)
    requires ids.lo < ids.hi && Inv(ids, s) && !Mine(CfgOf(ids, side), op) && SmallOp(op)
    requires NodeOf(s, side).nextCorr < U64_MAX && e.state == NodeOf(s, side).(nextCorr := NodeOf(s, side).nextCorr + 1)
    requires SaysAtMost(e, Request(NodeOf(s, side).nextCorr + 1, op))
    ensures var g := ForwardHistory(s.hist, side, conn, op, NodeOf(s, side).nextCorr + 1);
            Inv(ids, Settle(s, side, e, AddAnswer(g, Answer(|s.hist.requests|, conn, reply, false, |s.hist.effects|))))
  {
    var node, away, h, corr := NodeOf(s, side), NodeOf(s, Other(side)), s.hist, NodeOf(s, side).nextCorr + 1;
    var g, a := ForwardHistory(h, side, conn, op, corr), Answer(|h.requests|, conn, reply, false, |h.effects|);
    assert SideOk(h, side, node) && SideOk(h, Other(side), away);
    ForwardHistoryOk(ids, h, side, conn, op, corr);
    ForwarderOk(h, side, node, conn, op, Pending(conn, None, 0));
    BystanderOk(h, side, away, conn, op, corr);
    FailedForward(ids, h, g, side, e.state, a);
    FailedForward(ids, h, g, Other(side), away, a);
    PacketsOkGrows(h, g, s.net, s.made);
    PacketsOkGrows(g, AddAnswer(g, a), s.net, s.made);
    PacketOkGrows(g, AddAnswer(g, a), Packet(side, Request(corr, op)));
    ForwardSettles(ids, s, side, e, AddAnswer(g, a), Request(corr, op));
  }

  /** The two ways forwarding goes. */
  ghost predicate ForwardsAs(e: Effects, st: NodeState, op: Op, p: Pending)
    requires st.nextCorr < U64_MAX
  {
    var corr := st.nextCorr + 1;
    var m := Request(corr, op);
    || e == Effects(st.(nextCorr := corr, pending := st.pending[corr := p]), [m], [m], [])
    || (e.state == st.(nextCorr := corr) && |e.replies| == 1 && SaysAtMost(e, m))
  }

  lemma ForwardShape(cfg: Config, st: NodeState, conn: nat, receipt: Option<string>, op: Op, now: int, sendOk: bool)
    requires st.nextCorr < U64_MAX
    ensures ForwardsAs(Forward(cfg, st, conn, receipt, op, now, sendOk), st, op, Pending(conn, receipt, now + FORWARD_TIMEOUT))
  {
  }

  lemma ForwardNoted(ids: Ids, s: Pair, side: Side, conn: nat, op: Op, e: Effects)
    requires !Mine(CfgOf(ids, side), op) && NodeOf(s, side).nextCorr < U64_MAX
    ensures var g := ForwardHistory(s.hist, side, conn, op, NodeOf(s, side).nextCorr + 1);
            NoteRequest(ids, s, side, conn, op, e)
            == if e.replies == [] then g
               else AddAnswer(g, Answer(|s.hist.requests|, conn, e.replies[0].reply, false, |s.hist.effects|))
  {
    assert s.hist.answers + [] == s.hist.answers;
  }

  lemma ForwardArrives(ids: Ids, s: Pair, side: Side, conn: nat, op: Op, e: Effects, p: Pending)
    requires ids.lo < ids.hi && Inv(ids, s) && !Mine(CfgOf(ids, side), op) && SmallOp(op)
    requires NodeOf(s, side).nextCorr < U64_MAX && p.conn == conn && ForwardsAs(e, NodeOf(s, side), op, p)
    ensures Inv(ids, Settle(s, side, e, NoteRequest(ids, s, side, conn, op, e)))
  {
    ForwardNoted(ids, s, side, conn, op, e);
    if e.replies == [] {
      ForwardTaken(ids, s, side, conn, op, p);
    } else {
      ForwardFailed(ids, s, side, conn, op, e, e.replies[0].reply);
    }
  }

  /** A client operation on a key of the other node. */
  lemma ForwardRequest(ids: Ids, s: Pair, side: Side, conn: nat, receipt: Option<string>, op: Op, now: int, sendOk: bool)
    requires ids.lo < ids.hi && Inv(ids, s) && !Mine(CfgOf(ids, side), op) && SmallOp(op)
    requires NodeOf(s, side).nextCorr < U64_MAX
    ensures var e := Forward(CfgOf(ids, side), NodeOf(s, side), conn, receipt, op, now, sendOk);
            Inv(ids, Settle(s, side, e, NoteRequest(ids, s, side, conn, op, e)))
  {
    ForwardShape(CfgOf(ids, side), NodeOf(s, side), conn, receipt, op, now, sendOk);
    ForwardArrives(ids, s, side, conn, op, Forward(CfgOf(ids, side), NodeOf(s, side), conn, receipt, op, now, sendOk),
                   Pending(conn, receipt, now + FORWARD_TIMEOUT));
  }

  /** Reporting a failed forward answers a request nobody waits on. */
  lemma FailedForward(ids: Ids, h: History, g: History, side: Side, st: NodeState, a: Answer)
    requires HistoryOk(ids, g) && SideOk(g, side, st) && AnswerOk(g, a) && !Answered(g, a.req)
    requires forall c :: c in st.pending ==> Names(h, Ticket(side, c)) && g.issued[Ticket(side, c)] == h.issued[Ticket(side, c)]
    requires a.req == |h.requests|
    ensures HistoryOk(ids, AddAnswer(g, a)) && Grows(g, AddAnswer(g, a)) && SideOk(AddAnswer(g, a), side, st)
  {
    AnswerAdded(ids, g, a);
    AnswerKeepsSide(g, side, st, a);
  }

  /** A request packet executes its own request, at that key's home. */
  lemma RequestArrives(ids: Ids, s: Pair, p: Packet, sendOk: bool)
    requires ids.lo < ids.hi && Inv(ids, s) && p.message.Request? && PacketOk(s.hist, p)
    ensures Inv(ids, Arrive(ids, s, p, sendOk))
    ensures Mine(CfgOf(ids, Other(p.from)), p.message.op)
    ensures Names(s.hist, Ticket(p.from, p.message.corr))
  {
    var side, h := Other(p.from), s.hist;
    var node, corr, op := NodeOf(s, side), p.message.corr, p.message.op;
    var n := h.issued[Ticket(p.from, corr)];
    assert RequestOk(ids, h, h.requests[n]) && SideOk(h, p.from, NodeOf(s, p.from));
    var (entries, reply) := Execute(node.entries, op);
    HomeStep(ids, s, side, op);
    var f := Effect(n, op, reply);
    var g := AddEffect(h, f);
    EffectAdded(ids, h, f);
    var e := HandlePeer(CfgOf(ids, side), node, p.message, sendOk);
    assert g.effects[|h.effects|] == f;
    assert GaveReply(g, n, reply, g.requests[n].start, |g.effects|);
    ExecutionSettles(ids, s, side, e.state, g);
    ResponseLeaves(ids, WithNode(s, side, e.state).(hist := g), side, e, Response(corr, reply));
    assert NotePeer(ids, s, p) == g;
  }

  /** What a node says about the state it is already in. */
  lemma ResponseLeaves(ids: Ids, s: Pair, side: Side, e: Effects, m: Peer)
    requires Inv(ids, s) && NodeOf(s, side) == e.state && SaysAtMost(e, m) && PacketOk(s.hist, Packet(side, m))
    ensures Inv(ids, Settle(s, side, e, s.hist))
  {
    PacketsAdded(s.hist, s.net, s.made, side, e, m);
  }

  /** A response packet answers the request it names, or finds nobody waiting. */
  lemma ResponseArrives(ids: Ids, s: Pair, p: Packet, sendOk: bool)
    requires Inv(ids, s) && p.message.Response? && PacketOk(s.hist, p)
    ensures Inv(ids, Arrive(ids, s, p, sendOk))
  {
    var side, h := Other(p.from), s.hist;
    var node, corr := NodeOf(s, side), p.message.corr;
    var e := HandlePeer(CfgOf(ids, side), node, p.message, sendOk);
    SettleNothing(s, side, e, NotePeer(ids, s, p));
    assert SideOk(h, side, node) && SideOk(h, Other(side), NodeOf(s, Other(side)));
    if corr in node.pending {
      var n := h.issued[Ticket(side, corr)];
      var a := Answer(n, node.pending[corr].conn, p.message.reply, true, |h.effects|);
      assert RequestOk(ids, h, h.requests[n]);
      AnswerAdded(ids, h, a);
      LighterSide(h, side, e.state, node);
      ApartFrom(h, side, e.state, Ticket(side, corr));
      ApartFrom(h, Other(side), NodeOf(s, Other(side)), Ticket(side, corr));
      AnswerKeepsSide(h, side, e.state, a);
      AnswerKeepsSide(h, Other(side), NodeOf(s, Other(side)), a);
      PacketsOkGrows(h, AddAnswer(h, a), s.net, s.made);
    }
  }

  /** A node not waiting on `t` waits on other requests than `t`'s. */
  lemma ApartFrom(h: History, side: Side, st: NodeState, t: Ticket)
    requires SideOk(h, side, st) && Names(h, t) && (t.side == side ==> t.corr !in st.pending)
    ensures forall c :: c in st.pending ==> h.issued[Ticket(side, c)] != h.issued[t]
  {
    forall c | c in st.pending
      ensures h.issued[Ticket(side, c)] != h.issued[t]
    {
      NamesApart(h, Ticket(side, c), t);
    }
  }

  /** The answers a tick gives: one per due request, none of them answered before, all different. */
  lemma TimeoutsOk(ids: Ids, h: History, side: Side, st: NodeState, order: seq<U64>, replies: seq<ReplyCall>)
    requires HistoryOk(ids, h) && SideOk(h, side, st) && |replies| == |order|
    requires forall i, j :: 0 <= i < j < |order| ==> order[i] != order[j]
    requires forall i :: 0 <= i < |order| ==> order[i] in st.pending && replies[i].conn == st.pending[order[i]].conn
    ensures HistoryOk(ids, h.(answers := h.answers + Timeouts(h, side, order, replies)))
  {
    var ts := Timeouts(h, side, order, replies);
    var g := h.(answers := h.answers + ts);
    forall i | 0 <= i < |order|
      ensures Names(h, Ticket(side, order[i])) && ts[i].req == h.issued[Ticket(side, order[i])]
      ensures AnswerOk(h, ts[i]) && !Answered(h, ts[i].req)
    {
    }
    forall i | 0 <= i < |g.answers|
      ensures AnswerOk(g, g.answers[i])
    {
      AnswerOkGrows(h, g, if i < |h.answers| then h.answers[i] else ts[i - |h.answers|]);
    }
    forall i, j | 0 <= i < j < |g.answers|
      ensures g.answers[i].req != g.answers[j].req
    {
      if i >= |h.answers| {
        NamesApart(h, Ticket(side, order[i - |h.answers|]), Ticket(side, order[j - |h.answers|]));
      } else if j >= |h.answers| {
        assert !Answered(h, ts[j - |h.answers|].req);
      }
    }
    forall i | 0 <= i < |g.effects|
      ensures EffectOk(g, i)
    {
      EffectOkGrows(h, g, i);
    }
  }

  lemma TimeoutsLeaveWaiting(h: History, side: Side, order: seq<U64>, replies: seq<ReplyCall>, who: Side, st: NodeState)
    requires SideOk(h, who, st) && |replies| == |order|
    requires forall i :: 0 <= i < |order| ==> Names(h, Ticket(side, order[i]))
    requires who == side ==> forall i :: 0 <= i < |order| ==> order[i] !in st.pending
    ensures SideOk(h.(answers := h.answers + Timeouts(h, side, order, replies)), who, st)
  {
    var g := h.(answers := h.answers + Timeouts(h, side, order, replies));
    forall i, c | |h.answers| <= i < |g.answers| && c in st.pending && Ticket(who, c) in h.issued
      ensures g.answers[i].req != h.issued[Ticket(who, c)]
    {
      NamesApart(h, Ticket(side, order[i - |h.answers|]), Ticket(who, c));
    }
    SideGrew(h, g, who, st);
  }

  lemma TickArrives(ids: Ids, s: Pair, side: Side, now: int, order: seq<U64>)
    requires Inv(ids, s) && Enumerates(order, Due(NodeOf(s, side), now))
    ensures Inv(ids, Next(ids, s, Local(side, Tick(now, order))))
  {
    var node, h, cfg := NodeOf(s, side), s.hist, CfgOf(ids, side);
    var e := Handle(cfg, node, Tick(now, order));
    forall i | 0 <= i < |order|
      ensures order[i] in Due(node, now)
    {
      assert order[i] in order;
    }
    assert SideOk(h, side, node) && SideOk(h, Other(side), NodeOf(s, Other(side)));
    TimeoutsOk(ids, h, side, node, order, e.replies);
    LighterSide(h, side, e.state, node);
    TimeoutsLeaveWaiting(h, side, order, e.replies, side, e.state);
    TimeoutsLeaveWaiting(h, side, order, e.replies, Other(side), NodeOf(s, Other(side)));
    var g := h.(answers := h.answers + Timeouts(h, side, order, e.replies));
    PacketsOkGrows(h, g, s.net, s.made);
    SettleNothing(s, side, e, g);
  }

  /** What a client asks for, whatever the text it was asked in. */
  lemma AskArrives(ids: Ids, s: Pair, side: Side, conn: nat, receipt: Option<string>, ask: Ask, now: int, sendOk: bool)
    requires ids.lo < ids.hi && Inv(ids, s) && (ask.Do? ==> SmallOp(ask.op))
    requires ask.Do? && !Mine(CfgOf(ids, side), ask.op) ==> NodeOf(s, side).nextCorr < U64_MAX
    ensures var e := HandleAsk(CfgOf(ids, side), NodeOf(s, side), conn, receipt, ask, now, sendOk);
            Inv(ids, Settle(s, side, e, if ask.Do? then NoteRequest(ids, s, side, conn, ask.op, e) else s.hist))
  {
    if ask.Do? {
      if Mine(CfgOf(ids, side), ask.op) {
        HomeRequest(ids, s, side, conn, ask.op, receipt);
      } else {
        ForwardRequest(ids, s, side, conn, receipt, ask.op, now, sendOk);
      }
    } else {
      var e := HandleAsk(CfgOf(ids, side), NodeOf(s, side), conn, receipt, ask, now, sendOk);
      SettleNothing(s, side, e, s.hist);
      LighterKeepsInv(ids, s, side, e.state);
    }
  }

  lemma ClientArrives(ids: Ids, s: Pair, side: Side, ev: Event)
    requires ids.lo < ids.hi && Inv(ids, s) && ev.FromClient? && Able(CfgOf(ids, side), NodeOf(s, side), ev)
    ensures Inv(ids, Next(ids, s, Local(side, ev)))
  {
    if AskOf(ev.frame).Do? {
      AskedOpsAreSmall(ev.frame);
    }
    AskArrives(ids, s, side, ev.conn, ev.frame.receipt, AskOf(ev.frame), ev.now, ev.sendOk);
  }

  /** A client comes or goes, or a datagram says nothing. */
  lemma QuietEvent(ids: Ids, s: Pair, side: Side, ev: Event)
    requires Inv(ids, s) && (ev.Up? || ev.Down? || ev.Unreadable?)
    ensures Inv(ids, Next(ids, s, Local(side, ev)))
  {
    var e := Handle(CfgOf(ids, side), NodeOf(s, side), ev);
    SettleNothing(s, side, e, s.hist);
    LighterKeepsInv(ids, s, side, e.state);
  }

  lemma ArriveKeepsInv(ids: Ids, s: Pair, p: Packet, sendOk: bool)
    requires ids.lo < ids.hi && Inv(ids, s) && PacketOk(s.hist, p)
    ensures Inv(ids, Arrive(ids, s, p, sendOk))
  {
    if p.message.Request? {
      RequestArrives(ids, s, p, sendOk);
    } else {
      ResponseArrives(ids, s, p, sendOk);
    }
  }

  lemma TakenOff(ids: Ids, s: Pair, p: Packet)
    requires Inv(ids, s)
    ensures Inv(ids, s.(net := s.net - multiset{p}))
  {
    assert forall q :: q in s.net - multiset{p} ==> q in s.net;
  }

  lemma StepKeepsInv(ids: Ids, s: Pair, step: Step)
    requires ids.lo < ids.hi && Inv(ids, s) && Possible(ids, s, step)
    ensures Inv(ids, Next(ids, s, step))
  {
    match step {
      case Local(side, ev) =>
        if ev.FromClient? {
          ClientArrives(ids, s, side, ev);
        } else if ev.Tick? {
          TickArrives(ids, s, side, ev.now, ev.order);
        } else {
          QuietEvent(ids, s, side, ev);
        }
      case Deliver(p, sendOk) =>
        TakenOff(ids, s, p);
        ArriveKeepsInv(ids, s.(net := s.net - multiset{p}), p, sendOk);
      case Lose(p) =>
        TakenOff(ids, s, p);
      case Replay(p, sendOk) =>
        ArriveKeepsInv(ids, s, p, sendOk);
    }
  }
}
