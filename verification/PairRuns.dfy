/** What holds along every run of the pair. */
module PairRuns {
  import opened Bytes
  import opened Kv
  import opened PeerCodec
  import opened Server
  import opened Atomic
  import opened Pairs
  import opened PairProofs
  import StandardMode
  import Utf8

  lemma StartIsGood(ids: Ids)
    ensures Inv(ids, START)
  {
    assert Ops([]) == [];
    assert Merged(START) == map[];
  }

  lemma {:induction false} RunKeepsInv(ids: Ids, s: Pair, steps: seq<Step>)
    requires ids.lo < ids.hi && Inv(ids, s) && Run(ids, s, steps).Some?
    ensures Inv(ids, Run(ids, s, steps).value)
    decreases steps
  {
    if steps != [] {
      StepKeepsInv(ids, s, steps[0]);
      RunKeepsInv(ids, Next(ids, s, steps[0]), steps[1..]);
    }
  }

  ghost predicate Reachable(ids: Ids, s: Pair) {
    ids.lo < ids.hi && exists steps :: Run(ids, START, steps) == Some(s)
  }

  lemma ReachableIsGood(ids: Ids, s: Pair)
    requires Reachable(ids, s)
    ensures Inv(ids, s)
  {
    var steps :| Run(ids, START, steps) == Some(s);
    StartIsGood(ids);
    RunKeepsInv(ids, START, steps);
  }

  // ----- one atomic map -----

  /** The pair is one atomic map: the merged stores are the effects applied one at a time, each effect
      answers as the whole map did at that moment, and is the effect of a request already made. */
  lemma EveryRunIsOneAtomicMap(ids: Ids, s: Pair, i: nat)
    requires Reachable(ids, s) && i < |s.hist.effects|
    ensures Merged(s) == ApplyAll(Ops(s.hist.effects))
    ensures var f := s.hist.effects[i];
            && f.reply == Apply(ApplyAll(Ops(s.hist.effects[..i])), f.op).1
            && f.req < |s.hist.requests|
            && f.op == s.hist.requests[f.req].op
            && s.hist.requests[f.req].start <= i
  {
    ReachableIsGood(ids, s);
    assert EffectOk(s.hist, i);
  }

  /** The answer goes to the connection that asked; if relayed from execution, it is what the whole map
      answered to that very operation at some moment between the request and the answer. */
  ghost predicate Genuine(h: History, a: Answer) {
    && a.req < |h.requests| && a.conn == h.requests[a.req].conn && a.end <= |h.effects|
    && (a.relayed ==>
          exists i :: h.requests[a.req].start <= i < a.end && h.effects[i].req == a.req
                      && a.reply == Apply(ApplyAll(Ops(h.effects[..i])), h.requests[a.req].op).1)
  }

  /** Every answer is genuine and no request is answered twice.  Duplicated and reordered datagrams are included. */
  lemma EveryAnswerIsGenuine(ids: Ids, s: Pair)
    requires Reachable(ids, s)
    ensures forall i :: 0 <= i < |s.hist.answers| ==> Genuine(s.hist, s.hist.answers[i])
    ensures forall i, j :: 0 <= i < j < |s.hist.answers| ==> s.hist.answers[i].req != s.hist.answers[j].req
  {
    ReachableIsGood(ids, s);
    forall k | 0 <= k < |s.hist.answers|
      ensures Genuine(s.hist, s.hist.answers[k])
    {
      AnswerIsGenuine(ids, s.hist, s.hist.answers[k]);
    }
  }

  lemma AnswerIsGenuine(ids: Ids, h: History, a: Answer)
    requires HistoryOk(ids, h) && AnswerOk(h, a)
    ensures Genuine(h, a)
  {
    if a.relayed {
      var i :| h.requests[a.req].start <= i < a.end && i < |h.effects|
               && h.effects[i].req == a.req && h.effects[i].reply == a.reply;
      assert EffectOk(h, i);
    }
  }

  /** Correlation ids never collide, and a pending id is waited on by the connection that was given it. */
  lemma IdsNeverCollide(ids: Ids, s: Pair, t: Ticket, u: Ticket)
    requires Reachable(ids, s) && t in s.hist.issued && u in s.hist.issued && t != u
    ensures s.hist.issued[t] != s.hist.issued[u] && s.hist.issued[t] < |s.hist.requests|
    ensures t.corr in NodeOf(s, t.side).pending ==>
              NodeOf(s, t.side).pending[t.corr].conn == s.hist.requests[s.hist.issued[t]].conn
    ensures 1 <= t.corr <= NodeOf(s, t.side).nextCorr
  {
    ReachableIsGood(ids, s);
    assert Names(s.hist, t) && Names(s.hist, u);
    NamesApart(s.hist, t, u);
    assert SideOk(s.hist, t.side, NodeOf(s, t.side));
  }

  // ----- the history's answers are the calls of `reply_to_client` -----

  /** `after` is `before` with one answer for each of `calls`, to that connection and with that reply. */
  ghost predicate Speaks(before: seq<Answer>, after: seq<Answer>, calls: seq<ReplyCall>) {
    && before <= after && |after| == |before| + |calls|
    && forall i :: 0 <= i < |calls| ==>
         after[|before| + i].conn == calls[i].conn && after[|before| + i].reply == calls[i].reply
  }

  /** The reply calls an event makes on account of requests for operations; SIZE and malformed requests are not. */
  ghost function OpReplies(ev: Event, e: Effects): seq<ReplyCall> {
    if ev.FromClient? && !AskOf(ev.frame).Do? then [] else e.replies
  }

  /** A request's answer in the history is the reply call made for it, if one was made at once. */
  lemma RequestAnswers(ids: Ids, s: Pair, side: Side, conn: nat, op: Op, e: Effects)
    requires |e.replies| <= 1 && (e.replies != [] ==> e.replies[0].conn == conn)
    requires !Mine(CfgOf(ids, side), op) ==> NodeOf(s, side).nextCorr < U64_MAX
    requires Mine(CfgOf(ids, side), op) ==> e.replies != [] && e.replies[0].reply == Execute(NodeOf(s, side).entries, op).1
    ensures Speaks(s.hist.answers, NoteRequest(ids, s, side, conn, op, e).answers, e.replies)
  {
  }

  lemma OpReplyShape(cfg: Config, st: NodeState, conn: nat, receipt: Option<string>, op: Op, now: int, sendOk: bool)
    requires !Mine(cfg, op) ==> st.nextCorr < U64_MAX
    ensures var rs := HandleAsk(cfg, st, conn, receipt, Do(op), now, sendOk).replies;
            && |rs| <= 1 && (rs != [] ==> rs[0].conn == conn)
            && (Mine(cfg, op) ==> rs != [] && rs[0].reply == Execute(st.entries, op).1)
  {
  }

  lemma ClientAnswers(ids: Ids, s: Pair, side: Side, ev: Event)
    requires ev.FromClient? && AskOf(ev.frame).Do? && Able(CfgOf(ids, side), NodeOf(s, side), ev)
    ensures var e := Handle(CfgOf(ids, side), NodeOf(s, side), ev);
            Speaks(s.hist.answers, NoteLocal(ids, s, side, ev).answers, e.replies)
  {
    var op := AskOf(ev.frame).op;
    OpReplyShape(CfgOf(ids, side), NodeOf(s, side), ev.conn, ev.frame.receipt, op, ev.now, ev.sendOk);
    RequestAnswers(ids, s, side, ev.conn, op, Handle(CfgOf(ids, side), NodeOf(s, side), ev));
  }

  lemma LocalAnswers(ids: Ids, s: Pair, side: Side, ev: Event)
    requires !ev.FromPeer? && Able(CfgOf(ids, side), NodeOf(s, side), ev)
    ensures var e := Handle(CfgOf(ids, side), NodeOf(s, side), ev);
            Speaks(s.hist.answers, NoteLocal(ids, s, side, ev).answers, OpReplies(ev, e))
  {
    if ev.FromClient? && AskOf(ev.frame).Do? {
      ClientAnswers(ids, s, side, ev);
    }
  }

  lemma PeerAnswers(ids: Ids, s: Pair, p: Packet, sendOk: bool)
    ensures var side := Other(p.from);
            Speaks(s.hist.answers, NotePeer(ids, s, p).answers,
                   HandlePeer(CfgOf(ids, side), NodeOf(s, side), p.message, sendOk).replies)
  {
  }

  // ----- nobody is told of an effect that did not take place -----

  /** An answer that does not come from execution is a refusal. */
  ghost predicate Honest(answers: seq<Answer>) {
    forall i :: 0 <= i < |answers| ==> answers[i].relayed || answers[i].reply.Refused?
  }

  lemma FailedSendsRefuse(cfg: Config, st: NodeState, conn: nat, receipt: Option<string>, op: Op, now: int, sendOk: bool)
    requires !Mine(cfg, op) && st.nextCorr < U64_MAX
    ensures var rs := HandleAsk(cfg, st, conn, receipt, Do(op), now, sendOk).replies; rs == [] || rs[0].reply.Refused?
  {
  }

  lemma RequestIsHonest(ids: Ids, s: Pair, side: Side, conn: nat, op: Op, e: Effects)
    requires Honest(s.hist.answers)
    requires !Mine(CfgOf(ids, side), op) && e.replies != [] ==> e.replies[0].reply.Refused?
    ensures Honest(NoteRequest(ids, s, side, conn, op, e).answers)
  {
  }

  lemma TimeoutsRefuse(cfg: Config, st: NodeState, now: int, order: seq<U64>)
    requires Enumerates(order, Due(st, now))
    ensures var rs := Handle(cfg, st, Tick(now, order)).replies;
            |rs| == |order| && forall i :: 0 <= i < |rs| ==> rs[i].reply.Refused?
  {
  }

  lemma LocalIsHonest(ids: Ids, s: Pair, side: Side, ev: Event)
    requires Possible(ids, s, Local(side, ev)) && Honest(s.hist.answers)
    ensures Honest(NoteLocal(ids, s, side, ev).answers)
  {
    var cfg, st := CfgOf(ids, side), NodeOf(s, side);
    if ev.FromClient? && AskOf(ev.frame).Do? {
      var op := AskOf(ev.frame).op;
      if !Mine(cfg, op) {
        FailedSendsRefuse(cfg, st, ev.conn, ev.frame.receipt, op, ev.now, ev.sendOk);
      }
      RequestIsHonest(ids, s, side, ev.conn, op, Handle(cfg, st, ev));
    } else if ev.Tick? {
      TimeoutsRefuse(cfg, st, ev.now, ev.order);
    }
  }

  lemma {:induction false} RunIsHonest(ids: Ids, s: Pair, steps: seq<Step>)
    requires Honest(s.hist.answers) && Run(ids, s, steps).Some?
    ensures Honest(Run(ids, s, steps).value.hist.answers)
    decreases steps
  {
    if steps != [] {
      if steps[0].Local? {
        LocalIsHonest(ids, s, steps[0].side, steps[0].event);
      }
      RunIsHonest(ids, Next(ids, s, steps[0]), steps[1..]);
    }
  }

  /** In every run, a client is told of a value, of success or of absence only if its operation took effect
      after it asked and before it was told, and the whole map answered so; whatever did not come from
      execution, a timeout or a failed send, is told as a refusal. */
  lemma NoFalsePromise(ids: Ids, s: Pair, n: nat)
    requires Reachable(ids, s) && n < |s.hist.answers| && !s.hist.answers[n].reply.Refused?
    ensures var a := s.hist.answers[n];
            && a.req < |s.hist.requests| && a.end <= |s.hist.effects|
            && exists i :: s.hist.requests[a.req].start <= i < a.end && s.hist.effects[i].req == a.req
                           && a.reply == Apply(ApplyAll(Ops(s.hist.effects[..i])), s.hist.requests[a.req].op).1
  {
    var steps :| Run(ids, START, steps) == Some(s);
    RunIsHonest(ids, START, steps);
    EveryAnswerIsGenuine(ids, s);
    assert Genuine(s.hist, s.hist.answers[n]);
  }

  // ----- at most once -----

  /** No request has two effects. */
  ghost predicate EffectsOnce(h: History) {
    forall i, j :: 0 <= i < j < |h.effects| ==> h.effects[i].req != h.effects[j].req
  }

  /** A request still on the network is there once and has had no effect. */
  ghost predicate NetOnce(h: History, net: multiset<Packet>) {
    forall p :: p in net && p.message.Request? ==> net[p] == 1 && Unexecuted(h, p)
  }

  ghost predicate Unexecuted(h: History, p: Packet)
    requires p.message.Request?
  {
    && Names(h, Ticket(p.from, p.message.corr))
    && forall i :: 0 <= i < |h.effects| ==> h.effects[i].req != h.issued[Ticket(p.from, p.message.corr)]
  }

  ghost predicate Once(s: Pair) {
    EffectsOnce(s.hist) && NetOnce(s.hist, s.net)
  }

  /** Responses may come and anything may go: the requests on the network stay as they were. */
  lemma NetOnceFewer(h: History, g: History, net: multiset<Packet>, fewer: multiset<Packet>)
    requires NetOnce(h, net) && Grows(h, g) && g.effects == h.effects
    requires forall p :: p in fewer && p.message.Request? ==> fewer[p] <= net[p]
    ensures NetOnce(g, fewer)
  {
    forall p | p in fewer && p.message.Request?
      ensures fewer[p] == 1 && Unexecuted(g, p)
    {
      assert p in net && Unexecuted(h, p);
    }
  }

  /** One more effect, of a request that is not on the network. */
  lemma NetOnceEffect(h: History, g: History, net: multiset<Packet>, f: Effect)
    requires NetOnce(h, net) && Grows(h, g) && g.effects == h.effects + [f]
    requires forall p :: p in net && p.message.Request? ==> Named(h, Ticket(p.from, p.message.corr)) != f.req
    ensures NetOnce(g, net)
  {
    forall p | p in net && p.message.Request?
      ensures Unexecuted(g, p)
    {
      assert Unexecuted(h, p);
    }
  }

  lemma EffectsOnceMore(h: History, g: History, f: Effect)
    requires EffectsOnce(h) && g.effects == h.effects + [f]
    requires forall i :: 0 <= i < |h.effects| ==> h.effects[i].req != f.req
    ensures EffectsOnce(g)
  {
  }

  lemma EffectReqsAreOld(ids: Ids, h: History)
    requires HistoryOk(ids, h)
    ensures forall i :: 0 <= i < |h.effects| ==> h.effects[i].req < |h.requests|
  {
    forall i | 0 <= i < |h.effects|
      ensures h.effects[i].req < |h.requests|
    {
      assert EffectOk(h, i);
    }
  }

  /** A home request has its one effect at once. */
  lemma HomeOnce(ids: Ids, h: History, net: multiset<Packet>, side: Side, conn: nat, op: Op, reply: Reply)
    requires HistoryOk(ids, h) && EffectsOnce(h) && NetOnce(h, net)
    ensures var g := HomeHistory(h, side, conn, op, reply); EffectsOnce(g) && NetOnce(g, net)
  {
    var g := HomeHistory(h, side, conn, op, reply);
    var f := Effect(|h.requests|, op, reply);
    EffectReqsAreOld(ids, h);
    EffectsOnceMore(h, g, f);
    forall p | p in net && p.message.Request?
      ensures Named(h, Ticket(p.from, p.message.corr)) != f.req
    {
      assert Unexecuted(h, p);
    }
    NetOnceEffect(h, g, net, f);
  }

  /** A forwarded request is put on the network once, before it has had any effect. */
  lemma ForwardOnce(ids: Ids, h: History, g: History, net: multiset<Packet>, q: Packet)
    requires HistoryOk(ids, h) && NetOnce(h, net) && Grows(h, g) && g.effects == h.effects
    requires q.message.Request? && Ticket(q.from, q.message.corr) !in h.issued
    requires Names(g, Ticket(q.from, q.message.corr)) && g.issued[Ticket(q.from, q.message.corr)] == |h.requests|
    ensures NetOnce(g, net) && NetOnce(g, net + multiset{q})
  {
    NetOnceFewer(h, g, net, net);
    EffectReqsAreOld(ids, h);
    assert q in net ==> Unexecuted(h, q);
  }

  lemma ForwardNet(cfg: Config, st: NodeState, side: Side, conn: nat, receipt: Option<string>, op: Op, now: int, sendOk: bool)
    requires st.nextCorr < U64_MAX
    ensures var e, q := Forward(cfg, st, conn, receipt, op, now, sendOk), Packet(side, Request(st.nextCorr + 1, op));
            multiset(Packets(side, e.messages)) == multiset{} || multiset(Packets(side, e.messages)) == multiset{q}
  {
    var q := Packet(side, Request(st.nextCorr + 1, op));
    assert Packets(side, []) == [] && Packets(side, [q.message]) == [q];
  }

  lemma AskOnce(ids: Ids, s: Pair, side: Side, conn: nat, receipt: Option<string>, op: Op, now: int, sendOk: bool)
    requires Inv(ids, s) && Once(s)
    requires !Mine(CfgOf(ids, side), op) ==> NodeOf(s, side).nextCorr < U64_MAX
    ensures var e := HandleAsk(CfgOf(ids, side), NodeOf(s, side), conn, receipt, Do(op), now, sendOk);
            Once(Settle(s, side, e, NoteRequest(ids, s, side, conn, op, e)))
  {
    var cfg, st := CfgOf(ids, side), NodeOf(s, side);
    var e := HandleAsk(cfg, st, conn, receipt, Do(op), now, sendOk);
    var g := NoteRequest(ids, s, side, conn, op, e);
    if Mine(cfg, op) {
      SettleNothing(s, side, e, g);
      HomeOnce(ids, s.hist, s.net, side, conn, op, Execute(st.entries, op).1);
    } else {
      var q := Packet(side, Request(st.nextCorr + 1, op));
      ForwardNet(cfg, st, side, conn, receipt, op, now, sendOk);
      assert IdsFresh(s.hist, side, st) by {
        assert SideOk(s.hist, side, st);
      }
      ForwardOnce(ids, s.hist, g, s.net, q);
      assert s.net + multiset{} == s.net;
    }
  }

  /** Only responses answer a peer's message. */
  lemma PeersGetResponses(cfg: Config, st: NodeState, side: Side, m: Peer, sendOk: bool, q: Packet)
    requires q.message.Request?
    ensures multiset(Packets(side, HandlePeer(cfg, st, m, sendOk).messages))[q] == 0
  {
    var ps := Packets(side, HandlePeer(cfg, st, m, sendOk).messages);
    assert forall x :: x in ps ==> x.message.Response?;
  }

  /** Taking a request off the network leaves no other copy of it, under any ticket. */
  lemma OthersRemain(h: History, net: multiset<Packet>, p: Packet)
    requires NetOnce(h, net) && p in net && p.message.Request?
    requires forall q :: q in net ==> PacketOk(h, q)
    ensures forall q :: q in net - multiset{p} && q.message.Request? ==>
              Named(h, Ticket(q.from, q.message.corr)) != Named(h, Ticket(p.from, p.message.corr))
  {
    forall q | q in net - multiset{p} && q.message.Request?
      ensures Named(h, Ticket(q.from, q.message.corr)) != Named(h, Ticket(p.from, p.message.corr))
    {
      assert q in net && net[q] == 1 && q != p;
      assert PacketOk(h, p) && PacketOk(h, q);
      NamesApart(h, Ticket(p.from, p.message.corr), Ticket(q.from, q.message.corr));
    }
  }

  /** Executing a request uses it up: one effect, and it is on the network no more. */
  lemma ExecuteOnce(h: History, net: multiset<Packet>, p: Packet, f: Effect)
    requires EffectsOnce(h) && NetOnce(h, net) && p in net && p.message.Request?
    requires f.req == Named(h, Ticket(p.from, p.message.corr))
    requires forall q :: q in net ==> PacketOk(h, q)
    ensures EffectsOnce(AddEffect(h, f)) && NetOnce(AddEffect(h, f), net - multiset{p})
  {
    assert Unexecuted(h, p);
    EffectsOnceMore(h, AddEffect(h, f), f);
    OthersRemain(h, net, p);
    NetOnceFewer(h, h, net, net - multiset{p});
    NetOnceEffect(h, AddEffect(h, f), net - multiset{p}, f);
  }

  lemma DeliverHistory(ids: Ids, s: Pair, p: Packet)
    requires Inv(ids, s) && Once(s) && p in s.net
    ensures EffectsOnce(NotePeer(ids, s, p)) && NetOnce(NotePeer(ids, s, p), s.net - multiset{p})
  {
    var h, g, left := s.hist, NotePeer(ids, s, p), s.net - multiset{p};
    if p.message.Request? && Mine(CfgOf(ids, Other(p.from)), p.message.op) {
      var st := NodeOf(s, Other(p.from));
      ExecuteOnce(h, s.net, p,
                  Effect(Named(h, Ticket(p.from, p.message.corr)), p.message.op, Execute(st.entries, p.message.op).1));
    } else {
      assert g.effects == h.effects;
      NetOnceFewer(h, g, s.net, left);
    }
  }

  lemma DeliverOnce(ids: Ids, s: Pair, p: Packet, sendOk: bool)
    requires Inv(ids, s) && Once(s) && p in s.net
    ensures Once(Arrive(ids, s.(net := s.net - multiset{p}), p, sendOk))
  {
    var u := s.(net := s.net - multiset{p});
    var side, g := Other(p.from), NotePeer(ids, s, p);
    DeliverHistory(ids, s, p);
    var t := Arrive(ids, u, p, sendOk);
    assert t.hist == NotePeer(ids, u, p) == g;
    forall q | q in t.net && q.message.Request?
      ensures t.net[q] <= u.net[q]
    {
      PeersGetResponses(CfgOf(ids, side), NodeOf(s, side), side, p.message, sendOk, q);
    }
    NetOnceFewer(g, g, u.net, t.net);
  }

  /** Events other than a client's operation neither execute nor send anything. */
  lemma IdleOnce(ids: Ids, s: Pair, side: Side, ev: Event)
    requires Once(s) && !ev.FromPeer? && Able(CfgOf(ids, side), NodeOf(s, side), ev)
    requires ev.FromClient? ==> !AskOf(ev.frame).Do?
    ensures Once(Next(ids, s, Local(side, ev)))
  {
    var e, g := Handle(CfgOf(ids, side), NodeOf(s, side), ev), NoteLocal(ids, s, side, ev);
    assert e.made == [] && e.messages == [];
    SettleNothing(s, side, e, g);
    assert g.effects == s.hist.effects;
    NetOnceFewer(s.hist, g, s.net, s.net);
  }

  lemma StepKeepsOnce(ids: Ids, s: Pair, step: Step)
    requires Inv(ids, s) && Once(s) && Possible(ids, s, step) && !step.Replay?
    ensures Once(Next(ids, s, step))
  {
    match step {
      case Local(side, ev) =>
        if ev.FromClient? && AskOf(ev.frame).Do? {
          AskOnce(ids, s, side, ev.conn, ev.frame.receipt, AskOf(ev.frame).op, ev.now, ev.sendOk);
        } else {
          IdleOnce(ids, s, side, ev);
        }
      case Deliver(p, sendOk) =>
        DeliverOnce(ids, s, p, sendOk);
      case Lose(p) =>
        NetOnceFewer(s.hist, s.hist, s.net, s.net - multiset{p});
    }
  }

  lemma {:induction false} RunKeepsOnce(ids: Ids, s: Pair, steps: seq<Step>)
    requires ids.lo < ids.hi && Inv(ids, s) && Once(s) && Run(ids, s, steps).Some?
    requires forall i :: 0 <= i < |steps| ==> !steps[i].Replay?
    ensures Once(Run(ids, s, steps).value)
    decreases steps
  {
    if steps != [] {
      StepKeepsOnce(ids, s, steps[0]);
      StepKeepsInv(ids, s, steps[0]);
      RunKeepsOnce(ids, Next(ids, s, steps[0]), steps[1..]);
    }
  }

  /** On a network that delivers each datagram at most once, every request takes effect at most once. */
  lemma AtMostOnce(ids: Ids, steps: seq<Step>, i: nat, j: nat)
    requires ids.lo < ids.hi && Run(ids, START, steps).Some?
    requires forall k :: 0 <= k < |steps| ==> !steps[k].Replay?
    requires var s := Run(ids, START, steps).value; i < j < |s.hist.effects|
    ensures var s := Run(ids, START, steps).value; s.hist.effects[i].req != s.hist.effects[j].req
  {
    StartIsGood(ids);
    RunKeepsOnce(ids, START, steps);
  }

  // ----- placement and sizes -----

  /** Each resident key is at its owner, the two stores are disjoint, and neither exceeds its cap. */
  lemma EveryRunPlaces(ids: Ids, s: Pair)
    requires Reachable(ids, s)
    ensures forall k :: k in s.lo.entries ==> Owner(k, ids.lo, ids.hi) == ids.lo
    ensures forall k :: k in s.hi.entries ==> Owner(k, ids.lo, ids.hi) == ids.hi
    ensures s.lo.entries.Keys !! s.hi.entries.Keys
    ensures |s.lo.entries| <= MAX_KEYS && |s.hi.entries| <= MAX_KEYS
  {
    ReachableIsGood(ids, s);
  }

  /** Stored values are at most 1018 bytes. */
  lemma EveryValueIsSmall(ids: Ids, s: Pair, side: Side, k: U64)
    requires Reachable(ids, s) && k in NodeOf(s, side).entries
    ensures Utf8.ByteLen(NodeOf(s, side).entries[k]) <= 1018
  {
    ReachableIsGood(ids, s);
    assert SideOk(s.hist, side, NodeOf(s, side));
  }

  /** Messages are at most 1049 bytes and so datagrams at most 1086. */
  lemma EveryMessageIsSmall(ids: Ids, s: Pair, p: Packet)
    requires Reachable(ids, s) && p in s.made
    ensures Utf8.ByteLen(Print(p.message)) <= 1049
    ensures Utf8.ByteLen(Print(p.message)) + StandardMode.OVERHEAD <= 1086
  {
    ReachableIsGood(ids, s);
    assert PacketOk(s.hist, p);
    if p.message.Request? {
      assert RequestOk(ids, s.hist, s.hist.requests[s.hist.issued[Ticket(p.from, p.message.corr)]]);
    }
    MessagesAreSmall(p.message);
  }

  /** The reply to any request ever made fits a datagram too, whenever it is served. */
  lemma EveryReplyFits(ids: Ids, s: Pair, p: Packet)
    requires Reachable(ids, s) && p in s.made && p.message.Request?
    ensures var reply := Serve(CfgOf(ids, Other(p.from)), NodeOf(s, Other(p.from)), p.message.op).1;
            Fits(Response(p.message.corr, reply))
  {
    ReachableIsGood(ids, s);
    assert PacketOk(s.hist, p);
    assert RequestOk(ids, s.hist, s.hist.requests[s.hist.issued[Ticket(p.from, p.message.corr)]]);
    HomeStep(ids, s, Other(p.from), p.message.op);
    MessagesAreSmall(Response(p.message.corr, Execute(NodeOf(s, Other(p.from)).entries, p.message.op).1));
  }

  /** Any request a client can make fits the peer's datagram. */
  lemma ForwardsAlwaysFit(frame: ClientFrame, corr: U64)
    requires AskOf(frame).Do?
    ensures Fits(Request(corr, AskOf(frame).op))
  {
    AskedOpsAreSmall(frame);
    MessagesAreSmall(Request(corr, AskOf(frame).op));
  }
}
