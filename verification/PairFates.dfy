/**
 What becomes of each request.  In every reachable state a client's operation has been answered, is
 waited on, or was dropped with its client, and it is exactly one of these; once it is no longer
 waited on, no message from the peer brings it back.
 */
module PairFates {
  import opened Bytes
  import opened Kv
  import opened PeerCodec
  import opened Server
  import opened Atomic
  import opened Pairs
  import opened PairProofs
  import opened PairRuns

  // ----- the three fates -----

  predicate ExactlyOne(a: bool, b: bool, c: bool) {
    (a && !b && !c) || (!a && b && !c) || (!a && !b && c)
  }

  /** Its node waits for the answer to ticket `t`. */
  predicate Awaited(lo: NodeState, hi: NodeState, t: Ticket) {
    t.corr in (if t.side.Lo? then lo else hi).pending
  }

  ghost predicate Fated(h: History, lo: NodeState, hi: NodeState, dropped: set<Ticket>, t: Ticket)
    requires t in h.issued
  {
    ExactlyOne(Answered(h, h.issued[t]), Awaited(lo, hi, t), t in dropped)
  }

  ghost predicate AllFated(h: History, lo: NodeState, hi: NodeState, dropped: set<Ticket>) {
    && dropped <= h.issued.Keys
    && forall t :: t in h.issued ==> Fated(h, lo, hi, dropped, t)
  }

  /** Request `n` was answered on the spot, or has a ticket of its own. */
  ghost predicate Ticketed(h: History, n: nat)
    requires n < |h.requests|
  {
    var r := h.requests[n];
    if r.corr == 0 then Answered(h, n)
    else r.corr <= U64_MAX && Ticket(r.side, r.corr) in h.issued && h.issued[Ticket(r.side, r.corr)] == n
  }

  ghost predicate AllTicketed(h: History) {
    forall n :: 0 <= n < |h.requests| ==> Ticketed(h, n)
  }

  ghost predicate Accounted(s: Pair, dropped: set<Ticket>) {
    AllFated(s.hist, s.lo, s.hi, dropped) && AllTicketed(s.hist)
  }

  /** Ticket `t` is awaited for a request of connection `conn` at node `side`. */
  ghost predicate AwaitedFor(s: Pair, side: Side, conn: nat, t: Ticket) {
    && Names(s.hist, t) && t.side == side && s.hist.requests[s.hist.issued[t]].conn == conn
    && Awaited(s.lo, s.hi, t)
  }

  /** The tickets a step drops: those awaited for a client that departs. */
  ghost function DroppedBy(s: Pair, step: Step): set<Ticket> {
    if step.Local? && step.event.Down? then
      set t | t in s.hist.issued && AwaitedFor(s, step.side, step.event.conn, t)
    else {}
  }

  ghost function DroppedIn(ids: Ids, s: Pair, steps: seq<Step>): set<Ticket>
    decreases steps
  {
    if steps == [] || !Possible(ids, s, steps[0]) then {}
    else DroppedBy(s, steps[0]) + DroppedIn(ids, Next(ids, s, steps[0]), steps[1..])
  }

  // ----- how answers grow -----

  /** The requests `g` answers beyond `h` are those in `now`. */
  ghost predicate AnswersMore(h: History, g: History, now: set<nat>) {
    forall n: nat :: Answered(g, n) <==> Answered(h, n) || n in now
  }

  function ReqsOf(more: seq<Answer>): set<nat> {
    set a | a in more :: a.req
  }

  lemma NewAnswers(h: History, g: History, more: seq<Answer>)
    requires g.answers == h.answers + more
    ensures AnswersMore(h, g, ReqsOf(more))
  {
    forall n: nat
      ensures Answered(g, n) <==> Answered(h, n) || n in ReqsOf(more)
    {
      if i :| 0 <= i < |h.answers| && h.answers[i].req == n {
        assert g.answers[i].req == n;
      }
      if a :| a in more && a.req == n {
        var i :| 0 <= i < |more| && more[i] == a;
        assert g.answers[|h.answers| + i].req == n;
      }
      if i :| 0 <= i < |g.answers| && g.answers[i].req == n {
        assert i < |h.answers| || g.answers[i] == more[i - |h.answers|];
      }
    }
  }

  lemma NoNewAnswers(h: History, g: History)
    requires g.answers == h.answers
    ensures AnswersMore(h, g, {})
  {
  }

  lemma OneNewAnswer(h: History, g: History, a: Answer)
    requires g.answers == h.answers + [a]
    ensures AnswersMore(h, g, {a.req})
  {
    NewAnswers(h, g, [a]);
    assert ReqsOf([a]) == {a.req};
  }

  lemma TicketedGrows(h: History, g: History)
    requires AllTicketed(h) && Grows(h, g)
    ensures forall n :: 0 <= n < |h.requests| ==> Ticketed(g, n)
  {
    forall n | 0 <= n < |h.requests|
      ensures Ticketed(g, n)
    {
      assert Ticketed(h, n) && g.requests[n] == h.requests[n];
      if h.requests[n].corr == 0 {
        var i :| 0 <= i < |h.answers| && h.answers[i].req == n;
        assert g.answers[i].req == n;
      }
    }
  }

  // ----- how fates change -----

  /** Old tickets keep their fate; the tables are the same. */
  lemma FatesUntouched(ids: Ids, h: History, g: History, lo: NodeState, hi: NodeState, lo': NodeState, hi': NodeState,
                       dropped: set<Ticket>, now: set<nat>)
    requires HistoryOk(ids, h) && AllFated(h, lo, hi, dropped) && g.issued == h.issued
    requires AnswersMore(h, g, now) && forall n :: n in now ==> n >= |h.requests|
    requires lo'.pending == lo.pending && hi'.pending == hi.pending
    ensures AllFated(g, lo', hi', dropped)
  {
    forall u | u in g.issued
      ensures Fated(g, lo', hi', dropped, u)
    {
      assert Names(h, u) && Fated(h, lo, hi, dropped, u);
    }
  }

  /** Old tickets keep their fate; one is new, and awaited unless it is answered at once. */
  lemma FatesWithOneMore(ids: Ids, h: History, g: History, lo: NodeState, hi: NodeState, lo': NodeState, hi': NodeState,
                         dropped: set<Ticket>, now: set<nat>, minted: Ticket)
    requires HistoryOk(ids, h) && AllFated(h, lo, hi, dropped) && minted !in h.issued
    requires g.issued == h.issued[minted := |h.requests|]
    requires AnswersMore(h, g, now) && forall n :: n in now ==> n >= |h.requests|
    requires forall u :: u in h.issued ==> (Awaited(lo', hi', u) <==> Awaited(lo, hi, u))
    requires Awaited(lo', hi', minted) <==> |h.requests| !in now
    ensures AllFated(g, lo', hi', dropped)
  {
    NotYetAnswered(ids, h, |h.requests|);
    forall u | u in g.issued
      ensures Fated(g, lo', hi', dropped, u)
    {
      if u != minted {
        assert Names(h, u) && Fated(h, lo, hi, dropped, u);
      }
    }
  }

  /** The tickets of `gone` are no longer awaited: those of `more` are dropped, the others answered. */
  lemma FatesSettled(h: History, g: History, lo: NodeState, hi: NodeState, lo': NodeState, hi': NodeState,
                     dropped: set<Ticket>, now: set<nat>, more: set<Ticket>, gone: set<Ticket>)
    requires AllFated(h, lo, hi, dropped) && g.issued == h.issued && AnswersMore(h, g, now)
    requires forall u :: u in gone ==> u in h.issued && Awaited(lo, hi, u)
    requires forall u :: u in h.issued ==> (Awaited(lo', hi', u) <==> Awaited(lo, hi, u) && u !in gone)
    requires more <= gone && forall u :: u in h.issued ==> (h.issued[u] in now <==> u in gone && u !in more)
    ensures AllFated(g, lo', hi', dropped + more)
  {
    forall u | u in g.issued
      ensures Fated(g, lo', hi', dropped + more, u)
    {
      assert Fated(h, lo, hi, dropped, u);
    }
  }

  // ----- one step -----

  /** A step that answers no old request and leaves the tables alone. */
  lemma QuietFates(ids: Ids, s: Pair, side: Side, e: Effects, g: History, dropped: set<Ticket>)
    requires HistoryOk(ids, s.hist) && Accounted(s, dropped) && e.state.pending == NodeOf(s, side).pending
    requires g.issued == s.hist.issued && g.requests == s.hist.requests && g.answers == s.hist.answers
    ensures Accounted(Settle(s, side, e, g), dropped)
  {
    var t := Settle(s, side, e, g);
    NoNewAnswers(s.hist, g);
    FatesUntouched(ids, s.hist, g, s.lo, s.hi, t.lo, t.hi, dropped, {});
    forall n | 0 <= n < |g.requests|
      ensures Ticketed(g, n)
    {
      assert Ticketed(s.hist, n);
    }
  }

  lemma HomeFates(ids: Ids, s: Pair, side: Side, conn: nat, op: Op, e: Effects, dropped: set<Ticket>)
    requires HistoryOk(ids, s.hist) && Accounted(s, dropped) && Mine(CfgOf(ids, side), op)
    requires e.state.pending == NodeOf(s, side).pending
    ensures Accounted(Settle(s, side, e, NoteRequest(ids, s, side, conn, op, e)), dropped)
  {
    var h, g := s.hist, NoteRequest(ids, s, side, conn, op, e);
    var t := Settle(s, side, e, g);
    HomeNoted(ids, s, side, conn, op, e);
    var a := g.answers[|h.answers|];
    OneNewAnswer(h, g, a);
    TicketedGrows(h, g);
    assert Answered(g, |h.requests|);
    FatesUntouched(ids, h, g, s.lo, s.hi, t.lo, t.hi, dropped, {a.req});
  }

  /** A minted ticket: waited on unless it is answered at once. */
  lemma MintedFates(ids: Ids, s: Pair, side: Side, e: Effects, g: History, now: set<nat>, dropped: set<Ticket>)
    requires HistoryOk(ids, s.hist) && Accounted(s, dropped) && NodeOf(s, side).nextCorr < U64_MAX
    requires var minted, h := Ticket(side, NodeOf(s, side).nextCorr + 1), s.hist;
             && minted !in h.issued && !Awaited(s.lo, s.hi, minted)
             && Grows(h, g) && |g.requests| == |h.requests| + 1 && g.issued == h.issued[minted := |h.requests|]
             && g.requests[|h.requests|].side == side && g.requests[|h.requests|].corr == minted.corr
             && AnswersMore(h, g, now) && now <= {|h.requests|}
             && e.state.pending.Keys == NodeOf(s, side).pending.Keys + if now == {} then {minted.corr} else {}
    ensures Accounted(Settle(s, side, e, g), dropped)
  {
    var minted, t := Ticket(side, NodeOf(s, side).nextCorr + 1), Settle(s, side, e, g);
    TicketedGrows(s.hist, g);
    assert Ticketed(g, |s.hist.requests|);
    FatesWithOneMore(ids, s.hist, g, s.lo, s.hi, t.lo, t.hi, dropped, now, minted);
  }

  lemma MintedIsNew(ids: Ids, s: Pair, side: Side)
    requires Inv(ids, s) && NodeOf(s, side).nextCorr < U64_MAX
    ensures var minted := Ticket(side, NodeOf(s, side).nextCorr + 1);
            minted !in s.hist.issued && !Awaited(s.lo, s.hi, minted)
  {
    assert SideOk(s.hist, side, NodeOf(s, side));
  }

  lemma TakenFates(ids: Ids, s: Pair, side: Side, conn: nat, op: Op, e: Effects, p: Pending, dropped: set<Ticket>)
    requires HistoryOk(ids, s.hist) && Accounted(s, dropped) && NodeOf(s, side).nextCorr < U64_MAX
    requires var minted := Ticket(side, NodeOf(s, side).nextCorr + 1);
             minted !in s.hist.issued && !Awaited(s.lo, s.hi, minted)
    requires e.state.pending == NodeOf(s, side).pending[NodeOf(s, side).nextCorr + 1 := p]
    ensures Accounted(Settle(s, side, e, ForwardHistory(s.hist, side, conn, op, NodeOf(s, side).nextCorr + 1)), dropped)
  {
    var g := ForwardHistory(s.hist, side, conn, op, NodeOf(s, side).nextCorr + 1);
    NoNewAnswers(s.hist, g);
    MintedFates(ids, s, side, e, g, {}, dropped);
  }

  lemma FailedFates(ids: Ids, s: Pair, side: Side, conn: nat, op: Op, e: Effects, a: Answer, dropped: set<Ticket>)
    requires HistoryOk(ids, s.hist) && Accounted(s, dropped) && NodeOf(s, side).nextCorr < U64_MAX
    requires var minted := Ticket(side, NodeOf(s, side).nextCorr + 1);
             minted !in s.hist.issued && !Awaited(s.lo, s.hi, minted)
    requires e.state.pending == NodeOf(s, side).pending && a.req == |s.hist.requests|
    ensures var g := ForwardHistory(s.hist, side, conn, op, NodeOf(s, side).nextCorr + 1);
            Accounted(Settle(s, side, e, AddAnswer(g, a)), dropped)
  {
    var g := AddAnswer(ForwardHistory(s.hist, side, conn, op, NodeOf(s, side).nextCorr + 1), a);
    OneNewAnswer(s.hist, g, a);
    MintedFates(ids, s, side, e, g, {a.req}, dropped);
  }

  /** Forwarding mints a ticket: waited on if the send was taken, answered if it failed. */
  lemma ForwardFates(ids: Ids, s: Pair, side: Side, conn: nat, op: Op, e: Effects, p: Pending, dropped: set<Ticket>)
    requires Inv(ids, s) && Accounted(s, dropped) && !Mine(CfgOf(ids, side), op)
    requires NodeOf(s, side).nextCorr < U64_MAX && ForwardsAs(e, NodeOf(s, side), op, p)
    ensures Accounted(Settle(s, side, e, NoteRequest(ids, s, side, conn, op, e)), dropped)
  {
    ForwardNoted(ids, s, side, conn, op, e);
    MintedIsNew(ids, s, side);
    if e.replies == [] {
      TakenFates(ids, s, side, conn, op, e, p, dropped);
    } else {
      FailedFates(ids, s, side, conn, op, e, Answer(|s.hist.requests|, conn, e.replies[0].reply, false, |s.hist.effects|), dropped);
    }
  }

  /** A client's operation neither empties nor fills the pending table, save by forwarding. */
  lemma AskKeepsPending(cfg: Config, st: NodeState, conn: nat, receipt: Option<string>, ask: Ask, now: int, sendOk: bool)
    requires !(ask.Do? && !Mine(cfg, ask.op))
    ensures HandleAsk(cfg, st, conn, receipt, ask, now, sendOk).state.pending == st.pending
  {
  }

  lemma AskFates(ids: Ids, s: Pair, side: Side, conn: nat, receipt: Option<string>, ask: Ask, now: int, sendOk: bool,
                 dropped: set<Ticket>)
    requires Inv(ids, s) && Accounted(s, dropped)
    requires ask.Do? && !Mine(CfgOf(ids, side), ask.op) ==> NodeOf(s, side).nextCorr < U64_MAX
    ensures var e := HandleAsk(CfgOf(ids, side), NodeOf(s, side), conn, receipt, ask, now, sendOk);
            Accounted(Settle(s, side, e, if ask.Do? then NoteRequest(ids, s, side, conn, ask.op, e) else s.hist), dropped)
  {
    var cfg, st := CfgOf(ids, side), NodeOf(s, side);
    var e := HandleAsk(cfg, st, conn, receipt, ask, now, sendOk);
    if ask.Do? && !Mine(cfg, ask.op) {
      ForwardShape(cfg, st, conn, receipt, ask.op, now, sendOk);
      ForwardFates(ids, s, side, conn, ask.op, e, Pending(conn, receipt, now + FORWARD_TIMEOUT), dropped);
    } else {
      AskKeepsPending(cfg, st, conn, receipt, ask, now, sendOk);
      if ask.Do? {
        HomeFates(ids, s, side, conn, ask.op, e, dropped);
      } else {
        QuietFates(ids, s, side, e, s.hist, dropped);
      }
    }
  }

  /** Taking entries off one node's table. */
  lemma FewerAwaited(s: Pair, side: Side, st: NodeState, gone: set<U64>)
    requires st.pending == NodeOf(s, side).pending - gone
    ensures var t := WithNode(s, side, st);
            forall u :: Awaited(t.lo, t.hi, u) <==> Awaited(s.lo, s.hi, u) && !(u.side == side && u.corr in gone)
  {
  }

  lemma DownFates(ids: Ids, s: Pair, side: Side, conn: nat, dropped: set<Ticket>)
    requires Inv(ids, s) && Accounted(s, dropped)
    ensures var step := Local(side, Down(conn)); Accounted(Next(ids, s, step), dropped + DroppedBy(s, step))
  {
    var step := Local(side, Down(conn));
    var t, gone := Next(ids, s, step), DroppedBy(s, step);
    NoNewAnswers(s.hist, t.hist);
    assert SideOk(s.hist, side, NodeOf(s, side));
    DepartedAreAwaited(s, side, conn);
    FatesSettled(s.hist, t.hist, s.lo, s.hi, t.lo, t.hi, dropped, {}, gone, gone);
  }

  /** The entries a node removes with a client are those of that client's requests. */
  lemma DepartedAreAwaited(s: Pair, side: Side, conn: nat)
    requires SideOk(s.hist, side, NodeOf(s, side))
    ensures forall u: Ticket :: u.side == side ==> (u.corr in Departed(NodeOf(s, side), conn) <==> AwaitedFor(s, side, conn, u))
  {
    forall u: Ticket | u.side == side
      ensures u.corr in Departed(NodeOf(s, side), conn) <==> AwaitedFor(s, side, conn, u)
    {
      assert u == Ticket(side, u.corr);
    }
  }

  /** One awaited request is answered. */
  lemma ResponseFates(ids: Ids, s: Pair, side: Side, e: Effects, corr: U64, a: Answer, dropped: set<Ticket>)
    requires HistoryOk(ids, s.hist) && SideOk(s.hist, side, NodeOf(s, side)) && Accounted(s, dropped)
    requires corr in NodeOf(s, side).pending && e.state.pending == NodeOf(s, side).pending - {corr}
    requires a.req == Named(s.hist, Ticket(side, corr))
    ensures Accounted(Settle(s, side, e, AddAnswer(s.hist, a)), dropped)
  {
    var h, g, u := s.hist, AddAnswer(s.hist, a), Ticket(side, corr);
    assert Names(h, u);
    OneNewAnswer(h, g, a);
    OneDue(ids, h, side, corr);
    TicketedGrows(h, g);
    FewerAwaited(s, side, e.state, {corr});
    DueFates(h, g, s, side, e.state, {corr}, {a.req}, dropped);
  }

  lemma OneDue(ids: Ids, h: History, side: Side, corr: U64)
    requires HistoryOk(ids, h) && Ticket(side, corr) in h.issued
    ensures forall v :: v in h.issued ==>
              (h.issued[v] in {h.issued[Ticket(side, corr)]} <==> v.side == side && v.corr in {corr})
  {
    OnlyItsTicket(ids, h, Ticket(side, corr));
  }

  lemma OnlyItsTicket(ids: Ids, h: History, u: Ticket)
    requires HistoryOk(ids, h) && u in h.issued
    ensures forall v :: v in h.issued ==> (h.issued[v] == h.issued[u] <==> v == u)
  {
    forall v | v in h.issued
      ensures h.issued[v] == h.issued[u] <==> v == u
    {
      if v != u {
        assert Names(h, u) && Names(h, v);
        NamesApart(h, v, u);
      }
    }
  }

  /** Only an awaited response touches the pending table or the answers. */
  lemma PeerShape(ids: Ids, s: Pair, p: Packet, sendOk: bool)
    ensures var side := Other(p.from);
            var st, e, g := NodeOf(s, side), HandlePeer(CfgOf(ids, side), NodeOf(s, side), p.message, sendOk), NotePeer(ids, s, p);
            if p.message.Response? && p.message.corr in st.pending then
              && e.state.pending == st.pending - {p.message.corr}
              && g == AddAnswer(s.hist, Answer(Named(s.hist, Ticket(side, p.message.corr)), st.pending[p.message.corr].conn,
                                               p.message.reply, true, |s.hist.effects|))
            else
              && e.state.pending == st.pending
              && g.issued == s.hist.issued && g.requests == s.hist.requests && g.answers == s.hist.answers
  {
  }

  lemma PeerFates(ids: Ids, s: Pair, p: Packet, sendOk: bool, dropped: set<Ticket>)
    requires Inv(ids, s) && Accounted(s, dropped)
    ensures Accounted(Arrive(ids, s, p, sendOk), dropped)
  {
    PeerShape(ids, s, p, sendOk);
    PeerFatesFrom(ids, s, p, HandlePeer(CfgOf(ids, Other(p.from)), NodeOf(s, Other(p.from)), p.message, sendOk),
                  NotePeer(ids, s, p), dropped);
  }

  lemma PeerFatesFrom(ids: Ids, s: Pair, p: Packet, e: Effects, g: History, dropped: set<Ticket>)
    requires Inv(ids, s) && Accounted(s, dropped)
    requires var side := Other(p.from);
             var st := NodeOf(s, side);
             if p.message.Response? && p.message.corr in st.pending then
               && e.state.pending == st.pending - {p.message.corr}
               && g == AddAnswer(s.hist, Answer(Named(s.hist, Ticket(side, p.message.corr)), st.pending[p.message.corr].conn,
                                                p.message.reply, true, |s.hist.effects|))
             else
               && e.state.pending == st.pending
               && g.issued == s.hist.issued && g.requests == s.hist.requests && g.answers == s.hist.answers
    ensures Accounted(Settle(s, Other(p.from), e, g), dropped)
  {
    var side, h := Other(p.from), s.hist;
    if p.message.Response? && p.message.corr in NodeOf(s, side).pending {
      assert SideOk(h, side, NodeOf(s, side));
      ResponseFates(ids, s, side, e, p.message.corr, g.answers[|h.answers|], dropped);
    } else {
      QuietFates(ids, s, side, e, g, dropped);
    }
  }

  /** A tick answers exactly the requests of the due tickets. */
  lemma TimeoutReqs(ids: Ids, h: History, side: Side, node: NodeState, now: int, order: seq<U64>, more: seq<Answer>)
    requires HistoryOk(ids, h) && SideOk(h, side, node) && Enumerates(order, Due(node, now)) && |more| == |order|
    requires forall i :: 0 <= i < |order| ==> more[i].req == Named(h, Ticket(side, order[i]))
    ensures forall u :: u in h.issued ==> (h.issued[u] in ReqsOf(more) <==> u.side == side && u.corr in Due(node, now))
  {
    forall u | u in h.issued
      ensures h.issued[u] in ReqsOf(more) <==> u.side == side && u.corr in Due(node, now)
    {
      if a :| a in more && a.req == h.issued[u] {
        var i :| 0 <= i < |more| && more[i] == a;
        assert order[i] in order && Names(h, Ticket(side, order[i]));
        OnlyItsTicket(ids, h, u);
      }
      if u.side == side && u.corr in Due(node, now) {
        assert u.corr in order;
        var i :| 0 <= i < |order| && order[i] == u.corr;
        assert more[i] in more && more[i].req == h.issued[u];
      }
    }
  }

  lemma TickFates(ids: Ids, s: Pair, side: Side, now: int, order: seq<U64>, e: Effects, dropped: set<Ticket>)
    requires HistoryOk(ids, s.hist) && SideOk(s.hist, side, NodeOf(s, side)) && Accounted(s, dropped)
    requires Enumerates(order, Due(NodeOf(s, side), now)) && |e.replies| == |order|
    requires e.state.pending == NodeOf(s, side).pending - Due(NodeOf(s, side), now)
    ensures var more := Timeouts(s.hist, side, order, e.replies);
            Accounted(Settle(s, side, e, s.hist.(answers := s.hist.answers + more)), dropped)
  {
    var h, more := s.hist, Timeouts(s.hist, side, order, e.replies);
    var g := h.(answers := h.answers + more);
    NewAnswers(h, g, more);
    TicketedGrows(h, g);
    TimeoutReqs(ids, h, side, NodeOf(s, side), now, order, more);
    FewerAwaited(s, side, e.state, Due(NodeOf(s, side), now));
    DueFates(h, g, s, side, e.state, Due(NodeOf(s, side), now), ReqsOf(more), dropped);
  }

  /** The entries of `due` leave the table of node `side` and are answered. */
  lemma DueFates(h: History, g: History, s: Pair, side: Side, st: NodeState, due: set<U64>, now: set<nat>, dropped: set<Ticket>)
    requires h == s.hist && AllFated(h, s.lo, s.hi, dropped) && g.issued == h.issued && AnswersMore(h, g, now)
    requires WaitsProperly(h, side, NodeOf(s, side)) && due <= NodeOf(s, side).pending.Keys
    requires var t := WithNode(s, side, st);
             forall u :: Awaited(t.lo, t.hi, u) <==> Awaited(s.lo, s.hi, u) && !(u.side == side && u.corr in due)
    requires forall u :: u in h.issued ==> (h.issued[u] in now <==> u.side == side && u.corr in due)
    ensures var t := WithNode(s, side, st); AllFated(g, t.lo, t.hi, dropped)
  {
    var t, gone := WithNode(s, side, st), set c | c in due :: Ticket(side, c);
    forall u | u in gone
      ensures u in h.issued && Awaited(s.lo, s.hi, u)
    {
      assert Names(h, u);
    }
    FatesSettled(h, g, s.lo, s.hi, t.lo, t.hi, dropped, now, {}, gone);
    assert dropped + {} == dropped;
  }

  lemma LocalFates(ids: Ids, s: Pair, side: Side, ev: Event, dropped: set<Ticket>)
    requires Inv(ids, s) && Possible(ids, s, Local(side, ev)) && Accounted(s, dropped) && !ev.Down?
    ensures Accounted(Next(ids, s, Local(side, ev)), dropped)
  {
    if ev.FromClient? {
      AskFates(ids, s, side, ev.conn, ev.frame.receipt, AskOf(ev.frame), ev.now, ev.sendOk, dropped);
    } else if ev.Tick? {
      assert SideOk(s.hist, side, NodeOf(s, side));
      TickFates(ids, s, side, ev.now, ev.order, Handle(CfgOf(ids, side), NodeOf(s, side), ev), dropped);
    } else {
      QuietFates(ids, s, side, Handle(CfgOf(ids, side), NodeOf(s, side), ev), s.hist, dropped);
    }
  }

  lemma StepKeepsFates(ids: Ids, s: Pair, step: Step, dropped: set<Ticket>)
    requires Inv(ids, s) && Possible(ids, s, step) && Accounted(s, dropped)
    ensures Accounted(Next(ids, s, step), dropped + DroppedBy(s, step))
  {
    if step.Local? && step.event.Down? {
      DownFates(ids, s, step.side, step.event.conn, dropped);
    } else {
      assert dropped + DroppedBy(s, step) == dropped;
      match step {
        case Local(side, ev) =>
          LocalFates(ids, s, side, ev, dropped);
        case Deliver(p, sendOk) =>
          TakenOff(ids, s, p);
          PeerFates(ids, s.(net := s.net - multiset{p}), p, sendOk, dropped);
        case Lose(p) =>
        case Replay(p, sendOk) =>
          PeerFates(ids, s, p, sendOk, dropped);
      }
    }
  }

  lemma {:induction false} RunKeepsFates(ids: Ids, s: Pair, steps: seq<Step>, dropped: set<Ticket>)
    requires ids.lo < ids.hi && Inv(ids, s) && Accounted(s, dropped) && Run(ids, s, steps).Some?
    ensures Accounted(Run(ids, s, steps).value, dropped + DroppedIn(ids, s, steps))
    decreases steps
  {
    if steps == [] {
      assert dropped + {} == dropped;
    } else {
      var t, first := Next(ids, s, steps[0]), DroppedBy(s, steps[0]);
      StepKeepsFates(ids, s, steps[0], dropped);
      StepKeepsInv(ids, s, steps[0]);
      RunKeepsFates(ids, t, steps[1..], dropped + first);
      Rejoin(dropped, first, DroppedIn(ids, t, steps[1..]));
    }
  }

  lemma Rejoin(a: set<Ticket>, b: set<Ticket>, c: set<Ticket>)
    ensures (a + b) + c == a + (b + c)
  {
  }

  /** In every run each request for an operation is answered, or pending at its node, or was dropped with its
      client, and exactly one of these; one on a key of its own node is always answered. */
  lemma EveryRequestHasOneFate(ids: Ids, steps: seq<Step>, s: Pair, n: nat)
    requires ids.lo < ids.hi && Run(ids, START, steps) == Some(s) && n < |s.hist.requests|
    ensures var r := s.hist.requests[n];
            if r.corr == 0 then Answered(s.hist, n)
            else
              && r.corr <= U64_MAX
              && var t := Ticket(r.side, r.corr);
                 ExactlyOne(Answered(s.hist, n), Awaited(s.lo, s.hi, t), t in DroppedIn(ids, START, steps))
  {
    StartIsGood(ids);
    RunKeepsFates(ids, START, steps, {});
    assert {} + DroppedIn(ids, START, steps) == DroppedIn(ids, START, steps);
    assert Ticketed(s.hist, n);
    var r := s.hist.requests[n];
    if r.corr > 0 {
      assert Fated(s.hist, s.lo, s.hi, DroppedIn(ids, START, steps), Ticket(r.side, r.corr));
    }
  }

  // ----- what is settled stays settled -----

  /** No client waits for `t` any more. */
  ghost predicate Settled(s: Pair, t: Ticket) {
    t in s.hist.issued && !Awaited(s.lo, s.hi, t)
  }

  lemma {:induction false} SettledStays(ids: Ids, s: Pair, steps: seq<Step>, t: Ticket)
    requires ids.lo < ids.hi && Inv(ids, s) && Settled(s, t) && Run(ids, s, steps).Some?
    ensures Settled(Run(ids, s, steps).value, t)
    decreases steps
  {
    if steps != [] {
      StepSettles(ids, s, steps[0], t);
      StepKeepsInv(ids, s, steps[0]);
      SettledStays(ids, Next(ids, s, steps[0]), steps[1..], t);
    }
  }

  lemma AskSettles(ids: Ids, s: Pair, side: Side, conn: nat, receipt: Option<string>, ask: Ask, now: int, sendOk: bool, t: Ticket)
    requires Inv(ids, s) && Settled(s, t)
    requires ask.Do? && !Mine(CfgOf(ids, side), ask.op) ==> NodeOf(s, side).nextCorr < U64_MAX
    ensures var e := HandleAsk(CfgOf(ids, side), NodeOf(s, side), conn, receipt, ask, now, sendOk);
            Settled(Settle(s, side, e, if ask.Do? then NoteRequest(ids, s, side, conn, ask.op, e) else s.hist), t)
  {
    assert SideOk(s.hist, t.side, NodeOf(s, t.side));
    if ask.Do? && !Mine(CfgOf(ids, side), ask.op) {
      ForwardShape(CfgOf(ids, side), NodeOf(s, side), conn, receipt, ask.op, now, sendOk);
    }
  }

  lemma PeerSettles(ids: Ids, s: Pair, p: Packet, sendOk: bool, t: Ticket)
    requires Settled(s, t)
    ensures Settled(Arrive(ids, s, p, sendOk), t)
  {
    PeerShape(ids, s, p, sendOk);
  }

  /** Only a newly minted id is ever added to a pending table. */
  lemma StepSettles(ids: Ids, s: Pair, step: Step, t: Ticket)
    requires Inv(ids, s) && Settled(s, t) && Possible(ids, s, step)
    ensures Settled(Next(ids, s, step), t)
  {
    match step {
      case Local(side, ev) =>
        if ev.FromClient? {
          AskSettles(ids, s, side, ev.conn, ev.frame.receipt, AskOf(ev.frame), ev.now, ev.sendOk, t);
        }
      case Deliver(p, sendOk) =>
        PeerSettles(ids, s.(net := s.net - multiset{p}), p, sendOk, t);
      case Lose(p) =>
      case Replay(p, sendOk) =>
        PeerSettles(ids, s, p, sendOk, t);
    }
  }

  /** A response to a ticket nobody waits on leaves the whole pair as it is. */
  lemma SettledIgnoresResponses(ids: Ids, s: Pair, t: Ticket, reply: Reply, sendOk: bool)
    requires Settled(s, t)
    ensures Arrive(ids, s, Packet(Other(t.side), Response(t.corr, reply)), sendOk) == s
  {
    var p := Packet(Other(t.side), Response(t.corr, reply));
    SettleNothing(s, t.side, Quiet(NodeOf(s, t.side)), s.hist);
    assert Other(p.from) == t.side;
  }

  /** A ticket is settled once its request is answered, whether by a response, a timeout or a failed send. */
  lemma AnsweredIsSettled(ids: Ids, s: Pair, t: Ticket)
    requires Inv(ids, s) && t in s.hist.issued && Answered(s.hist, s.hist.issued[t])
    ensures Settled(s, t)
  {
    assert SideOk(s.hist, t.side, NodeOf(s, t.side));
  }

  /** And once its client has departed. */
  lemma DepartedIsSettled(ids: Ids, s: Pair, t: Ticket)
    requires Inv(ids, s) && t in s.hist.issued
    ensures s.hist.issued[t] < |s.hist.requests|
    ensures Settled(Next(ids, s, Local(t.side, Down(s.hist.requests[s.hist.issued[t]].conn))), t)
  {
    assert Names(s.hist, t) && SideOk(s.hist, t.side, NodeOf(s, t.side));
  }

  /** Whatever happens after a request was answered or its client departed, a response to it, first or
      second, genuine or not, changes nothing at all. */
  lemma LateAnswersChangeNothing(ids: Ids, s: Pair, t: Ticket, steps: seq<Step>, reply: Reply, sendOk: bool)
    requires Reachable(ids, s) && t in s.hist.issued
    ensures s.hist.issued[t] < |s.hist.requests|
    ensures var after := if Answered(s.hist, s.hist.issued[t]) then s
                         else Next(ids, s, Local(t.side, Down(s.hist.requests[s.hist.issued[t]].conn)));
            Run(ids, after, steps).Some? ==>
              var u := Run(ids, after, steps).value;
              Arrive(ids, u, Packet(Other(t.side), Response(t.corr, reply)), sendOk) == u
  {
    ReachableIsGood(ids, s);
    DepartedIsSettled(ids, s, t);
    var down := Local(t.side, Down(s.hist.requests[s.hist.issued[t]].conn));
    var after := if Answered(s.hist, s.hist.issued[t]) then s else Next(ids, s, down);
    if Answered(s.hist, s.hist.issued[t]) {
      AnsweredIsSettled(ids, s, t);
    } else {
      StepKeepsInv(ids, s, down);
    }
    if Run(ids, after, steps).Some? {
      SettledStays(ids, after, steps, t);
      SettledIgnoresResponses(ids, Run(ids, after, steps).value, t, reply, sendOk);
    }
  }
}
