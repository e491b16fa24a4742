/**
 Two nodes and a network that loses, delays, reorders and, on request, duplicates datagrams.
 Alongside the nodes the state keeps the history that the theorems speak of: the client requests,
 the effects in the order they took place, and the answers given.
 */
module Pairs {
  import opened Bytes
  import opened Kv
  import opened PeerCodec
  import opened Server
  import opened Atomic
  import Utf8

  datatype Side = Lo | Hi

  /** The ids of the two nodes, the lower first. */
  datatype Ids = Ids(lo: U16, hi: U16)

  function Other(side: Side): Side {
    if side.Lo? then Hi else Lo
  }

  function CfgOf(ids: Ids, side: Side): Config {
    if side.Lo? then Config(ids.lo, ids.hi) else Config(ids.hi, ids.lo)
  }

  datatype Packet = Packet(from: Side, message: Peer)

  /** The name of a forwarded request: the node that minted the id, and the id. */
  datatype Ticket = Ticket(side: Side, corr: U64)

  /** A client request that asks for an operation; `start` is how many effects preceded it. */
  datatype Req = Req(side: Side, conn: nat, op: Op, corr: nat, start: nat)

  datatype Effect = Effect(req: nat, op: Op, reply: Reply)

  /** A reply given to a request; `relayed` if it comes from execution; `end` is how many effects preceded it. */
  datatype Answer = Answer(req: nat, conn: nat, reply: Reply, relayed: bool, end: nat)

  datatype History = History(issued: map<Ticket, nat>, requests: seq<Req>, effects: seq<Effect>, answers: seq<Answer>)

  datatype Pair = Pair(lo: NodeState, hi: NodeState, net: multiset<Packet>, made: set<Packet>, hist: History)

  const START := Pair(EMPTY_NODE, EMPTY_NODE, multiset{}, {}, History(map[], [], [], []))

  function NodeOf(s: Pair, side: Side): NodeState {
    if side.Lo? then s.lo else s.hi
  }

  function WithNode(s: Pair, side: Side, st: NodeState): Pair {
    if side.Lo? then s.(lo := st) else s.(hi := st)
  }

  function Merged(s: Pair): Entries {
    s.lo.entries + s.hi.entries
  }

  datatype Step =
    | Local(side: Side, event: Event)
    | Deliver(packet: Packet, sendOk: bool)
    | Lose(packet: Packet)
    | Replay(packet: Packet, sendOk: bool)

  ghost predicate Possible(ids: Ids, s: Pair, step: Step) {
    match step
    case Local(side, ev) => !ev.FromPeer? && Able(CfgOf(ids, side), NodeOf(s, side), ev)
    case Deliver(p, _) => p in s.net
    case Lose(p) => p in s.net
    case Replay(p, _) => p in s.made
  }

  // ----- one step -----

  function Packets(side: Side, ms: seq<Peer>): seq<Packet> {
    seq(|ms|, i requires 0 <= i < |ms| => Packet(side, ms[i]))
  }

  /** The request a ticket names. */
  function Named(h: History, t: Ticket): nat {
    if t in h.issued then h.issued[t] else 0
  }

  /** What a client request for an operation adds to the history. */
  function NoteRequest(ids: Ids, s: Pair, side: Side, conn: nat, op: Op, e: Effects): History {
    var h, n, st := s.hist, |s.hist.requests|, NodeOf(s, side);
    if Mine(CfgOf(ids, side), op) then
      var reply := Execute(st.entries, op).1;
      History(h.issued, h.requests + [Req(side, conn, op, 0, |h.effects|)], h.effects + [Effect(n, op, reply)],
              h.answers + [Answer(n, conn, reply, true, |h.effects| + 1)])
    else if st.nextCorr < U64_MAX then
      History(h.issued[Ticket(side, st.nextCorr + 1) := n],
              h.requests + [Req(side, conn, op, st.nextCorr + 1, |h.effects|)], h.effects,
              h.answers + if e.replies == [] then [] else [Answer(n, conn, e.replies[0].reply, false, |h.effects|)])
    else h
  }

  /** Timeouts answer the requests they expire. */
  function Timeouts(h: History, side: Side, order: seq<U64>, replies: seq<ReplyCall>): (r: seq<Answer>)
    requires |replies| == |order|
    ensures |r| == |order|
  {
    seq(|order|, i requires 0 <= i < |order| =>
      Answer(Named(h, Ticket(side, order[i])), replies[i].conn, replies[i].reply, false, |h.effects|))
  }

  ghost function NoteLocal(ids: Ids, s: Pair, side: Side, ev: Event): History
    requires !ev.FromPeer? && Able(CfgOf(ids, side), NodeOf(s, side), ev)
  {
    var e := Handle(CfgOf(ids, side), NodeOf(s, side), ev);
    match ev
    case FromClient(conn, frame, _, _) =>
      if AskOf(frame).Do? then NoteRequest(ids, s, side, conn, AskOf(frame).op, e) else s.hist
    case Tick(now, order) => s.hist.(answers := s.hist.answers + Timeouts(s.hist, side, order, e.replies))
    case _ => s.hist
  }

  function NotePeer(ids: Ids, s: Pair, p: Packet): History {
    var side := Other(p.from);
    var h, st := s.hist, NodeOf(s, side);
    match p.message
    case Request(corr, op) =>
      if !Mine(CfgOf(ids, side), op) then h
      else h.(effects := h.effects + [Effect(Named(h, Ticket(p.from, corr)), op, Execute(st.entries, op).1)])
    case Response(corr, reply) =>
      if corr !in st.pending then h
      else h.(answers := h.answers + [Answer(Named(h, Ticket(side, corr)), st.pending[corr].conn, reply, true, |h.effects|)])
  }

  /** A node's effects on the pair, with the history it writes. */
  function Settle(s: Pair, side: Side, e: Effects, h: History): Pair {
    var t := WithNode(s, side, e.state);
    Pair(t.lo, t.hi, s.net + multiset(Packets(side, e.messages)), s.made + (set p | p in Packets(side, e.made)), h)
  }

  /** A packet reaches the node it is for. */
  function Arrive(ids: Ids, s: Pair, p: Packet, sendOk: bool): Pair {
    var side := Other(p.from);
    Settle(s, side, HandlePeer(CfgOf(ids, side), NodeOf(s, side), p.message, sendOk), NotePeer(ids, s, p))
  }

  ghost function Next(ids: Ids, s: Pair, step: Step): Pair
    requires Possible(ids, s, step)
  {
    match step
    case Local(side, ev) =>
      Settle(s, side, Handle(CfgOf(ids, side), NodeOf(s, side), ev), NoteLocal(ids, s, side, ev))
    case Deliver(p, sendOk) => Arrive(ids, s.(net := s.net - multiset{p}), p, sendOk)
    case Lose(p) => s.(net := s.net - multiset{p})
    case Replay(p, sendOk) => Arrive(ids, s, p, sendOk)
  }

  ghost function Run(ids: Ids, s: Pair, steps: seq<Step>): Option<Pair>
    decreases steps
  {
    if steps == [] then Some(s)
    else if !Possible(ids, s, steps[0]) then None
    else Run(ids, Next(ids, s, steps[0]), steps[1..])
  }

  // ----- what holds along every run -----

  /** Odd keys on the lower node, even keys on the higher, neither beyond its cap, every value small. */
  ghost predicate Placed(side: Side, entries: Entries) {
    && (forall k :: k in entries ==> k % 2 == if side.Lo? then 1 else 0)
    && |entries| <= MAX_KEYS
    && (forall k :: k in entries ==> Utf8.ByteLen(entries[k]) <= 1018)
  }

  /** `t` names request `n`, which was forwarded under it. */
  ghost predicate Names(h: History, t: Ticket) {
    && t in h.issued && h.issued[t] < |h.requests|
    && h.requests[h.issued[t]].side == t.side && h.requests[h.issued[t]].corr == t.corr
  }

  ghost predicate IdsFresh(h: History, side: Side, st: NodeState) {
    forall t :: t in h.issued && t.side == side ==> 1 <= t.corr <= st.nextCorr
  }

  ghost predicate Answered(h: History, req: nat) {
    exists i :: 0 <= i < |h.answers| && h.answers[i].req == req
  }

  /** Every pending entry waits for a named, unanswered request of its own connection. */
  ghost predicate WaitsProperly(h: History, side: Side, st: NodeState) {
    forall c :: c in st.pending ==>
      && Names(h, Ticket(side, c))
      && h.requests[h.issued[Ticket(side, c)]].conn == st.pending[c].conn
      && !Answered(h, h.issued[Ticket(side, c)])
  }

  /** Some effect of request `req` between positions `from` and `to` gave `reply`. */
  ghost predicate GaveReply(h: History, req: nat, reply: Reply, from: nat, to: nat) {
    exists i :: from <= i < to && i < |h.effects| && h.effects[i].req == req && h.effects[i].reply == reply
  }

  ghost predicate PacketOk(h: History, p: Packet) {
    match p.message
    case Request(corr, op) =>
      && Names(h, Ticket(p.from, corr))
      && h.requests[h.issued[Ticket(p.from, corr)]].op == op
    case Response(corr, reply) =>
      && Names(h, Ticket(Other(p.from), corr))
      && GaveReply(h, h.issued[Ticket(Other(p.from), corr)], reply,
                   h.requests[h.issued[Ticket(Other(p.from), corr)]].start, |h.effects|)
      && SmallReply(reply)
  }

  ghost predicate RequestOk(ids: Ids, h: History, r: Req) {
    && SmallOp(r.op)
    && r.start <= |h.effects|
    && (r.corr > 0 ==> Mine(CfgOf(ids, Other(r.side)), r.op))
  }

  ghost predicate EffectOk(h: History, i: nat)
    requires i < |h.effects|
  {
    var f := h.effects[i];
    && f.req < |h.requests|
    && f.op == h.requests[f.req].op
    && h.requests[f.req].start <= i
    && f.reply == Apply(ApplyAll(Ops(h.effects[..i])), f.op).1
  }

  ghost predicate AnswerOk(h: History, a: Answer) {
    && a.req < |h.requests|
    && a.conn == h.requests[a.req].conn
    && a.end <= |h.effects|
    && (a.relayed ==> GaveReply(h, a.req, a.reply, h.requests[a.req].start, a.end))
  }

  function Ops(effects: seq<Effect>): (r: seq<Op>)
    ensures |r| == |effects|
  {
    seq(|effects|, i requires 0 <= i < |effects| => effects[i].op)
  }

  ghost predicate HistoryOk(ids: Ids, h: History) {
    && (forall t :: t in h.issued ==> Names(h, t))
    && (forall i :: 0 <= i < |h.requests| ==> RequestOk(ids, h, h.requests[i]))
    && (forall i :: 0 <= i < |h.effects| ==> EffectOk(h, i))
    && (forall i :: 0 <= i < |h.answers| ==> AnswerOk(h, h.answers[i]))
    && (forall i, j :: 0 <= i < j < |h.answers| ==> h.answers[i].req != h.answers[j].req)
  }

  /** One node and the history agree. */
  ghost predicate SideOk(h: History, side: Side, st: NodeState) {
    Placed(side, st.entries) && IdsFresh(h, side, st) && WaitsProperly(h, side, st)
  }

  ghost predicate PacketsOk(h: History, net: multiset<Packet>, made: set<Packet>) {
    && (forall p :: p in made ==> PacketOk(h, p))
    && (forall p :: p in net ==> p in made)
  }

  ghost predicate Inv(ids: Ids, s: Pair) {
    && SideOk(s.hist, Lo, s.lo) && SideOk(s.hist, Hi, s.hi)
    && HistoryOk(ids, s.hist)
    && PacketsOk(s.hist, s.net, s.made)
    && Merged(s) == ApplyAll(Ops(s.hist.effects))
  }
}
