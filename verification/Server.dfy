/**
 One node of the pair (src/bin/six-seven-server/main.rs).  `Handle` is what each event does to a
 node's state, what it says to the peer and what it answers.
 */
module Server {
  import opened Bytes
  import opened Codec
  import opened StandardMode
  import opened Text
  import opened Kv
  import opened PeerCodec
  import Utf8

  const PEER_CHANNEL: U32 := 6767
  const LINK_EPOCH: Epoch := 0
  /** Five seconds, in milliseconds. */
  const FORWARD_TIMEOUT := 5000

  datatype Config = Config(id: U16, peerId: U16)

  datatype Pending = Pending(conn: nat, receipt: Option<string>, deadline: int)

  /** A call of `reply_to_client`. */
  datatype ReplyCall = ReplyCall(conn: nat, receipt: Option<string>, reply: Reply)

  datatype NodeState = NodeState(entries: Entries, clients: set<nat>, pending: map<U64, Pending>, nextCorr: U64)

  const EMPTY_NODE := NodeState(map[], {}, map[], 0)

  datatype ClientFrame = ClientFrame(command: string, receipt: Option<string>, body: string)

  /** Socket outcomes, the clock and the map's iteration order are part of the event. */
  datatype Event =
    | Up(conn: nat)
    | Down(conn: nat)
    | FromClient(conn: nat, frame: ClientFrame, now: int, sendOk: bool)
    | FromPeer(message: Peer, sendOk: bool)
    | Unreadable
    | Tick(now: int, order: seq<U64>)

  /** `made` are the messages sealed for the peer; `messages` those of them the socket took. */
  datatype Effects = Effects(state: NodeState, made: seq<Peer>, messages: seq<Peer>, replies: seq<ReplyCall>)

  function Quiet(st: NodeState): Effects {
    Effects(st, [], [], [])
  }

  // ----- the reply texts that leave this module -----

  function SizeReply(cfg: Config, st: NodeState): Reply {
    Value(Decimal(|st.entries|) + " of 1000000 keys on node " + Decimal(cfg.id))
  }

  function TimeoutReply(cfg: Config): Reply {
    Refused("peer " + Decimal(cfg.peerId) + " did not answer within 5s")
  }

  function SendFailed(cfg: Config): Reply {
    Refused("sending to peer " + Decimal(cfg.peerId) + " failed")
  }

  function NotMine(cfg: Config, op: Op): Reply {
    Refused("key " + Decimal(op.k) + " does not belong to node " + Decimal(cfg.id))
  }

  // ----- what each event means -----

  predicate Mine(cfg: Config, op: Op) {
    Owner(op.k, cfg.id, cfg.peerId) == cfg.id
  }

  /** What a client frame asks for. */
  datatype Ask = Size | Malformed(why: string) | Do(op: Op) | Quit | Unserved

  function AskOf(frame: ClientFrame): Ask {
    var command := Upper(frame.command);
    if command == "SEND" then
      if Upper(Trim(frame.body)) == "SIZE" then Size
      else match ParseOp(frame.body) case Ok(op) => Do(op) case Err(e) => Malformed(e)
    else if command == "DISCONNECT" then Quit
    else Unserved
  }

  predicate IsSend(frame: ClientFrame) {
    var ask := AskOf(frame);
    ask.Size? || ask.Malformed? || ask.Do?
  }

  /** The message fits one sealed datagram. */
  predicate Fits(m: Peer) {
    Utf8.ByteLen(Print(m)) <= MAX_PAYLOAD
  }

  function Made(m: Peer): seq<Peer> {
    if Fits(m) then [m] else []
  }

  function Taken(m: Peer, sendOk: bool): seq<Peer> {
    if Fits(m) && sendOk then [m] else []
  }

  /** Whether a frame makes this node mint a correlation id. */
  predicate Forwards(cfg: Config, frame: ClientFrame) {
    var ask := AskOf(frame);
    ask.Do? && !Mine(cfg, ask.op)
  }

  /** Hand the operation to the peer and wait, or report that it could not be sent. */
  function Forward(cfg: Config, st: NodeState, conn: nat, receipt: Option<string>, op: Op, now: int, sendOk: bool): Effects
    requires st.nextCorr < U64_MAX
  {
    var corr := st.nextCorr + 1;
    var m := Request(corr, op);
    if Taken(m, sendOk) == [] then
      Effects(st.(nextCorr := corr), Made(m), [], [ReplyCall(conn, receipt, SendFailed(cfg))])
    else
      Effects(st.(nextCorr := corr, pending := st.pending[corr := Pending(conn, receipt, now + FORWARD_TIMEOUT)]),
              [m], [m], [])
  }

  function HandleAsk(cfg: Config, st: NodeState, conn: nat, receipt: Option<string>, ask: Ask, now: int, sendOk: bool): Effects
    requires ask.Do? && !Mine(cfg, ask.op) ==> st.nextCorr < U64_MAX
  {
    match ask
    case Size => Effects(st, [], [], [ReplyCall(conn, receipt, SizeReply(cfg, st))])
    case Malformed(e) => Effects(st, [], [], [ReplyCall(conn, receipt, Refused(e))])
    case Do(op) =>
      if Mine(cfg, op) then
        var (entries, reply) := Execute(st.entries, op);
        Effects(st.(entries := entries), [], [], [ReplyCall(conn, receipt, reply)])
      else Forward(cfg, st, conn, receipt, op, now, sendOk)
    case Quit => Quiet(st.(clients := st.clients - {conn}))
    case Unserved => Quiet(st)
  }

  function HandleClient(cfg: Config, st: NodeState, conn: nat, frame: ClientFrame, now: int, sendOk: bool): Effects
    requires Forwards(cfg, frame) ==> st.nextCorr < U64_MAX
  {
    HandleAsk(cfg, st, conn, frame.receipt, AskOf(frame), now, sendOk)
  }

  /** The reply to a forwarded operation, and the store after it. */
  function Serve(cfg: Config, st: NodeState, op: Op): (Entries, Reply) {
    if Mine(cfg, op) then Execute(st.entries, op) else (st.entries, NotMine(cfg, op))
  }

  function HandlePeer(cfg: Config, st: NodeState, m: Peer, sendOk: bool): Effects {
    match m
    case Request(corr, op) =>
      var (entries, reply) := Serve(cfg, st, op);
      var answer := Response(corr, reply);
      Effects(st.(entries := entries), Made(answer), Taken(answer, sendOk), [])
    case Response(corr, reply) =>
      if corr !in st.pending then Quiet(st)
      else
        var p := st.pending[corr];
        Effects(st.(pending := st.pending - {corr}), [], [], [ReplyCall(p.conn, p.receipt, reply)])
  }

  /** The correlation ids due at `now`. */
  function Due(st: NodeState, now: int): set<U64> {
    set c | c in st.pending && st.pending[c].deadline <= now
  }

  /** Some order in which a map may yield the due entries. */
  ghost predicate Enumerates(order: seq<U64>, s: set<U64>) {
    && (forall i, j :: 0 <= i < j < |order| ==> order[i] != order[j])
    && (forall c :: c in order <==> c in s)
  }

  function TimeoutCalls(cfg: Config, st: NodeState, order: seq<U64>): (r: seq<ReplyCall>)
    requires forall c :: c in order ==> c in st.pending
    ensures |r| == |order|
  {
    seq(|order|, i requires 0 <= i < |order| =>
      assert order[i] in order;
      ReplyCall(st.pending[order[i]].conn, st.pending[order[i]].receipt, TimeoutReply(cfg)))
  }

  function Departed(st: NodeState, conn: nat): set<U64> {
    set c | c in st.pending && st.pending[c].conn == conn
  }

  ghost predicate Able(cfg: Config, st: NodeState, ev: Event) {
    match ev
    case FromClient(_, frame, _, _) => Forwards(cfg, frame) ==> st.nextCorr < U64_MAX
    case Tick(now, order) => Enumerates(order, Due(st, now))
    case _ => true
  }

  ghost function Handle(cfg: Config, st: NodeState, ev: Event): Effects
    requires Able(cfg, st, ev)
  {
    match ev
    case Up(conn) => Quiet(st.(clients := st.clients + {conn}))
    case Down(conn) =>
      Quiet(st.(clients := st.clients - {conn}, pending := st.pending - Departed(st, conn)))
    case FromClient(conn, frame, now, sendOk) => HandleClient(cfg, st, conn, frame, now, sendOk)
    case FromPeer(m, sendOk) => HandlePeer(cfg, st, m, sendOk)
    case Unreadable => Quiet(st)
    case Tick(now, order) =>
      Effects(st.(pending := st.pending - Due(st, now)), [], [], TimeoutCalls(cfg, st, order))
  }

  // ----- conservation of requests, under any peer and any network -----

  /** What a node has been asked, has answered, and has dropped with a departing client. */
  datatype Ledger = Ledger(sends: nat, replies: nat, discarded: nat)

  ghost function Book(cfg: Config, l: Ledger, st: NodeState, ev: Event): Ledger
    requires Able(cfg, st, ev)
  {
    Ledger(l.sends + (if ev.FromClient? && IsSend(ev.frame) then 1 else 0),
           l.replies + |Handle(cfg, st, ev).replies|,
           l.discarded + (if ev.Down? then |Departed(st, ev.conn)| else 0))
  }

  ghost predicate Conserved(l: Ledger, st: NodeState) {
    && l.sends == l.replies + |st.pending| + l.discarded
    && (forall c :: c in st.pending ==> c <= st.nextCorr)
  }

  lemma RemovedSize(m: map<U64, Pending>, s: set<U64>)
    requires s <= m.Keys
    ensures |m - s| == |m| - |s|
  {
    assert (m - s).Keys == m.Keys - s;
  }

  lemma AddedSize(m: map<U64, Pending>, c: U64, p: Pending)
    requires c !in m
    ensures |m[c := p]| == |m| + 1
  {
    assert m[c := p].Keys == m.Keys + {c};
  }

  lemma {:induction false} EnumeratesSize(order: seq<U64>, s: set<U64>)
    requires Enumerates(order, s)
    ensures |order| == |s|
  {
    if order == [] {
      assert s == {};
    } else {
      var last := order[|order| - 1];
      assert last in order;
      assert forall c :: c in order[..|order| - 1] <==> c in s - {last} by {
        assert order == order[..|order| - 1] + [last];
      }
      EnumeratesSize(order[..|order| - 1], s - {last});
    }
  }

  lemma ClientConserves(cfg: Config, l: Ledger, st: NodeState, ev: Event)
    requires ev.FromClient? && Able(cfg, st, ev) && Conserved(l, st)
    ensures Conserved(Book(cfg, l, st, ev), Handle(cfg, st, ev).state)
  {
    var ask := AskOf(ev.frame);
    if ask.Do? && !Mine(cfg, ask.op) {
      AddedSize(st.pending, st.nextCorr + 1, Pending(ev.conn, ev.frame.receipt, ev.now + FORWARD_TIMEOUT));
    }
  }

  /** SENDs handled = replies made + requests pending + requests dropped with their client, after every event. */
  lemma EveryEventConserves(cfg: Config, l: Ledger, st: NodeState, ev: Event)
    requires Able(cfg, st, ev) && Conserved(l, st)
    ensures Conserved(Book(cfg, l, st, ev), Handle(cfg, st, ev).state)
  {
    match ev {
      case Down(conn) =>
        RemovedSize(st.pending, Departed(st, conn));
      case FromClient(_, _, _, _) =>
        ClientConserves(cfg, l, st, ev);
      case FromPeer(m, sendOk) =>
        if m.Response? && m.corr in st.pending {
          RemovedSize(st.pending, {m.corr});
        }
      case Tick(now, order) =>
        RemovedSize(st.pending, Due(st, now));
        EnumeratesSize(order, Due(st, now));
      case _ =>
    }
  }

  /** Events one after the other; `None` if one of them cannot happen where it comes. */
  ghost function RunEvents(cfg: Config, l: Ledger, st: NodeState, evs: seq<Event>): Option<(Ledger, NodeState)>
    decreases evs
  {
    if evs == [] then Some((l, st))
    else if !Able(cfg, st, evs[0]) then None
    else RunEvents(cfg, Book(cfg, l, st, evs[0]), Handle(cfg, st, evs[0]).state, evs[1..])
  }

  lemma {:induction false} EveryRunConserves(cfg: Config, l: Ledger, st: NodeState, evs: seq<Event>)
    requires Conserved(l, st) && RunEvents(cfg, l, st, evs).Some?
    ensures var (l', st') := RunEvents(cfg, l, st, evs).value; Conserved(l', st')
    decreases evs
  {
    if evs != [] {
      EveryEventConserves(cfg, l, st, evs[0]);
      EveryRunConserves(cfg, Book(cfg, l, st, evs[0]), Handle(cfg, st, evs[0]).state, evs[1..]);
    }
  }

  /** After a tick nothing overdue is left, nothing else is lost, and each due request is answered once,
      on its own connection, in whatever order the table is walked. */
  lemma TickSettlesTheDue(cfg: Config, st: NodeState, now: int, order: seq<U64>, c: U64)
    requires Enumerates(order, Due(st, now))
    ensures var e := Handle(cfg, st, Tick(now, order));
            && (c in e.state.pending <==> c in st.pending && st.pending[c].deadline > now)
            && (c in e.state.pending ==> e.state.pending[c] == st.pending[c])
            && (c in Due(st, now) ==>
                  exists i :: 0 <= i < |order| && order[i] == c
                    && e.replies[i] == ReplyCall(st.pending[c].conn, st.pending[c].receipt, TimeoutReply(cfg)))
            && |e.replies| == |Due(st, now)|
  {
    EnumeratesSize(order, Due(st, now));
    if c in Due(st, now) {
      assert c in order;
      var i :| 0 <= i < |order| && order[i] == c;
      var e := Handle(cfg, st, Tick(now, order));
      assert e.replies[i] == ReplyCall(st.pending[c].conn, st.pending[c].receipt, TimeoutReply(cfg));
    }
  }
}
