/** The core loop's state and handlers (src/bin/six-seven-server/main.rs), on real datagrams. */
module Nodes {
  import opened Bytes
  import opened Codec
  import opened Sodium
  import opened KeyStores
  import opened StandardMode
  import DekMode
  import Stats
  import opened Kv
  import opened PeerCodec
  import opened Server
  import Utf8

  /** The keystore `run` builds: one peer, one epoch, the link key. */
  function LinkRing(cfg: Config, link: Key): Ring {
    Ring(cfg.id, map[Slot(cfg.peerId, LINK_EPOCH) := link])
  }

  function LinkHeader(cfg: Config): Header {
    Header(cfg.id, cfg.peerId, PEER_CHANNEL)
  }

  function Payload(m: Peer): Bytes {
    Utf8.Encode(Print(m))
  }

  /** The datagram that carries `m` to the peer. */
  function Datagram(enc: Cipher, cfg: Config, link: Key, nonce: Nonce, m: Peer): Bytes
    requires IsAead(enc)
  {
    StandardFrame(enc, LinkHeader(cfg), LINK_EPOCH, link, nonce, Payload(m))
  }

  function DatagramCall(cfg: Config, link: Key, nonce: Nonce, m: Peer): Call {
    StandardCall(LinkHeader(cfg), LINK_EPOCH, link, nonce, Payload(m))
  }

  /** What a received datagram says, if it opens, is from the peer on our channel, and decodes. */
  function Received(enc: Cipher, log: Log, cfg: Config, link: Key, bytes: Bytes): Option<Peer>
    requires IsAead(enc)
  {
    match DekMode.OpenVerdict(enc, log, LinkRing(cfg, link), bytes)
    case Accepted(h, _, payload) =>
      if h.fromId != cfg.peerId || h.channel != PEER_CHANNEL then None
      else Understood(payload)
    case _ => None
  }

  function Understood(payload: Bytes): Option<Peer> {
    match Utf8.Decode(payload)
    case None => None
    case Some(text) => Read(text)
  }

  lemma PayloadUnderstood(m: Peer)
    ensures Understood(Payload(m)) == Some(m)
  {
    Utf8.DecodeEncoded(Print(m));
    ReadPrinted(m);
  }

  /** `handle_datagram`: act on what the bytes say, or do nothing at all. */
  function HandleDatagram(enc: Cipher, log: Log, cfg: Config, link: Key, st: NodeState, bytes: Bytes, sendOk: bool): Effects
    requires IsAead(enc)
  {
    match Received(enc, log, cfg, link, bytes)
    case Some(m) => HandlePeer(cfg, st, m, sendOk)
    case None => Quiet(st)
  }

  function Datagrams(enc: Cipher, cfg: Config, link: Key, nonce: Nonce, ms: seq<Peer>): seq<Bytes>
    requires IsAead(enc)
  {
    seq(|ms|, i requires 0 <= i < |ms| => Datagram(enc, cfg, link, nonce, ms[i]))
  }

  function DatagramCalls(cfg: Config, link: Key, nonce: Nonce, ms: seq<Peer>): Log {
    set m | m in ms :: DatagramCall(cfg, link, nonce, m)
  }

  lemma OneDatagram(enc: Cipher, cfg: Config, link: Key, nonce: Nonce, m: Peer)
    requires IsAead(enc)
    ensures Datagrams(enc, cfg, link, nonce, [m]) == [Datagram(enc, cfg, link, nonce, m)]
    ensures DatagramCalls(cfg, link, nonce, [m]) == {DatagramCall(cfg, link, nonce, m)}
    ensures Datagrams(enc, cfg, link, nonce, []) == [] && DatagramCalls(cfg, link, nonce, []) == {}
  {
  }

  class Node {
    const cfg: Config
    const link: Key
    const keys: KeyStore
    const aead: Aead
    const cells: Stats.Cells
    const kv: Store
    var clients: set<nat>
    var pending: map<U64, Pending>
    var nextCorr: U64
    /** The calls of `reply_to_client` made and the datagrams handed to the socket. */
    var replies: seq<ReplyCall>
    var sent: seq<Bytes>

    ghost predicate Valid()
      reads this, keys, aead
    {
      keys.Valid() && IsAead(aead.enc) && keys.Meaning() == LinkRing(cfg, link)
    }

    ghost function State(): NodeState
      reads this, kv
    {
      NodeState(kv.entries, clients, pending, nextCorr)
    }

    constructor (cfg: Config, link: Key, aead: Aead)
      requires IsAead(aead.enc)
      ensures Valid() && State() == EMPTY_NODE && replies == [] && sent == []
      ensures this.cfg == cfg && this.link == link && this.aead == aead
      ensures fresh(keys) && fresh(cells) && fresh(kv)
    {
      var ks := new KeyStore(cfg.id);
      var installed := ks.Install(cfg.peerId, LINK_EPOCH, link);
      this.cfg, this.link, this.aead := cfg, link, aead;
      keys := ks;
      cells := new Stats.Cells();
      kv := new Store();
      clients, pending, nextCorr, replies, sent := {}, map[], 0, [], [];
    }

    /** `e` happened: the state, the reply calls, the datagrams sent and the encryptions made are those of `e`. */
    twostate predicate Follows(e: Effects, nonce: Nonce)
      reads this, keys, aead, kv
    {
      && Valid()
      && State() == e.state
      && replies == old(replies) + e.replies
      && sent == old(sent) + Datagrams(aead.enc, cfg, link, nonce, e.messages)
      && aead.log == old(aead.log) + DatagramCalls(cfg, link, nonce, e.made)
    }

    method Reply(conn: nat, receipt: Option<string>, reply: Reply)
      modifies this`replies
      ensures replies == old(replies) + [ReplyCall(conn, receipt, reply)]
    {
      replies := replies + [ReplyCall(conn, receipt, reply)];
    }

    method SendToPeer(m: Peer, nonce: Nonce, sendOk: bool) returns (ok: bool)
      requires Valid()
      modifies this`sent, aead
      ensures Valid()
      ensures ok <==> Taken(m, sendOk) != []
      ensures sent == old(sent) + Datagrams(aead.enc, cfg, link, nonce, Taken(m, sendOk))
      ensures aead.log == old(aead.log) + DatagramCalls(cfg, link, nonce, Made(m))
    {
      assert Slot(cfg.peerId, LINK_EPOCH) in keys.Meaning().keys;
      OneDatagram(aead.enc, cfg, link, nonce, m);
      var frame := DekMode.Seal(keys, aead, cfg.peerId, PEER_CHANNEL, LINK_EPOCH, Payload(m), nonce);
      if frame.Err? {
        return false;
      }
      if !sendOk {
        return false;
      }
      sent := sent + [frame.value];
      return true;
    }

    method OnUp(conn: nat)
      requires Valid()
      modifies this
      ensures forall nonce :: Follows(Handle(cfg, old(State()), Up(conn)), nonce)
    {
      clients := clients + {conn};
    }

    method OnDown(conn: nat)
      requires Valid()
      modifies this
      ensures forall nonce :: Follows(Handle(cfg, old(State()), Down(conn)), nonce)
    {
      clients := clients - {conn};
      pending := map c | c in pending && pending[c].conn != conn :: pending[c];
      assert pending == old(pending) - Departed(old(State()), conn);
    }

    method OnClientFrame(conn: nat, frame: ClientFrame, now: int, nonce: Nonce, sendOk: bool)
      requires Valid() && Able(cfg, State(), FromClient(conn, frame, now, sendOk))
      modifies this, kv, aead
      ensures Follows(Handle(cfg, old(State()), FromClient(conn, frame, now, sendOk)), nonce)
    {
      match AskOf(frame) {
        case Size =>
          Reply(conn, frame.receipt, SizeReply(cfg, NodeState(kv.entries, clients, pending, nextCorr)));
        case Malformed(e) =>
          Reply(conn, frame.receipt, Refused(e));
        case Do(op) =>
          if Mine(cfg, op) {
            var reply := kv.ExecuteOp(op);
            Reply(conn, frame.receipt, reply);
          } else {
            ForwardOp(conn, frame.receipt, op, now, nonce, sendOk);
          }
        case Quit =>
          clients := clients - {conn};
        case Unserved =>
      }
    }

    /** Not ours: mint an id, send the whole operation, and wait for the answer. */
    method ForwardOp(conn: nat, receipt: Option<string>, op: Op, now: int, nonce: Nonce, sendOk: bool)
      requires Valid() && nextCorr < U64_MAX
      modifies this, aead
      ensures Follows(Forward(cfg, old(State()), conn, receipt, op, now, sendOk), nonce)
    {
      nextCorr := nextCorr + 1;
      var corr := nextCorr;
      var ok := SendToPeer(Request(corr, op), nonce, sendOk);
      if !ok {
        Reply(conn, receipt, SendFailed(cfg));
      } else {
        pending := pending[corr := Pending(conn, receipt, now + FORWARD_TIMEOUT)];
      }
    }

    /** Open, check the source and the channel, decode. */
    method ReadDatagram(bytes: Bytes) returns (m: Option<Peer>)
      requires Valid()
      modifies cells
      ensures m == Received(aead.enc, aead.log, cfg, link, bytes)
    {
      var res := DekMode.Open(keys, aead, cells, bytes);
      if res.None? {
        return None;
      }
      var (header, flags, payload) := res.value;
      if header.fromId != cfg.peerId || header.channel != PEER_CHANNEL {
        return None;
      }
      var text := Utf8.Decode(payload);
      if text.None? {
        return None;
      }
      return Read(text.value);
    }

    method OnDatagram(bytes: Bytes, nonce: Nonce, sendOk: bool)
      requires Valid()
      modifies this, kv, aead, cells
      ensures Follows(HandleDatagram(aead.enc, old(aead.log), cfg, link, old(State()), bytes, sendOk), nonce)
    {
      var message := ReadDatagram(bytes);
      if message.Some? {
        OnMessage(message.value, nonce, sendOk);
      }
    }

    method OnMessage(m: Peer, nonce: Nonce, sendOk: bool)
      requires Valid()
      modifies this, kv, aead
      ensures Follows(HandlePeer(cfg, old(State()), m, sendOk), nonce)
    {
      match m {
        case Request(corr, op) =>
          var reply;
          if Mine(cfg, op) {
            reply := kv.ExecuteOp(op);
          } else {
            reply := NotMine(cfg, op);
          }
          var ok := SendToPeer(Response(corr, reply), nonce, sendOk);
        case Response(corr, reply) =>
          if corr in pending {
            var p := pending[corr];
            pending := pending - {corr};
            Reply(p.conn, p.receipt, reply);
          }
      }
    }

    /** Collect the due entries in some order, then answer and remove them one by one. */
    method OnTick(now: int) returns (order: seq<U64>)
      requires Valid()
      modifies this
      ensures Enumerates(order, Due(old(State()), now))
      ensures forall nonce :: Follows(Handle(cfg, old(State()), Tick(now, order)), nonce)
    {
      var due := set c | c in pending && pending[c].deadline <= now;
      order := Listed(due);
      ghost var start := State();
      assert due == Due(start, now);
      var i := 0;
      while i < |order|
        invariant 0 <= i <= |order|
        invariant forall c :: c in order ==> c in start.pending
        invariant pending == Without(start.pending, order[..i])
        invariant replies == old(replies) + TimeoutCalls(cfg, start, order[..i])
        invariant clients == old(clients) && nextCorr == old(nextCorr) && sent == old(sent)
      {
        TimeoutStep(cfg, start, order, i);
        var corr := order[i];
        var p := pending[corr];
        pending := pending - {corr};
        Reply(p.conn, p.receipt, TimeoutReply(cfg));
        i := i + 1;
      }
      assert order[..i] == order;
      WithoutDue(start, now, order);
    }
  }

  ghost function Without(pending: map<U64, Pending>, done: seq<U64>): map<U64, Pending> {
    pending - (set c | c in done)
  }

  /** Settling the next due entry: it is still pending, and the reply is the next timeout call. */
  lemma TimeoutStep(cfg: Config, st: NodeState, order: seq<U64>, i: nat)
    requires i < |order| && (forall c :: c in order ==> c in st.pending)
    requires forall j, k :: 0 <= j < k < |order| ==> order[j] != order[k]
    ensures var rest, p := Without(st.pending, order[..i]), st.pending[order[i]];
            && order[i] in rest && rest[order[i]] == p
            && Without(st.pending, order[..i + 1]) == rest - {order[i]}
            && TimeoutCalls(cfg, st, order[..i + 1])
               == TimeoutCalls(cfg, st, order[..i]) + [ReplyCall(p.conn, p.receipt, TimeoutReply(cfg))]
  {
    assert order[..i + 1] == order[..i] + [order[i]];
    assert order[i] !in order[..i];
  }

  lemma WithoutDue(st: NodeState, now: int, order: seq<U64>)
    requires Enumerates(order, Due(st, now))
    ensures Without(st.pending, order) == st.pending - Due(st, now)
  {
    assert (set c | c in order) == Due(st, now);
  }

  /** The elements of a set, in an order nobody controls. */
  method Listed(s: set<U64>) returns (order: seq<U64>)
    ensures Enumerates(order, s)
  {
    order := [];
    var rest := s;
    while rest != {}
      invariant rest <= s
      invariant Enumerates(order, s - rest)
      decreases rest
    {
      var c :| c in rest;
      order := order + [c];
      rest := rest - {c};
    }
  }
}
