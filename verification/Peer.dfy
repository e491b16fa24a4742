/** Node-to-node messages (src/bin/six-seven-server/peer.rs) and their exact inverse. */
module PeerCodec {
  import opened Bytes
  import opened Text
  import opened Kv
  import Utf8

  datatype Peer = Request(corr: U64, op: Op) | Response(corr: U64, reply: Reply)

  function OpText(op: Op): string {
    match op
    case Get(k) => "GET" + " " + Decimal(k)
    case Rm(k) => "RM" + " " + Decimal(k)
    case Put(k, v) => "PUT" + " " + (Decimal(k) + " " + v)
  }

  function ReplyText(reply: Reply): string {
    match reply
    case Value(v) => "VAL" + " " + v
    case Done => "OK"
    case Nil => "NIL"
    case Refused(e) => "ERR" + " " + e
  }

  /** `Peer::encode`. */
  function Print(p: Peer): string {
    match p
    case Request(corr, op) => "REQ" + " " + (Decimal(corr) + " " + OpText(op))
    case Response(corr, reply) => "RSP" + " " + (Decimal(corr) + " " + ReplyText(reply))
  }

  /** `split_once(' ')` with the whole text as the default left side. */
  function Cut(s: string): (string, string) {
    match SplitOnce(s, ' ')
    case Some(pair) => pair
    case None => (s, "")
  }

  function KeyText(s: string): Option<U64> {
    ParseU64(Trim(s))
  }

  /** The peer knows three verbs, without regard to ASCII case. */
  function PeerVerb(word: string): Verb {
    var upper := Upper(word);
    if upper == "GET" then GetVerb
    else if upper == "RM" then RmVerb
    else if upper == "PUT" then PutVerb
    else OtherVerb
  }

  function ReadAs(verb: Verb, tail: string): Option<Op> {
    match verb
    case GetVerb => (match KeyText(tail) case Some(k) => Some(Get(k)) case None => None)
    case RmVerb => (match KeyText(tail) case Some(k) => Some(Rm(k)) case None => None)
    case PutVerb =>
      var (key, value) := Cut(tail);
      (match KeyText(key) case Some(k) => Some(Put(k, value)) case None => None)
    case _ => None
  }

  function ReadOp(rest: string): Option<Op> {
    var (verb, tail) := Cut(rest);
    ReadAs(PeerVerb(verb), tail)
  }

  function ReadReply(rest: string): Option<Reply> {
    var (tag, body) := Cut(rest);
    if tag == "VAL" then Some(Value(body))
    else if tag == "OK" then Some(Done)
    else if tag == "NIL" then Some(Nil)
    else if tag == "ERR" then Some(Refused(body))
    else None
  }

  function ReadKind(kind: string, corr: U64, rest: string): Option<Peer> {
    if kind == "REQ" then
      match ReadOp(rest) case Some(op) => Some(Request(corr, op)) case None => None
    else if kind == "RSP" then
      match ReadReply(rest) case Some(reply) => Some(Response(corr, reply)) case None => None
    else None
  }

  /** `Peer::decode`: kind, correlation id, and the rest, split at the first two spaces. */
  function Read(text: string): Option<Peer> {
    match SplitOnce(text, ' ')
    case None => None
    case Some((kind, after)) =>
      var (corrText, rest) := Cut(after);
      match ParseU64(corrText)
      case None => None
      case Some(corr) => ReadKind(kind, corr, rest)
  }

  lemma DecimalIsPlain(n: nat)
    ensures ' ' !in Decimal(n) && Trim(Decimal(n)) == Decimal(n)
  {
    var s := Decimal(n);
    forall i | 0 <= i < |s|
      ensures s[i] != ' ' && !IsSpace(s[i])
    {
      assert IsDigit(s[i]);
    }
    assert TrimStart(s) == s;
    assert TrimEnd(s) == s;
  }

  lemma CutAt(a: string, b: string)
    requires ' ' !in a
    ensures Cut(a + " " + b) == (a, b)
    ensures Cut(a) == (a, "")
  {
    SplitOnceAt(a, ' ', b);
    SplitOnceNone(a, ' ');
  }

  lemma VerbsAreKnown()
    ensures PeerVerb("GET") == VerbOf("GET") == GetVerb
    ensures PeerVerb("RM") == VerbOf("RM") == RmVerb
    ensures PeerVerb("PUT") == VerbOf("PUT") == PutVerb
    ensures forall i :: 0 <= i < 3 ==> !IsSpace("GET"[i]) && !IsSpace("PUT"[i])
    ensures forall i :: 0 <= i < 2 ==> !IsSpace("RM"[i])
  {
    assert Upper("GET") == "GET" && Upper("RM") == "RM" && Upper("PUT") == "PUT";
  }

  function VerbText(op: Op): string {
    match op case Get(_) => "GET" case Rm(_) => "RM" case Put(_, _) => "PUT"
  }

  function VerbIn(op: Op): Verb {
    match op case Get(_) => GetVerb case Rm(_) => RmVerb case Put(_, _) => PutVerb
  }

  function TailText(op: Op): string {
    match op case Get(k) => Decimal(k) case Rm(k) => Decimal(k) case Put(k, v) => Decimal(k) + " " + v
  }

  /** Both parsers know the verb, and no verb holds whitespace. */
  lemma VerbKnown(op: Op)
    ensures PeerVerb(VerbText(op)) == VerbOf(VerbText(op)) == VerbIn(op)
    ensures VerbText(op) != [] && forall i :: 0 <= i < |VerbText(op)| ==> !IsSpace(VerbText(op)[i])
    ensures OpText(op) == VerbText(op) + " " + TailText(op)
  {
    VerbsAreKnown();
  }

  lemma KeyReads(k: U64)
    ensures KeyText(Decimal(k)) == Some(k)
  {
    DecimalIsPlain(k);
    ParsePrinted(k);
  }

  lemma TailReads(op: Op)
    ensures ReadAs(VerbIn(op), TailText(op)) == Some(op)
  {
    KeyReads(op.k);
    if op.Put? {
      DecimalIsPlain(op.k);
      CutAt(Decimal(op.k), op.v);
    }
  }

  lemma ReadPrintedOp(op: Op)
    ensures ReadOp(OpText(op)) == Some(op)
  {
    var verb, tail := VerbText(op), TailText(op);
    VerbKnown(op);
    TailReads(op);
    assert ' ' !in verb by {
      assert IsSpace(' ');
    }
    CutAt(verb, tail);
  }

  lemma ReadPrintedReply(reply: Reply)
    ensures ReadReply(ReplyText(reply)) == Some(reply)
  {
    match reply {
      case Value(v) => CutAt("VAL", v);
      case Done => CutAt("OK", "");
      case Nil => CutAt("NIL", "");
      case Refused(e) => CutAt("ERR", e);
    }
  }

  lemma ReadParts(kind: string, corr: U64, rest: string)
    requires ' ' !in kind
    ensures Read(kind + " " + (Decimal(corr) + " " + rest)) == ReadKind(kind, corr, rest)
  {
    DecimalIsPlain(corr);
    ParsePrinted(corr);
    SplitOnceAt(kind, ' ', Decimal(corr) + " " + rest);
    CutAt(Decimal(corr), rest);
  }

  /** Decoding undoes encoding for every correlation id, operation and reply, whatever the value holds. */
  lemma ReadPrinted(p: Peer)
    ensures Read(Print(p)) == Some(p)
  {
    match p {
      case Request(corr, op) =>
        ReadPrintedOp(op);
        ReadParts("REQ", corr, OpText(op));
      case Response(corr, reply) =>
        ReadPrintedReply(reply);
        ReadParts("RSP", corr, ReplyText(reply));
    }
  }

  // ----- the two parsers agree -----

  /** A word, one space and the rest split there for the client's parser as for the peer's. */
  lemma SpaceSplit(a: string, b: string)
    requires forall i :: 0 <= i < |a| ==> !IsSpace(a[i])
    ensures SplitSpace(a + " " + b) == Some((a, b))
  {
    var s := a + " " + b;
    assert s[|a|] == ' ';
    assert forall i :: 0 <= i < |a| ==> s[i] == a[i];
    assert SpaceAt(s) == |a|;
    assert s[..|a|] == a && s[|a| + 1..] == b;
  }

  lemma NoLeadingSpace(s: string)
    requires s != [] && !IsSpace(s[0])
    ensures TrimStart(s) == s
  {
  }

  lemma KeyParses(k: U64)
    ensures ParseKey(Decimal(k)) == Ok(k)
  {
    DecimalIsPlain(k);
    ParsePrinted(k);
  }

  lemma DecimalHasNoSpace(n: nat)
    ensures forall i :: 0 <= i < |Decimal(n)| ==> !IsSpace(Decimal(n)[i])
  {
    var s := Decimal(n);
    forall i | 0 <= i < |s|
      ensures !IsSpace(s[i])
    {
      assert IsDigit(s[i]);
    }
  }

  lemma TailHasNoLeadingSpace(op: Op)
    ensures TailText(op) != [] && !IsSpace(TailText(op)[0])
  {
    DecimalHasNoSpace(op.k);
    assert TailText(op)[0] == Decimal(op.k)[0];
  }

  lemma WordsOf(op: Op)
    ensures TrimStart(OpText(op)) == OpText(op)
    ensures Words(OpText(op)) == (VerbText(op), TailText(op))
  {
    var verb, tail := VerbText(op), TailText(op);
    VerbKnown(op);
    TailHasNoLeadingSpace(op);
    SpaceSplit(verb, tail);
    NoLeadingSpace(tail);
    NoLeadingSpace(verb + " " + tail);
  }

  lemma TailParses(op: Op, size: nat)
    ensures ParseAs(VerbIn(op), size, TailText(op)) == Ok(op) <==> (op.Put? ==> size <= MAX_PUT_BYTES)
  {
    KeyParses(op.k);
    if op.Put? {
      DecimalHasNoSpace(op.k);
      SpaceSplit(Decimal(op.k), op.v);
    }
  }

  /** The text of an operation means the same to a client's node as to the peer, unless it is a PUT too
      long for a client. */
  lemma ParsersAgree(op: Op)
    ensures ReadOp(OpText(op)) == Some(op)
    ensures ParseOp(OpText(op)) == Ok(op) <==> (op.Put? ==> Utf8.ByteLen(OpText(op)) <= MAX_PUT_BYTES)
  {
    ReadPrintedOp(op);
    VerbKnown(op);
    WordsOf(op);
    TailParses(op, Utf8.ByteLen(OpText(op)));
  }

  // ----- message sizes -----

  lemma DecimalBytes(n: nat)
    ensures Utf8.ByteLen(Decimal(n)) == |Decimal(n)|
  {
    var s := Decimal(n);
    assert forall i :: 0 <= i < |s| ==> IsDigit(s[i]);
    Utf8.AsciiLength(s);
  }

  /** Four bytes of kind, the id, a space, the rest. */
  lemma PrintedBytes(p: Peer)
    ensures Utf8.ByteLen(Print(p)) == 5 + |Decimal(p.corr)|
            + Utf8.ByteLen(match p case Request(_, op) => OpText(op) case Response(_, reply) => ReplyText(reply))
  {
    var kind := if p.Request? then "REQ" else "RSP";
    var rest := match p case Request(_, op) => OpText(op) case Response(_, reply) => ReplyText(reply);
    Utf8.ByteLenAppend(kind + " ", Decimal(p.corr) + " " + rest);
    Utf8.ByteLenAppend(Decimal(p.corr) + " ", rest);
    Utf8.ByteLenAppend(Decimal(p.corr), " ");
    DecimalBytes(p.corr);
    Utf8.AsciiLength(kind + " ");
    Utf8.AsciiLength(" ");
  }

  /** An operation no client request could exceed. */
  ghost predicate SmallOp(op: Op) {
    op.Put? ==> |Decimal(op.k)| + Utf8.ByteLen(op.v) <= 1019 && Utf8.ByteLen(op.v) <= 1018
  }

  ghost predicate SmallReply(reply: Reply) {
    match reply
    case Value(v) => Utf8.ByteLen(v) <= 1018
    case Refused(e) => Utf8.ByteLen(e) <= 1018
    case _ => true
  }

  lemma OpTextBytes(op: Op)
    requires SmallOp(op)
    ensures Utf8.ByteLen(OpText(op)) <= 1024
  {
    U64Length(op.k);
    DecimalBytes(op.k);
    match op {
      case Get(k) =>
        Utf8.ByteLenAppend("GET" + " ", Decimal(k));
        Utf8.AsciiLength("GET" + " ");
      case Rm(k) =>
        Utf8.ByteLenAppend("RM" + " ", Decimal(k));
        Utf8.AsciiLength("RM" + " ");
      case Put(k, v) =>
        Utf8.ByteLenAppend("PUT" + " ", Decimal(k) + " " + v);
        Utf8.ByteLenAppend(Decimal(k) + " ", v);
        Utf8.ByteLenAppend(Decimal(k), " ");
        Utf8.AsciiLength("PUT" + " ");
        Utf8.AsciiLength(" ");
    }
  }

  lemma ReplyTextBytes(reply: Reply)
    requires SmallReply(reply)
    ensures Utf8.ByteLen(ReplyText(reply)) <= 1022
  {
    match reply {
      case Value(v) =>
        Utf8.ByteLenAppend("VAL" + " ", v);
        Utf8.AsciiLength("VAL" + " ");
      case Refused(e) =>
        Utf8.ByteLenAppend("ERR" + " ", e);
        Utf8.AsciiLength("ERR" + " ");
      case Done => Utf8.AsciiLength("OK");
      case Nil => Utf8.AsciiLength("NIL");
    }
  }

  /** No message between honest nodes exceeds 1049 bytes. */
  lemma MessagesAreSmall(p: Peer)
    requires p.Request? ==> SmallOp(p.op)
    requires p.Response? ==> SmallReply(p.reply)
    ensures Utf8.ByteLen(Print(p)) <= 1049
  {
    PrintedBytes(p);
    U64Length(p.corr);
    match p {
      case Request(_, op) => OpTextBytes(op);
      case Response(_, reply) => ReplyTextBytes(reply);
    }
  }
}
