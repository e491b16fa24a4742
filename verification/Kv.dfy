/** The six-seven store (src/bin/six-seven-server/kv.rs): placement, request parsing, execution, caps. */
module Kv {
  import opened Bytes
  import opened Text
  import Utf8

  const MAX_PUT_BYTES := 1024
  const MAX_KEYS := 1_000_000

  datatype Op = Get(k: U64) | Put(k: U64, v: string) | Rm(k: U64)

  datatype Reply = Value(text: string) | Done | Nil | Refused(why: string)

  type Entries = map<U64, string>

  const FULL := "keyset estimate at the 1000000-key ceiling; refusing new keys"

  /** Odd keys live on the lower-numbered node, even keys on the higher. */
  function Owner(key: U64, a: U16, b: U16): U16 {
    var lower, higher := if a <= b then a else b, if a <= b then b else a;
    if key % 2 == 1 then lower else higher
  }

  // ----- parsing a client request -----

  function ParseKey(s: string): Result<U64, string> {
    var t := Trim(s);
    if t == [] then Err("missing key")
    else
      match ParseU64(t)
      case Some(k) => Ok(k)
      case None => Err("key must be a u64")
  }

  /** A PUT of `size` request bytes whose text after the verb is `rest`; the value is what follows the key, verbatim. */
  function ParsePut(size: nat, rest: string): Result<Op, string> {
    if size > MAX_PUT_BYTES then Err("put of " + Decimal(size) + " bytes exceeds the 1024-byte limit")
    else
      match SplitSpace(rest)
      case None => Err("PUT needs a key and a value")
      case Some((key, value)) =>
        match ParseKey(key) case Ok(k) => Ok(Put(k, value)) case Err(e) => Err(e)
  }

  datatype Verb = GetVerb | RmVerb | PutVerb | NoVerb | OtherVerb

  /** Verbs are matched without regard to ASCII case. */
  function VerbOf(word: string): (r: Verb)
    ensures r.PutVerb? ==> |word| == 3
  {
    var upper := Upper(word);
    if upper == "GET" then GetVerb
    else if upper == "RM" || upper == "DEL" then RmVerb
    else if upper == "PUT" || upper == "SET" then PutVerb
    else if upper == "" then NoVerb
    else OtherVerb
  }

  /** The spellings of each verb. */
  lemma VerbsExactly(word: string)
    ensures VerbOf(word) == GetVerb <==> Spells(word, "GET")
    ensures VerbOf(word) == RmVerb <==> Spells(word, "RM") || Spells(word, "DEL")
    ensures VerbOf(word) == PutVerb <==> Spells(word, "PUT") || Spells(word, "SET")
    ensures VerbOf(word) == NoVerb <==> word == ""
  {
    UpperIffSpells(word, "GET");
    UpperIffSpells(word, "RM");
    UpperIffSpells(word, "DEL");
    UpperIffSpells(word, "PUT");
    UpperIffSpells(word, "SET");
  }

  /** The first word of a request and, past the whitespace after it, the rest. */
  function Words(body: string): (string, string) {
    match SplitSpace(body)
    case Some((v, r)) => (v, TrimStart(r))
    case None => (body, "")
  }

  /** `Op::parse`: leading whitespace is not part of the request. */
  function ParseOp(text: string): Result<Op, string> {
    ParseBody(TrimStart(text))
  }

  function ParseBody(body: string): Result<Op, string> {
    var (word, rest) := Words(body);
    ParseAs(VerbOf(word), Utf8.ByteLen(body), rest)
  }

  /** A request of `size` bytes, by its verb. */
  function ParseAs(verb: Verb, size: nat, rest: string): Result<Op, string> {
    match verb
    case GetVerb => (match ParseKey(rest) case Ok(k) => Ok(Get(k)) case Err(e) => Err(e))
    case RmVerb => (match ParseKey(rest) case Ok(k) => Ok(Rm(k)) case Err(e) => Err(e))
    case PutVerb => ParsePut(size, rest)
    case NoVerb => Err("empty request")
    case OtherVerb => Err("unknown verb; want GET, PUT or RM")
  }

  // ----- what a request may look like -----

  lemma SpaceAfterKey(key: string, space: char, v: string)
    requires IsSpace(space) && forall i :: 0 <= i < |key| ==> !IsSpace(key[i])
    ensures SplitSpace(key + [space] + v) == Some((key, v))
  {
    var s := key + [space] + v;
    assert s[|key|] == space;
    assert forall i :: 0 <= i < |key| ==> s[i] == key[i];
    assert SpaceAt(s) == |key|;
    assert s[..|key|] == key && s[|key| + 1..] == v;
  }

  lemma FirstOfGap(word: string, gap: string, rest: string)
    requires gap != []
    ensures word + gap + rest == word + [gap[0]] + (gap[1..] + rest)
  {
    assert gap == [gap[0]] + gap[1..];
  }

  /** A word, some whitespace and the rest, whatever whitespace comes before. */
  lemma {:induction false} WordsBetween(lead: string, word: string, gap: string, rest: string)
    requires AllSpace(lead) && AllSpace(gap) && gap != [] && word != []
    requires (forall i :: 0 <= i < |word| ==> !IsSpace(word[i])) && (rest == [] || !IsSpace(rest[0]))
    ensures TrimStart(lead + (word + gap + rest)) == word + gap + rest
    ensures Words(word + gap + rest) == (word, rest)
  {
    TrimStartPast(lead, word + gap + rest);
    SpaceAfterKey(word, gap[0], gap[1..] + rest);
    FirstOfGap(word, gap, rest);
    TrimStartPast(gap[1..], rest);
  }

  /** `key` is a text of `k` with no whitespace in it. */
  ghost predicate KeySpelling(key: string, k: U64) {
    key != [] && ParseU64(key) == Some(k) && forall i :: 0 <= i < |key| ==> !IsSpace(key[i])
  }

  lemma {:induction false} KeyParsesTrimmed(key: string, k: U64, trail: string)
    requires KeySpelling(key, k) && AllSpace(trail)
    ensures ParseKey(key + trail) == Ok(k)
  {
    TrimAfter(key, trail);
    ParseTrimmed(key + trail, key, k);
  }

  lemma ParseTrimmed(s: string, t: string, k: U64)
    requires Trim(s) == t && t != [] && ParseU64(t) == Some(k)
    ensures ParseKey(s) == Ok(k)
  {
  }

  /** A GET or RM in any case, with any whitespace around its words, is that operation on that key. */
  lemma ParseKeyed(lead: string, word: string, gap: string, key: string, k: U64, trail: string)
    requires AllSpace(lead) && AllSpace(gap) && gap != [] && AllSpace(trail) && KeySpelling(key, k)
    requires Spells(word, "GET") || Spells(word, "RM") || Spells(word, "DEL")
    ensures ParseOp(lead + (word + gap + (key + trail))) == Ok(if Spells(word, "GET") then Get(k) else Rm(k))
  {
    VerbsExactly(word);
    LettersAreNotSpace(word);
    WordsBetween(lead, word, gap, key + trail);
    KeyParsesTrimmed(key, k, trail);
    ParsedBy(word + gap + (key + trail), word, key + trail, VerbOf(word));
  }

  lemma ParsedBy(body: string, word: string, rest: string, verb: Verb)
    requires Words(body) == (word, rest) && VerbOf(word) == verb
    ensures ParseBody(body) == ParseAs(verb, Utf8.ByteLen(body), rest)
  {
  }

  lemma LettersAreNotSpace(word: string)
    requires Spells(word, "GET") || Spells(word, "RM") || Spells(word, "DEL") || Spells(word, "PUT") || Spells(word, "SET")
    ensures word != [] && forall i :: 0 <= i < |word| ==> !IsSpace(word[i])
  {
  }

  /** A PUT in any case is a write of whatever follows the one whitespace after its key, if the request past
      its leading whitespace is at most 1024 bytes. */
  lemma ParseWrite(lead: string, word: string, gap: string, key: string, k: U64, space: char, v: string)
    requires AllSpace(lead) && AllSpace(gap) && gap != [] && IsSpace(space) && KeySpelling(key, k)
    requires Spells(word, "PUT") || Spells(word, "SET")
    ensures var body := word + gap + (key + [space] + v);
            ParseOp(lead + body) == Ok(Put(k, v)) <==> Utf8.ByteLen(body) <= 1024
  {
    var rest := key + [space] + v;
    VerbsExactly(word);
    LettersAreNotSpace(word);
    WordsBetween(lead, word, gap, rest);
    SpaceAfterKey(key, space, v);
    KeyParsesTrimmed(key, k, []);
    assert key + [] == key;
    ParsedBy(word + gap + rest, word, rest, PutVerb);
  }

  // ----- execution -----

  /** `Store::execute` on a plain map. */
  function Execute(m: Entries, op: Op): (r: (Entries, Reply))
    ensures |m| <= MAX_KEYS ==> |r.0| <= MAX_KEYS
    ensures forall k :: k in r.0 ==> k in m || k == op.k
  {
    match op
    case Get(k) => (m, if k in m then Value(m[k]) else Nil)
    case Rm(k) =>
      assert |m - {k}| <= |m| by { EntryRemoved(m, k); }
      (m - {k}, if k in m then Done else Nil)
    case Put(k, v) =>
      if k !in m && |m| >= MAX_KEYS then (m, Refused(FULL))
      else
        assert |m[k := v]| == if k in m then |m| else |m| + 1 by { EntrySet(m, k, v); }
        (m[k := v], Done)
  }

  lemma EntryRemoved(m: Entries, k: U64)
    ensures |m - {k}| == if k in m then |m| - 1 else |m|
  {
    assert (m - {k}).Keys == m.Keys - {k};
  }

  lemma EntrySet(m: Entries, k: U64, v: string)
    ensures |m[k := v]| == if k in m then |m| else |m| + 1
  {
    assert m[k := v].Keys == m.Keys + {k};
  }

  class Store {
    var entries: Entries

    constructor ()
      ensures entries == map[]
    {
      entries := map[];
    }

    method ExecuteOp(op: Op) returns (reply: Reply)
      modifies this
      ensures (entries, reply) == Execute(old(entries), op)
    {
      match op {
        case Get(k) =>
          reply := if k in entries then Value(entries[k]) else Nil;
        case Rm(k) =>
          reply := if k in entries then Done else Nil;
          entries := entries - {k};
        case Put(k, v) =>
          if k !in entries && |entries| >= MAX_KEYS {
            return Refused(FULL);
          }
          entries := entries[k := v];
          reply := Done;
      }
    }
  }

  // ----- how big a parsed write can be -----

  lemma {:induction false} LengthAtMostBytes(s: string)
    ensures |s| <= Utf8.ByteLen(s)
  {
    if s != [] {
      LengthAtMostBytes(s[1..]);
    }
  }

  lemma SuffixNoLonger(s: string, i: nat)
    requires i <= |s|
    ensures Utf8.ByteLen(s[i..]) <= Utf8.ByteLen(s)
  {
    Utf8.EncodeAppend(s[..i], s[i..]);
    assert s == s[..i] + s[i..];
  }

  lemma TrimStartNoLonger(s: string)
    ensures Utf8.ByteLen(TrimStart(s)) <= Utf8.ByteLen(s)
  {
    var i :| 0 <= i <= |s| && TrimStart(s) == s[i..];
    SuffixNoLonger(s, i);
  }

  /** A split costs the bytes of both sides and at least one for the separator. */
  lemma SplitBytes(s: string)
    requires SplitSpace(s).Some?
    ensures var (a, b) := SplitSpace(s).value; Utf8.ByteLen(s) >= Utf8.ByteLen(a) + 1 + Utf8.ByteLen(b)
  {
    var i := SpaceAt(s);
    var (a, b) := SplitSpace(s).value;
    assert s == a + ([s[i]] + b);
    Utf8.EncodeAppend(a, [s[i]] + b);
    assert ([s[i]] + b)[1..] == b;
  }

  lemma TrimNoLonger(s: string)
    ensures |Trim(s)| <= |s|
  {
    var i :| 0 <= i <= |s| && TrimStart(s) == s[i..];
  }

  /** The text after the verb holds the key, one separator and the value. */
  lemma PutParts(size: nat, rest: string)
    requires ParsePut(size, rest).Ok?
    ensures var r := ParsePut(size, rest).value;
            r.Put? && |Decimal(r.k)| >= 1 && |Decimal(r.k)| + 1 + Utf8.ByteLen(r.v) <= Utf8.ByteLen(rest)
  {
    var (key, value) := SplitSpace(rest).value;
    SplitBytes(rest);
    LengthAtMostBytes(key);
    TrimNoLonger(key);
    ParsedNoShorter(Trim(key));
  }

  lemma WordsBytes(body: string)
    ensures var (word, rest) := Words(body);
            rest != "" ==> Utf8.ByteLen(word) + 1 + Utf8.ByteLen(rest) <= Utf8.ByteLen(body)
  {
    if SplitSpace(body).Some? {
      SplitBytes(body);
      TrimStartNoLonger(SplitSpace(body).value.1);
    }
  }

  lemma PutAsFits(verb: Verb, size: nat, rest: string)
    requires ParseAs(verb, size, rest).Ok? && ParseAs(verb, size, rest).value.Put?
    ensures var op := ParseAs(verb, size, rest).value;
            && verb.PutVerb? && size <= MAX_PUT_BYTES && rest != ""
            && |Decimal(op.k)| >= 1 && |Decimal(op.k)| + 1 + Utf8.ByteLen(op.v) <= Utf8.ByteLen(rest)
  {
    PutParts(size, rest);
  }

  lemma BodyPutFits(body: string)
    requires ParseBody(body).Ok? && ParseBody(body).value.Put?
    ensures var op := ParseBody(body).value;
            |Decimal(op.k)| >= 1 && |Decimal(op.k)| + Utf8.ByteLen(op.v) <= 1019
  {
    var (word, rest) := Words(body);
    PutAsFits(VerbOf(word), Utf8.ByteLen(body), rest);
    WordsBytes(body);
    LengthAtMostBytes(word);
  }

  /** Key text and value of an accepted PUT fit the request limit, the key measured as it is re-printed. */
  lemma ParsedPutFits(text: string)
    requires ParseOp(text).Ok? && ParseOp(text).value.Put?
    ensures var op := ParseOp(text).value;
            && |Decimal(op.k)| + Utf8.ByteLen(op.v) <= 1019
            && Utf8.ByteLen(op.v) <= 1018
  {
    BodyPutFits(TrimStart(text));
  }

  lemma {:induction false} BytesAtMost(s: string)
    ensures Utf8.ByteLen(s) <= 4 * |s|
  {
    if s != [] {
      BytesAtMost(s[1..]);
    }
  }
}
