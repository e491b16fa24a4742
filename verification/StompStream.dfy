/**
 Reading STOMP frames off a connection (src/bin/six-seven-server/stomp.rs).  The stream arrives in
 pieces of the transport's choosing; what is read depends on the bytes alone, up to the size limit.
 */
module StompStream {
  import opened Bytes
  import opened Stomp
  import Utf8

  /** Bytes not yet read, in the pieces in which they will come; no piece is empty. */
  type Pieces = ps: seq<Bytes> | forall i :: 0 <= i < |ps| ==> ps[i] != []

  function Flat(ps: seq<Bytes>): Bytes {
    if ps == [] then [] else ps[0] + Flat(ps[1..])
  }

  /** Index of the first NUL, or `|b|`. */
  function NulAt(b: Bytes): (i: nat)
    ensures i <= |b| && 0 !in b[..i]
    ensures i < |b| ==> b[i] == 0
  {
    if b == [] then 0
    else if b[0] == 0 then 0
    else
      var i := NulAt(b[1..]);
      assert b[..i + 1] == [b[0]] + b[1..][..i];
      i + 1
  }

  /** How many bytes are still to come. */
  function Size(ps: seq<Bytes>): nat {
    if ps == [] then 0 else |ps[0]| + Size(ps[1..])
  }

  /** The pieces left once `n` bytes of the first are used. */
  function Drop(ps: Pieces, n: nat): (r: Pieces)
    requires ps != [] && n <= |ps[0]|
    ensures Size(r) == Size(ps) - n
  {
    if n == |ps[0]| then ps[1..]
    else
      var r := [ps[0][n..]] + ps[1..];
      assert r[1..] == ps[1..];
      r
  }

  lemma {:induction false} FlatDrop(ps: Pieces, n: nat)
    requires ps != [] && n <= |ps[0]|
    ensures Flat(Drop(ps, n)) == Flat(ps)[n..]
  {
    SliceFrom(ps[0], Flat(ps[1..]), n);
    if n < |ps[0]| {
      assert Drop(ps, n)[1..] == ps[1..];
    }
  }

  lemma SliceFrom(a: Bytes, b: Bytes, n: nat)
    requires n <= |a|
    ensures (a + b)[n..] == a[n..] + b
    ensures n == |a| ==> (a + b)[n..] == b
  {
  }

  /** A `BufRead`: what is buffered, and the promise of more. */
  class Reader {
    var pieces: Pieces

    constructor (pieces: Pieces)
      ensures this.pieces == pieces
    {
      this.pieces := pieces;
    }

    /** The bytes at hand; empty only at the end of the stream. */
    method FillBuf() returns (available: Bytes)
      ensures available == if pieces == [] then [] else pieces[0]
      ensures available == [] <==> pieces == []
    {
      available := if pieces == [] then [] else pieces[0];
    }

    method Consume(n: nat)
      requires pieces != [] && n <= |pieces[0]|
      modifies this
      ensures pieces == Drop(old(pieces), n)
    {
      pieces := Drop(pieces, n);
    }
  }

  // ----- one record -----

  datatype Gathered =
    | Got(raw: Bytes, rest: Pieces)
    | RanOut(raw: Bytes)
    | Overran(raw: Bytes, rest: Pieces)

  /** Bytes up to the next NUL; the limit is looked at after each piece that has no NUL. */
  function Gather(raw: Bytes, ps: Pieces): (g: Gathered)
    ensures g.Got? ==> Size(g.rest) < Size(ps)
    decreases |ps|
  {
    if ps == [] then RanOut(raw)
    else
      var at := NulAt(ps[0]);
      if at < |ps[0]| then Got(raw + ps[0][..at], Drop(ps, at + 1))
      else if |raw| + |ps[0]| > MAX_FRAME_BYTES then Overran(raw + ps[0], ps[1..])
      else Gather(raw + ps[0], ps[1..])
  }

  datatype Breakage = MidFrame | TooLong | NotText

  datatype Outcome = Read(frame: Frame) | End | Broken(why: Breakage)

  /** `read_frame` on a value: the outcome and what is left of the stream. */
  function Reading(ps: Pieces): (Outcome, Pieces)
    decreases Size(ps)
  {
    match Gather([], ps)
    case RanOut(raw) => (if raw == [] then End else Broken(MidFrame), [])
    case Overran(_, rest) => (Broken(TooLong), rest)
    case Got(raw, rest) =>
      match Utf8.Decode(raw)
      case None => (Broken(NotText), rest)
      case Some(record) =>
        match FrameIn(record)
        case None => Reading(rest)
        case Some(f) => (Read(f), rest)
  }

  /** The frames a connection yields before it ends, and how it ends. */
  function ReadingAll(ps: Pieces): (r: (seq<Frame>, Outcome))
    decreases Size(ps)
  {
    ReadingShrinks(ps);
    var (o, rest) := Reading(ps);
    if o.Read? then
      var (fs, end) := ReadingAll(rest);
      ([o.frame] + fs, end)
    else ([], o)
  }

  /** A frame uses up bytes, so reading on past filler and frames comes to an end. */
  lemma {:induction false} ReadingShrinks(ps: Pieces)
    ensures Reading(ps).0.Read? ==> Size(Reading(ps).1) < Size(ps)
    decreases Size(ps)
  {
    var g := Gather([], ps);
    if g.Got? {
      ReadingShrinks(g.rest);
    }
  }

  lemma ReadingAllStep(ps: Pieces)
    ensures var (o, rest) := Reading(ps);
            if o.Read? then ReadingAll(ps).0 == [o.frame] + ReadingAll(rest).0 && ReadingAll(ps).1 == ReadingAll(rest).1
            else ReadingAll(ps).0 == [] && ReadingAll(ps).1 == o
  {
    ReadingShrinks(ps);
  }

  // ----- the reading methods -----

  method ReadRecord(reader: Reader) returns (g: Gathered)
    modifies reader
    ensures g == Gather([], old(reader.pieces))
    ensures reader.pieces == match g case Got(_, rest) => rest case RanOut(_) => [] case Overran(_, rest) => rest
  {
    var raw: Bytes := [];
    while true
      invariant Gather(raw, reader.pieces) == Gather([], old(reader.pieces))
      decreases |reader.pieces|
    {
      var available := reader.FillBuf();
      if available == [] {
        return RanOut(raw);
      }
      var at := NulAt(available);
      if at < |available| {
        raw := raw + available[..at];
        reader.Consume(at + 1);
        return Got(raw, reader.pieces);
      }
      raw := raw + available;
      reader.Consume(|available|);
      if |raw| > MAX_FRAME_BYTES {
        return Overran(raw, reader.pieces);
      }
    }
  }

  method ReadFrame(reader: Reader) returns (o: Outcome)
    modifies reader
    ensures (o, reader.pieces) == Reading(old(reader.pieces))
    decreases Size(reader.pieces)
  {
    var g := ReadRecord(reader);
    match g {
      case RanOut(raw) =>
        return if raw == [] then End else Broken(MidFrame);
      case Overran(_, _) =>
        return Broken(TooLong);
      case Got(raw, _) =>
        var record := Utf8.Decode(raw);
        if record.None? {
          return Broken(NotText);
        }
        var text := SkipFiller(record.value);
        if text == [] {
          o := ReadFrame(reader);
          return;
        }
        var f := ParseFrame(text);
        return Read(f);
    }
  }

  /** Reading from `start` has given `frames` and left `ps`. */
  ghost predicate SoFar(start: Pieces, frames: seq<Frame>, ps: Pieces) {
    ReadingAll(start).0 == frames + ReadingAll(ps).0 && ReadingAll(start).1 == ReadingAll(ps).1
  }

  lemma OneMore(start: Pieces, frames: seq<Frame>, ps: Pieces, o: Outcome, rest: Pieces)
    requires SoFar(start, frames, ps) && (o, rest) == Reading(ps)
    ensures o.Read? ==> SoFar(start, frames + [o.frame], rest) && Size(rest) < Size(ps)
    ensures !o.Read? ==> ReadingAll(start).0 == frames && ReadingAll(start).1 == o
  {
    ReadingShrinks(ps);
    ReadingAllStep(ps);
    if o.Read? {
      Regroup(frames, [o.frame], ReadingAll(rest).0);
    }
  }

  /** The connection thread: frames in order until the stream ends or breaks. */
  method ReadConnection(reader: Reader) returns (frames: seq<Frame>, end: Outcome)
    modifies reader
    ensures frames == ReadingAll(old(reader.pieces)).0 && end == ReadingAll(old(reader.pieces)).1
  {
    frames := [];
    while true
      invariant SoFar(old(reader.pieces), frames, reader.pieces)
      decreases Size(reader.pieces)
    {
      ghost var before := reader.pieces;
      end := ReadFrame(reader);
      OneMore(old(reader.pieces), frames, before, end, reader.pieces);
      if !end.Read? {
        return;
      }
      frames := frames + [end.frame];
    }
  }

  // ----- only the bytes matter -----

  lemma {:induction false} NulAtSkips(a: Bytes, b: Bytes)
    ensures NulAt(a) < |a| ==> NulAt(a + b) == NulAt(a)
    ensures NulAt(a) == |a| ==> NulAt(a + b) == |a| + NulAt(b)
  {
    if a == [] {
      assert a + b == b;
    } else {
      assert (a + b)[1..] == a[1..] + b;
      NulAtSkips(a[1..], b);
    }
  }

  /** At some piece boundary more than the limit has been gathered and no NUL seen. */
  ghost predicate Overruns(had: nat, ps: Pieces) {
    exists k :: 0 < k <= |ps| && had + |Flat(ps[..k])| > MAX_FRAME_BYTES && 0 !in Flat(ps[..k])
  }

  lemma FlatFirst(ps: Pieces, k: nat)
    requires 0 < k <= |ps|
    ensures Flat(ps[..k]) == ps[0] + Flat(ps[1..][..k - 1])
  {
    assert ps[..k][1..] == ps[1..][..k - 1];
  }

  lemma OverrunsStep(had: nat, ps: Pieces)
    requires ps != []
    ensures Overruns(had, ps) <==>
              NulAt(ps[0]) == |ps[0]| && (had + |ps[0]| > MAX_FRAME_BYTES || Overruns(had + |ps[0]|, ps[1..]))
  {
    assert NulAt(ps[0]) == |ps[0]| <==> 0 !in ps[0] by {
      assert ps[0][..|ps[0]|] == ps[0];
    }
    FlatFirst(ps, 1);
    assert Flat(ps[1..][..0]) == [];
    if k :| 0 < k <= |ps| && had + |Flat(ps[..k])| > MAX_FRAME_BYTES && 0 !in Flat(ps[..k]) {
      FlatFirst(ps, k);
      assert k > 1 ==> 0 < k - 1 <= |ps[1..]|;
    }
    if NulAt(ps[0]) == |ps[0]| && Overruns(had + |ps[0]|, ps[1..]) {
      var k :| 0 < k <= |ps[1..]| && had + |ps[0]| + |Flat(ps[1..][..k])| > MAX_FRAME_BYTES && 0 !in Flat(ps[1..][..k]);
      FlatFirst(ps, k + 1);
    }
  }

  /** What is gathered, for every way the bytes may be cut: the record up to the next NUL, or the
      unfinished rest, unless the limit is overrun at a piece boundary. */
  lemma {:induction false} GatherMeansRecord(raw: Bytes, ps: Pieces)
    ensures var g, s := Gather(raw, ps), Flat(ps);
            && (g.Overran? <==> Overruns(|raw|, ps))
            && (g.Got? ==> NulAt(s) < |s| && g.raw == raw + s[..NulAt(s)] && Flat(g.rest) == s[NulAt(s) + 1..])
            && (g.RanOut? ==> NulAt(s) == |s| && g.raw == raw + s)
    decreases |ps|
  {
    if ps != [] {
      var p, rest := ps[0], Flat(ps[1..]);
      NulAtSkips(p, rest);
      OverrunsStep(|raw|, ps);
      if NulAt(p) < |p| {
        FlatDrop(ps, NulAt(p) + 1);
      }
      if NulAt(p) == |p| && |raw| + |p| <= MAX_FRAME_BYTES {
        GatherMeansRecord(raw + p, ps[1..]);
        CutPast(raw, p, rest, NulAt(rest));
      }
    }
  }

  lemma CutPast(raw: Bytes, p: Bytes, rest: Bytes, i: nat)
    requires i <= |rest|
    ensures raw + p + rest[..i] == raw + (p + rest)[..|p| + i]
    ensures (p + rest)[|p| + i..] == rest[i..]
    ensures i < |rest| ==> (p + rest)[|p| + i + 1..] == rest[i + 1..]
    ensures raw + p + rest == raw + (p + rest)
  {
    assert (p + rest)[..|p| + i] == p + rest[..i];
  }

  lemma {:induction false} FlatPrefix(ps: seq<Bytes>, k: nat)
    requires k <= |ps|
    ensures Flat(ps) == Flat(ps[..k]) + Flat(ps[k..])
  {
    if k > 0 {
      FlatPrefix(ps[1..], k - 1);
      assert ps[..k][1..] == ps[1..][..k - 1];
      assert ps[1..][k - 1..] == ps[k..];
    } else {
      assert ps[..0] == [] && ps[0..] == ps;
    }
  }

  /** A record within the limit is gathered however it is cut. */
  lemma ShortNeverOverruns(ps: Pieces)
    requires NulAt(Flat(ps)) <= MAX_FRAME_BYTES
    ensures !Overruns(0, ps)
  {
    if Overruns(0, ps) {
      var k :| 0 < k <= |ps| && |Flat(ps[..k])| > MAX_FRAME_BYTES && 0 !in Flat(ps[..k]);
      FlatPrefix(ps, k);
      NulAtSkips(Flat(ps[..k]), Flat(ps[k..]));
      assert false;
    }
  }

  // ----- how long a frame may be -----

  /** What `fill_buf` of the server's `BufReader` yields at most. */
  const READER_CAPACITY := 8192

  ghost predicate AtMost(ps: Pieces, cap: nat) {
    forall i :: 0 <= i < |ps| ==> |ps[i]| <= cap
  }

  /** `ps` is a way for `s` to arrive, `cap` bytes at a time at most. */
  ghost predicate Cuts(ps: Pieces, s: Bytes, cap: nat) {
    Flat(ps) == s && AtMost(ps, cap)
  }

  function Chop(s: Bytes, cap: nat): (r: Pieces)
    requires cap >= 1
    ensures Cuts(r, s, cap)
  {
    if s == [] then []
    else
      var n := Min(cap, |s|);
      var rest := Chop(s[n..], cap);
      assert ([s[..n]] + rest)[1..] == rest;
      [s[..n]] + rest
  }

  lemma {:induction false} FlatAppend(ps: seq<Bytes>, qs: seq<Bytes>)
    ensures Flat(ps + qs) == Flat(ps) + Flat(qs)
  {
    if ps == [] {
      assert ps + qs == qs;
    } else {
      assert (ps + qs)[1..] == ps[1..] + qs;
      FlatAppend(ps[1..], qs);
    }
  }

  /** A cut with a NUL in it is read unless it overruns. */
  lemma {:induction false} ReadUnlessOverrun(record: Bytes, rest: Bytes, ps: Pieces)
    requires 0 !in record && Flat(ps) == record + [0] + rest
    ensures var g := Gather([], ps); if Overruns(0, ps) then g.Overran? else g.Got? && g.raw == record && Flat(g.rest) == rest
  {
    FirstNul(record, rest);
    GatherMeansRecord([], ps);
    var s := record + [0] + rest;
    assert s[..|record|] == record && s[|record| + 1..] == rest;
  }

  lemma {:induction false} FirstNul(record: Bytes, rest: Bytes)
    requires 0 !in record
    ensures NulAt(record + [0] + rest) == |record|
  {
    Regroup(record, [0], rest);
    NulAtSkips(record, [0] + rest);
    assert record[..|record|] == record;
  }

  /** A NUL-free stretch beyond the limit before the piece with the NUL overruns. */
  lemma ApartOverruns(record: Bytes, rest: Bytes, cap: nat)
    requires 0 !in record && |record| > MAX_FRAME_BYTES && cap >= 1
    ensures var ps := Chop(record, cap) + Chop([0] + rest, cap);
            Cuts(ps, record + [0] + rest, cap) && Overruns(0, ps)
  {
    var head, tail := Chop(record, cap), Chop([0] + rest, cap);
    var ps: Pieces := head + tail;
    FlatAppend(head, tail);
    Regroup(record, [0], rest);
    assert ps[..|head|] == head;
    assert head != [];
  }

  /** However cut into pieces of at most `cap` bytes, a record is read, exactly when it is within the limit. */
  lemma ReadUnderEveryCutIff(record: Bytes, rest: Bytes, cap: nat)
    requires 0 !in record && cap >= 1
    ensures |record| <= MAX_FRAME_BYTES <==>
              forall ps: Pieces :: Cuts(ps, record + [0] + rest, cap) ==> Gather([], ps).Got?
  {
    if |record| <= MAX_FRAME_BYTES {
      forall ps: Pieces | Cuts(ps, record + [0] + rest, cap)
        ensures Gather([], ps).Got?
      {
        FirstNul(record, rest);
        ShortNeverOverruns(ps);
        ReadUnlessOverrun(record, rest, ps);
      }
    } else {
      ApartOverruns(record, rest, cap);
      ReadUnlessOverrun(record, rest, Chop(record, cap) + Chop([0] + rest, cap));
    }
  }

  /** The cut that lets the longest record through: to the limit, then the rest of it with its NUL. */
  function LateCut(record: Bytes, tail: Pieces, cap: nat): (r: Pieces)
    requires cap >= 1
  {
    var k := Min(MAX_FRAME_BYTES, |record|);
    Chop(record[..k], cap) + ([record[k..] + [0]] + tail)
  }

  lemma {:induction false} LateCutIsCut(record: Bytes, tail: Pieces, cap: nat)
    requires cap >= 1 && |record| < MAX_FRAME_BYTES + cap && AtMost(tail, cap)
    ensures Cuts(LateCut(record, tail, cap), record + [0] + Flat(tail), cap)
  {
    var k := Min(MAX_FRAME_BYTES, |record|);
    var head, last := Chop(record[..k], cap), record[k..] + [0];
    FlatAppend(head, [last] + tail);
    assert ([last] + tail)[1..] == tail;
    assert record == record[..k] + record[k..];
    Regroup(record[..k], record[k..], [0]);
    Regroup(record[..k], last, Flat(tail));
  }

  lemma {:induction false} GatherPast(raw: Bytes, ps: Pieces, qs: Pieces)
    requires 0 !in Flat(ps) && |raw| + |Flat(ps)| <= MAX_FRAME_BYTES
    ensures Gather(raw, ps + qs) == Gather(raw + Flat(ps), qs)
    decreases |ps|
  {
    if ps == [] {
      assert ps + qs == qs && raw + [] == raw;
    } else {
      assert ps[0][..|ps[0]|] == ps[0];
      assert (ps + qs)[1..] == ps[1..] + qs;
      Regroup(raw, ps[0], Flat(ps[1..]));
      GatherPast(raw + ps[0], ps[1..], qs);
    }
  }

  /** The piece with the NUL ends the record. */
  lemma {:induction false} GatherLast(raw: Bytes, more: Bytes, tail: Pieces)
    requires 0 !in more
    ensures Gather(raw, [more + [0]] + tail) == Got(raw + more, tail)
  {
    var last, ps: Pieces := more + [0], [more + [0]] + tail;
    FirstNul(more, []);
    assert more + [0] + [] == last && last[..|more|] == more;
    assert ps[1..] == tail;
  }

  lemma {:induction false} LateCutIsRead(record: Bytes, tail: Pieces, cap: nat)
    requires 0 !in record && cap >= 1
    ensures Gather([], LateCut(record, tail, cap)) == Got(record, tail)
  {
    var k := Min(MAX_FRAME_BYTES, |record|);
    GatherPast([], Chop(record[..k], cap), [record[k..] + [0]] + tail);
    GatherLast(record[..k], record[k..], tail);
    assert record[..k] + record[k..] == record;
  }

  /** Some such cut is read exactly when the record is shorter than the limit and one piece together. */
  lemma ReadUnderSomeCutIff(record: Bytes, rest: Bytes, cap: nat)
    requires 0 !in record && cap >= 1
    ensures |record| < MAX_FRAME_BYTES + cap <==>
              exists ps: Pieces :: Cuts(ps, record + [0] + rest, cap) && Gather([], ps).Got?
  {
    if |record| < MAX_FRAME_BYTES + cap {
      LateCutIsCut(record, Chop(rest, cap), cap);
      LateCutIsRead(record, Chop(rest, cap), cap);
    } else {
      forall ps: Pieces | Cuts(ps, record + [0] + rest, cap)
        ensures !Gather([], ps).Got?
      {
        ReadUnlessOverrun(record, rest, ps);
        MemoryOfOneRecord([], ps, cap);
      }
    }
  }

  /** In the server, whose reader yields at most 8192 bytes, a frame of up to 8192 bytes is always read, one
      of up to 16383 may be, and a longer one never is. */
  lemma ServerFrameLimits(record: Bytes, rest: Bytes)
    requires 0 !in record
    ensures |record| <= 8192 <==>
              forall ps: Pieces :: Cuts(ps, record + [0] + rest, READER_CAPACITY) ==> Gather([], ps).Got?
    ensures |record| <= 16383 <==>
              exists ps: Pieces :: Cuts(ps, record + [0] + rest, READER_CAPACITY) && Gather([], ps).Got?
  {
    ReadUnderEveryCutIff(record, rest, READER_CAPACITY);
    ReadUnderSomeCutIff(record, rest, READER_CAPACITY);
  }

  // ----- what a call holds -----

  /** One activation holds, at most, the limit and one piece: strictly less if the record ends, no more than
      the limit if the stream does, and the overrun is noticed within one piece. */
  lemma {:induction false} MemoryOfOneRecord(raw: Bytes, ps: Pieces, cap: nat)
    requires |raw| <= MAX_FRAME_BYTES && AtMost(ps, cap)
    ensures var g := Gather(raw, ps);
            match g
            case Got(r, _) => |r| < MAX_FRAME_BYTES + cap
            case RanOut(r) => |r| <= MAX_FRAME_BYTES
            case Overran(r, _) => MAX_FRAME_BYTES < |r| <= MAX_FRAME_BYTES + cap
    decreases |ps|
  {
    if ps != [] && NulAt(ps[0]) == |ps[0]| && |raw| + |ps[0]| <= MAX_FRAME_BYTES {
      MemoryOfOneRecord(raw + ps[0], ps[1..], cap);
    }
  }

  /** The record at the front of the stream is text with nothing but filler in it. */
  predicate FillerFirst(ps: Pieces) {
    var g := Gather([], ps);
    g.Got? && Utf8.Decode(g.raw).Some? && FrameIn(Utf8.Decode(g.raw).value).None?
  }

  /** Activations of `read_frame` alive when the call that starts at `ps` has its answer: the source calls
      itself past a record that is all filler. */
  function Depth(ps: Pieces): nat
    decreases Size(ps)
  {
    if FillerFirst(ps) then 1 + Depth(Gather([], ps).rest) else 1
  }

  /** Bytes of records alive at that moment: each activation keeps the text it found to be filler. */
  function Held(ps: Pieces): nat
    decreases Size(ps)
  {
    var g := Gather([], ps);
    if FillerFirst(ps) then |g.raw| + Held(g.rest) else |g.raw|
  }

  /** The bytes of some text that is all filler. */
  ghost predicate FillerRecord(record: Bytes) {
    exists filler :: AllFiller(filler) && record == Utf8.Encode(filler)
  }

  /** A record of filler that is read deepens the call by one and is held, however the stream is cut. */
  lemma {:induction false} FillerPilesUp(record: Bytes, ps: Pieces)
    requires FillerRecord(record) && Gather([], ps).Got? && Gather([], ps).raw == record
    ensures var next := Gather([], ps).rest; Depth(ps) == 1 + Depth(next) && Held(ps) == |record| + Held(next)
  {
    var filler :| AllFiller(filler) && record == Utf8.Encode(filler);
    Utf8.DecodeEncoded(filler);
    SkipFillerOnly(filler, []);
    assert filler + [] == filler;
  }

  lemma FillerIsNulFree(record: Bytes)
    requires FillerRecord(record)
    ensures 0 !in record
  {
    var filler :| AllFiller(filler) && record == Utf8.Encode(filler);
    Utf8.NulFree(filler);
  }

  /** A heart-beat, a piece of filler and then its NUL, before `qs`. */
  function BeatBefore(record: Bytes, qs: Pieces): Pieces
    requires record != []
  {
    [record, [0]] + qs
  }

  /** `k` of them. */
  function BeatsBefore(record: Bytes, k: nat, qs: Pieces): Pieces
    requires record != []
    decreases k
  {
    if k == 0 then qs else BeatBefore(record, BeatsBefore(record, k - 1, qs))
  }

  lemma {:induction false} OneBeat(record: Bytes, qs: Pieces)
    requires FillerRecord(record) && 0 < |record| <= MAX_FRAME_BYTES
    ensures Depth(BeatBefore(record, qs)) == 1 + Depth(qs) && Held(BeatBefore(record, qs)) == |record| + Held(qs)
  {
    var ps := BeatBefore(record, qs);
    FillerIsNulFree(record);
    GatherPast([], [record], [[0]] + qs);
    assert Flat([record]) == record + Flat([]);
    assert ps == [record] + ([[0]] + qs);
    GatherLast(record, [], qs);
    assert [] + [0] == [0];
    FillerPilesUp(record, ps);
  }

  lemma {:induction false} NextBeat(record: Bytes, k: nat, qs: Pieces)
    requires FillerRecord(record) && 0 < |record| <= MAX_FRAME_BYTES
    ensures Depth(BeatsBefore(record, k + 1, qs)) == 1 + Depth(BeatsBefore(record, k, qs))
    ensures Held(BeatsBefore(record, k + 1, qs)) == |record| + Held(BeatsBefore(record, k, qs))
  {
    OneBeat(record, BeatsBefore(record, k, qs));
  }

  /** What grows by `n` at each step has grown by `k * n` after `k`. */
  lemma {:induction false} Climbs(f: nat -> nat, n: nat, k: nat)
    requires forall i: nat :: f(i + 1) == n + f(i)
    ensures f(k) == k * n + f(0)
    decreases k
  {
    if k > 0 {
      Climbs(f, n, k - 1);
      assert f(k - 1 + 1) == n + f(k - 1);
    }
  }

  /** The call's depth grows by one with every heart-beat it reads past, and it holds them all: no number
      bounds either. */
  lemma {:induction false} BeatsPileUp(record: Bytes, k: nat, qs: Pieces)
    requires FillerRecord(record) && 0 < |record| <= MAX_FRAME_BYTES
    ensures Depth(BeatsBefore(record, k, qs)) == k + Depth(qs)
    ensures Held(BeatsBefore(record, k, qs)) == k * |record| + Held(qs)
  {
    var depth: nat -> nat, held: nat -> nat := i => Depth(BeatsBefore(record, i, qs)), i => Held(BeatsBefore(record, i, qs));
    forall i: nat
      ensures depth(i + 1) == 1 + depth(i) && held(i + 1) == |record| + held(i)
    {
      NextBeat(record, i, qs);
    }
    Climbs(depth, 1, k);
    Climbs(held, |record|, k);
  }

  /** Filler comes in every length. */
  lemma {:induction false} FillerOfLength(n: nat) returns (record: Bytes)
    ensures FillerRecord(record) && |record| == n
  {
    var filler := seq(n, _ => '\n');
    Utf8.AsciiLength(filler);
    assert AllFiller(filler);
    record := Utf8.Encode(filler);
  }

  /** A call that reads past `k` records of filler, the first as long as can be read, and holds too much. */
  lemma {:induction false} TooMuchHeld(k: nat, cap: nat, end: Pieces) returns (ps: Pieces)
    requires k >= 1 && cap >= 1 && AtMost(end, cap) && Depth(end) == 1 && Held(end) == 2
    ensures AtMost(ps, cap) && Depth(ps) == k + 1 && Held(ps) > MAX_FRAME_BYTES + cap
  {
    var long := FillerOfLength(MAX_FRAME_BYTES + cap - 1);
    var tail := ShortBeats(k - 1, cap, end);
    ps := LongFiller(long, tail, cap);
  }

  lemma {:induction false} ShortBeats(k: nat, cap: nat, end: Pieces) returns (ps: Pieces)
    requires cap >= 1 && AtMost(end, cap)
    ensures AtMost(ps, cap) && Depth(ps) == k + Depth(end) && Held(ps) == k + Held(end)
  {
    var short := FillerOfLength(1);
    ps := BeatsBefore(short, k, end);
    BeatsPileUp(short, k, end);
    BeatsAtMost(short, k, end, cap);
  }

  /** The longest filler that can be read, before `tail`. */
  lemma {:induction false} LongFiller(record: Bytes, tail: Pieces, cap: nat) returns (ps: Pieces)
    requires FillerRecord(record) && cap >= 1 && |record| < MAX_FRAME_BYTES + cap && AtMost(tail, cap)
    ensures AtMost(ps, cap) && Depth(ps) == 1 + Depth(tail) && Held(ps) == |record| + Held(tail)
  {
    ps := LateCut(record, tail, cap);
    FillerIsNulFree(record);
    LateCutIsCut(record, tail, cap);
    LateCutIsRead(record, tail, cap);
    FillerPilesUp(record, ps);
  }

  lemma {:induction false} UnfinishedTail()
    ensures Depth([[120], [120]]) == 1 && Held([[120], [120]]) == 2
  {
    var end: Pieces := [[120], [120]];
    assert end[1..] == [[120]] && end[1..][1..] == [];
    assert NulAt([120]) == 1;
    assert Gather([], end) == Gather([120], [[120]]) == RanOut([120, 120]);
  }

  lemma {:induction false} BeatsAtMost(record: Bytes, k: nat, qs: Pieces, cap: nat)
    requires 0 < |record| <= cap && AtMost(qs, cap)
    ensures AtMost(BeatsBefore(record, k, qs), cap)
    decreases k
  {
    if k > 0 {
      BeatsAtMost(record, k - 1, qs, cap);
    }
  }

  /** What a call of depth `k + 1` holds is within the limit and one piece exactly when `k` is zero, that is
      when no record of filler comes before the frame. */
  lemma {:induction false} HeldIsBoundedIffNoFiller(k: nat, cap: nat)
    requires cap >= 1
    ensures k == 0 <==> forall ps: Pieces :: AtMost(ps, cap) && Depth(ps) == k + 1 ==> Held(ps) <= MAX_FRAME_BYTES + cap
  {
    if k == 0 {
      forall ps: Pieces | AtMost(ps, cap) && Depth(ps) == 1
        ensures Held(ps) <= MAX_FRAME_BYTES + cap
      {
        DepthOne(ps);
        MemoryOfOneRecord([], ps, cap);
      }
    } else {
      UnfinishedTail();
      var ps := TooMuchHeld(k, cap, [[120], [120]]);
    }
  }

  lemma {:induction false} DepthOne(ps: Pieces)
    ensures Depth(ps) == 1 <==> !FillerFirst(ps)
  {
    if FillerFirst(ps) {
      assert Depth(Gather([], ps).rest) >= 1;
    }
  }

  // ----- encodings read back -----

  /** What a well-behaved client puts on the stream: heart-beats, and frames after filler. */
  datatype Item = Beat(filler: string) | Said(filler: string, frame: Frame)

  function RecordOf(i: Item): string {
    match i
    case Beat(filler) => filler
    case Said(filler, f) => filler + FrameText(f)
  }

  function ItemBytes(i: Item): Bytes {
    match i
    case Beat(filler) => Utf8.Encode(filler) + [0]
    case Said(filler, f) => Utf8.Encode(filler) + FrameBytes(f)
  }

  function StreamOf(items: seq<Item>): Bytes {
    if items == [] then [] else ItemBytes(items[0]) + StreamOf(items[1..])
  }

  function FramesOf(items: seq<Item>): seq<Frame> {
    if items == [] then []
    else (if items[0].Said? then [items[0].frame] else []) + FramesOf(items[1..])
  }

  ghost predicate GoodItem(i: Item) {
    && AllFiller(i.filler) && (i.Said? ==> Good(i.frame))
    && |ItemBytes(i)| <= MAX_FRAME_BYTES + 1
  }

  /** An item is its record and a NUL, and its record says what the item says. */
  lemma ItemIsRecord(i: Item)
    requires GoodItem(i)
    ensures ItemBytes(i) == Utf8.Encode(RecordOf(i)) + [0] && 0 !in Utf8.Encode(RecordOf(i))
    ensures FrameIn(RecordOf(i)) == if i.Said? then Some(i.frame) else None
  {
    Utf8.NulFree(RecordOf(i));
    match i {
      case Beat(filler) =>
        SkipFillerOnly(filler, []);
        assert filler + [] == filler;
      case Said(filler, f) =>
        SaidBytes(filler, f);
        GoodFramesReadBack(filler, f);
    }
  }

  lemma SaidBytes(filler: string, f: Frame)
    requires AllFiller(filler) && Good(f)
    ensures Utf8.Encode(filler) + FrameBytes(f) == Utf8.Encode(filler + FrameText(f)) + [0]
    ensures '\0' !in filler + FrameText(f)
  {
    var text := FrameText(f);
    Utf8.EncodeAppend(filler, text);
    Regroup(Utf8.Encode(filler), Utf8.Encode(text), [0]);
    FrameTextNul(f);
  }

  /** Gathering from a stream that starts with a short record gives that record, however cut. */
  lemma RecordGathered(record: Bytes, rest: Bytes, ps: Pieces)
    requires 0 !in record && |record| <= MAX_FRAME_BYTES && Flat(ps) == record + [0] + rest
    ensures var g := Gather([], ps); g.Got? && g.raw == record && Flat(g.rest) == rest
  {
    FirstNul(record, rest);
    ShortNeverOverruns(ps);
    ReadUnlessOverrun(record, rest, ps);
  }

  /** Past a heart-beat the stream reads as if it were not there; a frame is read as sent. */
  lemma ItemReads(i: Item, rest: Bytes, ps: Pieces) returns (left: Pieces)
    requires GoodItem(i) && Flat(ps) == ItemBytes(i) + rest
    ensures Flat(left) == rest
    ensures Reading(ps) == if i.Said? then (Read(i.frame), left) else Reading(left)
  {
    ItemIsRecord(i);
    var record := Utf8.Encode(RecordOf(i));
    RecordGathered(record, rest, ps);
    Utf8.DecodeEncoded(RecordOf(i));
    left := Gather([], ps).rest;
  }

  lemma ReadingAllSkips(ps: Pieces, left: Pieces)
    requires Reading(ps) == Reading(left)
    ensures ReadingAll(ps) == ReadingAll(left)
  {
  }

  /** Reading undoes encoding for every list of frames, with heart-beats anywhere between them, under
      every way of cutting the stream into pieces. */
  lemma {:induction false} EncodedFramesReadBack(items: seq<Item>, ps: Pieces)
    requires forall i :: 0 <= i < |items| ==> GoodItem(items[i])
    requires Flat(ps) == StreamOf(items)
    ensures ReadingAll(ps) == (FramesOf(items), End)
    decreases |items|
  {
    if items == [] {
      assert ps == [];
    } else {
      var left := ItemReads(items[0], StreamOf(items[1..]), ps);
      EncodedFramesReadBack(items[1..], left);
      if items[0].Beat? {
        ReadingAllSkips(ps, left);
        assert FramesOf(items) == FramesOf(items[1..]);
      } else {
        ReadingAllStep(ps);
      }
    }
  }
}
