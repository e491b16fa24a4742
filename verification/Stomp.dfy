/** The client surface (src/bin/six-seven-server/stomp.rs): frames as text, and reading them back. */
module Stomp {
  import opened Bytes
  import opened Text
  import Utf8

  const MAX_FRAME_BYTES := 8192

  type Headers = seq<(string, string)>

  datatype Frame = Frame(command: string, headers: Headers, body: string)

  // ----- header escapes -----

  function EscapeChar(c: char): string {
    if c == '\\' then ['\\', '\\']
    else if c == '\r' then ['\\', 'r']
    else if c == '\n' then ['\\', 'n']
    else if c == ':' then ['\\', 'c']
    else [c]
  }

  function Escaped(s: string): string {
    if s == [] then [] else EscapeChar(s[0]) + Escaped(s[1..])
  }

  /** What a backslash and `c` stand for; an undefined pair is kept as it is. */
  function UnescapePair(c: char): string {
    if c == 'r' then ['\r']
    else if c == 'n' then ['\n']
    else if c == 'c' then [':']
    else if c == '\\' then ['\\']
    else ['\\', c]
  }

  function Unescaped(s: string): string {
    if s == [] then []
    else if s[0] != '\\' then [s[0]] + Unescaped(s[1..])
    else if |s| == 1 then ['\\']
    else UnescapePair(s[1]) + Unescaped(s[2..])
  }

  method Escape(s: string) returns (out: string)
    ensures out == Escaped(s)
  {
    out := [];
    for i := 0 to |s|
      invariant out + Escaped(s[i..]) == Escaped(s)
    {
      EscapedAt(s, i);
      var more := EscapeChar(s[i]);
      Regroup(out, more, Escaped(s[i + 1..]));
      out := out + more;
    }
  }

  lemma EscapedAt(s: string, i: nat)
    requires i < |s|
    ensures Escaped(s[i..]) == EscapeChar(s[i]) + Escaped(s[i + 1..])
  {
    assert s[i..][1..] == s[i + 1..];
  }

  method Unescape(s: string) returns (out: string)
    ensures out == Unescaped(s)
  {
    out := [];
    var i := 0;
    while i < |s|
      invariant 0 <= i <= |s|
      invariant out + Unescaped(s[i..]) == Unescaped(s)
    {
      UnescapedAt(s, i);
      var c, more := s[i], [];
      i := i + 1;
      if c != '\\' {
        more := [c];
      } else if i == |s| {
        more := ['\\'];
      } else {
        more := UnescapePair(s[i]);
        i := i + 1;
      }
      Regroup(out, more, Unescaped(s[i..]));
      out := out + more;
    }
  }

  lemma UnescapedAt(s: string, i: nat)
    requires i < |s|
    ensures Unescaped(s[i..]) ==
            if s[i] != '\\' then [s[i]] + Unescaped(s[i + 1..])
            else if i + 1 == |s| then ['\\'] + Unescaped(s[i + 1..])
            else UnescapePair(s[i + 1]) + Unescaped(s[i + 2..])
  {
    assert s[i..][1..] == s[i + 1..];
    if i + 1 < |s| {
      assert s[i..][2..] == s[i + 2..];
    }
  }

  lemma UnescapeStep(c: char, rest: string)
    ensures Unescaped(EscapeChar(c) + rest) == [c] + Unescaped(rest)
  {
    var s := EscapeChar(c) + rest;
    assert s[|EscapeChar(c)|..] == rest;
  }

  /** Unescaping undoes escaping, on every string. */
  lemma {:induction false} UnescapeEscaped(s: string)
    ensures Unescaped(Escaped(s)) == s
  {
    if s != [] {
      UnescapeStep(s[0], Escaped(s[1..]));
      UnescapeEscaped(s[1..]);
    }
  }

  /** Position `i` starts one of the four defined escapes. */
  predicate EscapeAt(s: string, i: nat) {
    i + 1 < |s| && s[i] == '\\' && (s[i + 1] == 'r' || s[i + 1] == 'n' || s[i + 1] == 'c' || s[i + 1] == '\\')
  }

  /** Undefined escapes and a dangling backslash are kept as they are. */
  lemma {:induction false} UnescapeKeepsTheRest(s: string)
    requires forall i :: 0 <= i < |s| ==> !EscapeAt(s, i)
    ensures Unescaped(s) == s
    decreases |s|
  {
    if s != [] {
      var n := if s[0] == '\\' && |s| > 1 then 2 else 1;
      forall i | 0 <= i < |s[n..]|
        ensures !EscapeAt(s[n..], i)
      {
        assert !EscapeAt(s, i + n);
      }
      UnescapeKeepsTheRest(s[n..]);
      assert !EscapeAt(s, 0);
      assert s == s[..n] + s[n..];
    }
  }

  predicate Bare(s: string) {
    '\n' !in s && '\r' !in s && ':' !in s
  }

  lemma {:induction false} EscapedIsBare(s: string)
    ensures Bare(Escaped(s))
    ensures '\0' in Escaped(s) <==> '\0' in s
  {
    if s != [] {
      EscapedIsBare(s[1..]);
      assert s == [s[0]] + s[1..];
    }
  }

  // ----- the text of a frame -----

  function HeaderLine(h: (string, string)): string {
    Escaped(h.0) + ":" + Escaped(h.1)
  }

  function HeaderLines(hs: Headers): string {
    if hs == [] then [] else HeaderLines(hs[..|hs| - 1]) + HeaderLine(hs[|hs| - 1]) + "\n"
  }

  function FrameText(f: Frame): string {
    f.command + "\n" + HeaderLines(f.headers) + "\n" + f.body
  }

  function FrameBytes(f: Frame): Bytes {
    Utf8.Encode(FrameText(f)) + [0]
  }

  lemma HeaderLinesAt(hs: Headers, i: nat)
    requires i < |hs|
    ensures HeaderLines(hs[..i + 1]) == HeaderLines(hs[..i]) + (HeaderLine(hs[i]) + "\n")
  {
    assert hs[..i + 1][..i] == hs[..i];
  }

  /** `Frame::encode`. */
  method EncodeFrame(command: string, headers: Headers, body: string) returns (bytes: Bytes)
    ensures bytes == FrameBytes(Frame(command, headers, body))
  {
    var out := command;
    out := out + "\n";
    for i := 0 to |headers|
      invariant out == command + "\n" + HeaderLines(headers[..i])
    {
      var name := Escape(headers[i].0);
      var value := Escape(headers[i].1);
      HeaderLinesAt(headers, i);
      ghost var before := out;
      out := out + name + ":" + value + "\n";
      assert out == before + (HeaderLine(headers[i]) + "\n");
      Regroup(command + "\n", HeaderLines(headers[..i]), HeaderLine(headers[i]) + "\n");
    }
    assert headers[..|headers|] == headers;
    out := out + "\n";
    out := out + body;
    bytes := Utf8.Encode(out) + [0];
  }

  // ----- reading a frame's text -----

  predicate IsFiller(c: char) {
    c == '\n' || c == '\r'
  }

  predicate AllFiller(s: string) {
    forall i :: 0 <= i < |s| ==> IsFiller(s[i])
  }

  /** `trim_start_matches(['\n', '\r'])`. */
  function SkipFiller(s: string): (r: string)
    ensures r == [] || !IsFiller(r[0])
    ensures forall c :: c in r ==> c in s
  {
    if s != [] && IsFiller(s[0]) then SkipFiller(s[1..]) else s
  }

  /** `trim_end_matches('\r')`. */
  function TrimCr(s: string): (r: string)
    ensures r <= s
    ensures r != [] ==> r[|r| - 1] != '\r'
    ensures s != [] && s[0] != '\r' ==> r != []
  {
    if s != [] && s[|s| - 1] == '\r' then TrimCr(s[..|s| - 1]) else s
  }

  /** Index of the first blank line, that is of two newlines in a row, or `|s|`. */
  function BlankAt(s: string): (i: nat)
    ensures i <= |s|
    ensures i < |s| ==> i + 2 <= |s| && s[i] == s[i + 1] == '\n'
    ensures forall j :: 0 <= j < i && j + 1 < |s| ==> !(s[j] == s[j + 1] == '\n')
  {
    if s == [] then 0
    else if |s| >= 2 && s[0] == s[1] == '\n' then 0
    else 1 + BlankAt(s[1..])
  }

  /** Head and body; without a blank line everything is head. */
  function HeadAndBody(s: string): (string, string) {
    var i := BlankAt(s);
    if i == |s| then (s, "") else (s[..i], s[i + 2..])
  }

  /** `split('\n')`. */
  function Lines(s: string): (r: seq<string>)
    ensures r != []
    decreases |s|
  {
    var i := IndexOf(s, '\n');
    if i == |s| then [s] else [s[..i]] + Lines(s[i + 1..])
  }

  /** A header line gives one header; a blank or colonless one gives none. */
  function HeaderOf(line: string): Headers {
    var l := TrimCr(line);
    if l == [] then []
    else
      match SplitOnce(l, ':')
      case None => []
      case Some((k, v)) => [(Unescaped(k), Unescaped(v))]
  }

  function Concat<T>(xs: seq<seq<T>>): seq<T> {
    if xs == [] then [] else Concat(xs[..|xs| - 1]) + xs[|xs| - 1]
  }

  function HeadersOf(lines: seq<string>): Headers {
    Concat(seq(|lines|, i requires 0 <= i < |lines| => HeaderOf(lines[i])))
  }

  lemma HeadersOfMore(lines: seq<string>, line: string)
    ensures HeadersOf(lines + [line]) == HeadersOf(lines) + HeaderOf(line)
  {
    var all := lines + [line];
    var each := seq(|all|, i requires 0 <= i < |all| => HeaderOf(all[i]));
    assert each[..|lines|] == seq(|lines|, i requires 0 <= i < |lines| => HeaderOf(lines[i]));
  }

  function Parsed(text: string): Frame {
    var (head, body) := HeadAndBody(text);
    var lines := Lines(head);
    Frame(TrimCr(lines[0]), HeadersOf(lines[1..]), body)
  }

  /** The frame in a NUL-terminated record, or nothing if it is all filler. */
  function FrameIn(record: string): Option<Frame> {
    var text := SkipFiller(record);
    if text == [] then None else Some(Parsed(text))
  }

  /** One turn of the header loop. */
  method ParseHeader(line: string) returns (more: Headers)
    ensures more == HeaderOf(line)
  {
    var l := TrimCr(line);
    if l == [] {
      return [];
    }
    var split := SplitOnce(l, ':');
    if split.None? {
      return [];
    }
    var name := Unescape(split.value.0);
    var value := Unescape(split.value.1);
    return [(name, value)];
  }

  method ParseFrame(text: string) returns (f: Frame)
    ensures f == Parsed(text)
  {
    var (head, body) := HeadAndBody(text);
    var lines := Lines(head);
    var headers := [];
    for i := 1 to |lines|
      invariant headers == HeadersOf(lines[1..i])
    {
      HeadersOfMore(lines[1..i], lines[i]);
      assert lines[1..i + 1] == lines[1..i] + [lines[i]];
      var more := ParseHeader(lines[i]);
      headers := headers + more;
    }
    assert lines[1..|lines|] == lines[1..];
    return Frame(TrimCr(lines[0]), headers, body);
  }

  // ----- which frames read back -----

  /** A command that survives: not empty, one line, no carriage return at either edge. */
  predicate GoodCommand(c: string) {
    c != [] && '\n' !in c && c[0] != '\r' && c[|c| - 1] != '\r'
  }

  predicate NulFreeHeaders(hs: Headers) {
    forall h :: h in hs ==> '\0' !in h.0 && '\0' !in h.1
  }

  predicate Good(f: Frame) {
    GoodCommand(f.command) && '\0' !in f.command && NulFreeHeaders(f.headers) && '\0' !in f.body
  }

  /** Lines with newlines between them. */
  function Join(lines: seq<string>): string
    requires lines != []
  {
    if |lines| == 1 then lines[0] else lines[0] + "\n" + Join(lines[1..])
  }

  /** Every line is non-empty and has no newline. */
  predicate Solid(lines: seq<string>) {
    forall i :: 0 <= i < |lines| ==> lines[i] != [] && '\n' !in lines[i]
  }

  lemma {:induction false} LinesOfJoin(lines: seq<string>)
    requires lines != [] && Solid(lines)
    ensures Lines(Join(lines)) == lines
  {
    var first := lines[0];
    if |lines| == 1 {
      SplitOnceNone(first, '\n');
    } else {
      var s := Join(lines);
      IndexOfFirst(first, '\n', Join(lines[1..]));
      assert s == first + ['\n'] + Join(lines[1..]);
      assert s[..|first|] == first && s[|first| + 1..] == Join(lines[1..]);
      LinesOfJoin(lines[1..]);
    }
  }

  lemma {:induction false} BlankPast(a: string, rest: string)
    requires '\n' !in a
    ensures BlankAt(a + rest) == |a| + BlankAt(rest)
  {
    if a == [] {
      assert a + rest == rest;
    } else {
      assert a[0] in a;
      assert (a + rest)[1..] == a[1..] + rest;
      BlankPast(a[1..], rest);
    }
  }

  /** The blank line after solid lines is the first. */
  lemma {:induction false} BlankAfterJoin(lines: seq<string>, body: string)
    requires lines != [] && Solid(lines)
    ensures BlankAt(Join(lines) + "\n\n" + body) == |Join(lines)|
  {
    var first := lines[0];
    if |lines| == 1 {
      BlankPast(first, "\n\n" + body);
      Regroup(first, "\n\n", body);
    } else {
      var joined := Join(lines[1..]);
      JoinStarts(lines[1..]);
      BlankAfterJoin(lines[1..], body);
      BlankPastLine(first, joined + "\n\n" + body);
      Regroup(first + "\n", joined, "\n\n");
      Regroup(first + "\n", joined + "\n\n", body);
    }
  }

  /** A line that another follows holds no blank line and does not start one. */
  lemma BlankPastLine(line: string, rest: string)
    requires '\n' !in line && rest != [] && rest[0] != '\n'
    ensures BlankAt(line + "\n" + rest) == |line| + 1 + BlankAt(rest)
  {
    var tail := "\n" + rest;
    Regroup(line, "\n", rest);
    BlankPast(line, tail);
    assert tail[1..] == rest && tail[1] != '\n';
  }

  lemma JoinStarts(lines: seq<string>)
    requires lines != [] && Solid(lines)
    ensures Join(lines) != [] && Join(lines)[0] != '\n'
  {
    assert lines[0][0] in lines[0];
  }

  function LineEach(hs: Headers): seq<string> {
    seq(|hs|, i requires 0 <= i < |hs| => HeaderLine(hs[i]))
  }

  function LinesFor(f: Frame): seq<string> {
    [f.command] + LineEach(f.headers)
  }

  lemma {:induction false} JoinSnoc(lines: seq<string>, last: string)
    requires lines != []
    ensures Join(lines + [last]) == Join(lines) + "\n" + last
  {
    if |lines| > 1 {
      assert (lines + [last])[1..] == lines[1..] + [last];
      JoinSnoc(lines[1..], last);
    }
  }

  lemma LinesForMore(command: string, hs: Headers)
    requires hs != []
    ensures LinesFor(Frame(command, hs, []))
            == LinesFor(Frame(command, hs[..|hs| - 1], [])) + [HeaderLine(hs[|hs| - 1])]
  {
  }

  lemma {:induction false} HeadIsJoined(command: string, hs: Headers)
    ensures command + "\n" + HeaderLines(hs) == Join(LinesFor(Frame(command, hs, []))) + "\n"
  {
    if hs != [] {
      var n := |hs| - 1;
      HeadIsJoined(command, hs[..n]);
      var before := LinesFor(Frame(command, hs[..n], []));
      LinesForMore(command, hs);
      JoinSnoc(before, HeaderLine(hs[n]));
      HeaderLinesAt(hs, n);
      assert hs[..n + 1] == hs;
      Regroup(command + "\n", HeaderLines(hs[..n]), HeaderLine(hs[n]) + "\n");
    }
  }

  lemma TextIsJoined(f: Frame)
    ensures FrameText(f) == Join(LinesFor(f)) + "\n\n" + f.body
  {
    HeadIsJoined(f.command, f.headers);
    assert LinesFor(f) == LinesFor(Frame(f.command, f.headers, []));
    assert FrameText(f) == (f.command + "\n" + HeaderLines(f.headers)) + "\n" + f.body;
  }

  lemma HeaderLineSolid(h: (string, string))
    ensures HeaderLine(h) != [] && '\n' !in HeaderLine(h)
  {
    EscapedIsBare(h.0);
    EscapedIsBare(h.1);
  }

  lemma HeaderLineReads(h: (string, string))
    ensures HeaderOf(HeaderLine(h)) == [h]
  {
    var l := HeaderLine(h);
    EscapedIsBare(h.0);
    EscapedIsBare(h.1);
    assert l[|l| - 1] == (if h.1 == [] then ':' else Escaped(h.1)[|Escaped(h.1)| - 1]);
    assert l[|l| - 1] != '\r';
    assert TrimCr(l) == l;
    SplitOnceAt(Escaped(h.0), ':', Escaped(h.1));
    UnescapeEscaped(h.0);
    UnescapeEscaped(h.1);
  }

  lemma {:induction false} ConcatSingles<T>(xs: seq<seq<T>>, ys: seq<T>)
    requires |xs| == |ys| && forall i :: 0 <= i < |ys| ==> xs[i] == [ys[i]]
    ensures Concat(xs) == ys
  {
    if ys != [] {
      ConcatSingles(xs[..|xs| - 1], ys[..|ys| - 1]);
      assert ys == ys[..|ys| - 1] + [ys[|ys| - 1]];
    }
  }

  lemma HeaderLinesRead(hs: Headers)
    ensures HeadersOf(LineEach(hs)) == hs
  {
    var lines := LineEach(hs);
    forall i | 0 <= i < |hs|
      ensures HeaderOf(lines[i]) == [hs[i]]
    {
      HeaderLineReads(hs[i]);
    }
    ConcatSingles(seq(|lines|, i requires 0 <= i < |lines| => HeaderOf(lines[i])), hs);
  }

  lemma LinesAreSolid(f: Frame)
    requires GoodCommand(f.command)
    ensures Solid(LinesFor(f))
  {
    forall i | 0 <= i < |LinesFor(f)|
      ensures LinesFor(f)[i] != [] && '\n' !in LinesFor(f)[i]
    {
      if i > 0 {
        HeaderLineSolid(f.headers[i - 1]);
      }
    }
  }

  lemma {:induction false} SkipFillerOnly(filler: string, s: string)
    requires AllFiller(filler) && (s == [] || !IsFiller(s[0]))
    ensures SkipFiller(filler + s) == s
  {
    if filler == [] {
      assert filler + s == s;
    } else {
      assert (filler + s)[1..] == filler[1..] + s;
      SkipFillerOnly(filler[1..], s);
    }
  }

  lemma GoodTextParses(f: Frame)
    requires GoodCommand(f.command)
    ensures Parsed(FrameText(f)) == f
  {
    var lines, text := LinesFor(f), FrameText(f);
    TextIsJoined(f);
    LinesAreSolid(f);
    BlankAfterJoin(lines, f.body);
    LinesOfJoin(lines);
    var n := |Join(lines)|;
    assert text[..n] == Join(lines) && text[n + 2..] == f.body;
    assert TrimCr(f.command) == f.command;
    assert lines[1..] == LineEach(f.headers);
    HeaderLinesRead(f.headers);
  }

  /** Reading undoes encoding, past any heart-beat filler. */
  lemma GoodFramesReadBack(filler: string, f: Frame)
    requires AllFiller(filler) && GoodCommand(f.command)
    ensures FrameIn(filler + FrameText(f)) == Some(f)
  {
    assert FrameText(f)[0] == f.command[0] && f.command[0] in f.command;
    SkipFillerOnly(filler, FrameText(f));
    GoodTextParses(f);
  }

  // ----- and no others -----

  lemma ParsedCommandIsGood(text: string)
    requires text != [] && !IsFiller(text[0])
    ensures GoodCommand(Parsed(text).command)
  {
    var (head, body) := HeadAndBody(text);
    var i := BlankAt(text);
    assert head != [] && head[0] == text[0];
    var first := Lines(head)[0];
    var k := IndexOf(head, '\n');
    assert first == head[..k];
    assert k != 0;
    assert first[0] == text[0];
    var c := TrimCr(first);
    assert c[0] == first[0];
    assert forall j :: 0 <= j < |c| ==> c[j] == first[j];
  }

  lemma {:induction false} UnescapedNulFree(s: string)
    requires '\0' !in s
    ensures '\0' !in Unescaped(s)
    decreases |s|
  {
    if s != [] {
      if s[0] != '\\' {
        UnescapedNulFree(s[1..]);
      } else if |s| > 1 {
        UnescapedNulFree(s[2..]);
      }
    }
  }

  lemma {:induction false} LinesNulFree(s: string)
    requires '\0' !in s
    ensures forall l :: l in Lines(s) ==> '\0' !in l
    decreases |s|
  {
    var i := IndexOf(s, '\n');
    if i < |s| {
      LinesNulFree(s[i + 1..]);
    }
  }

  lemma HeaderOfNulFree(line: string)
    requires '\0' !in line
    ensures NulFreeHeaders(HeaderOf(line))
  {
    var l := TrimCr(line);
    assert '\0' !in l;
    var split := SplitOnce(l, ':');
    if split.Some? {
      UnescapedNulFree(split.value.0);
      UnescapedNulFree(split.value.1);
    }
  }

  lemma {:induction false} HeadersOfNulFree(lines: seq<string>)
    requires forall l :: l in lines ==> '\0' !in l
    ensures NulFreeHeaders(HeadersOf(lines))
  {
    if lines != [] {
      var n := |lines| - 1;
      HeadersOfNulFree(lines[..n]);
      HeaderOfNulFree(lines[n]);
      HeadersOfMore(lines[..n], lines[n]);
      assert lines == lines[..n] + [lines[n]];
    }
  }

  /** Whatever record it comes from, a frame that is read is a good one. */
  lemma ReadFramesAreGood(record: string)
    requires '\0' !in record && FrameIn(record).Some?
    ensures Good(FrameIn(record).value)
  {
    var text := SkipFiller(record);
    ParsedCommandIsGood(text);
    var (head, body) := HeadAndBody(text);
    assert '\0' !in text;
    assert '\0' !in head && '\0' !in body;
    LinesNulFree(head);
    HeadersOfNulFree(Lines(head)[1..]);
  }

  predicate NulFreeHeader(h: (string, string)) {
    '\0' !in h.0 && '\0' !in h.1
  }

  lemma HeaderLineNul(h: (string, string))
    ensures '\0' !in HeaderLine(h) + "\n" <==> NulFreeHeader(h)
  {
    EscapedIsBare(h.0);
    EscapedIsBare(h.1);
  }

  lemma {:induction false} HeaderLinesNul(hs: Headers)
    ensures '\0' !in HeaderLines(hs) <==> NulFreeHeaders(hs)
  {
    if hs != [] {
      var n := |hs| - 1;
      HeaderLinesNul(hs[..n]);
      HeaderLineNul(hs[n]);
      HeaderLinesAt(hs, n);
      assert hs[..n + 1] == hs;
      LastHeaderNul(hs);
    }
  }

  lemma LastHeaderNul(hs: Headers)
    requires hs != []
    ensures NulFreeHeaders(hs) <==> NulFreeHeaders(hs[..|hs| - 1]) && NulFreeHeader(hs[|hs| - 1])
  {
    assert forall h :: h in hs <==> h in hs[..|hs| - 1] || h == hs[|hs| - 1];
  }

  lemma FrameTextNul(f: Frame)
    ensures '\0' !in FrameText(f) <==> '\0' !in f.command && NulFreeHeaders(f.headers) && '\0' !in f.body
  {
    HeaderLinesNul(f.headers);
  }

  /** A frame reads back as itself exactly when it is good. */
  lemma ReadsBackIffGood(f: Frame)
    ensures '\0' !in FrameText(f) && FrameIn(FrameText(f)) == Some(f) <==> Good(f)
  {
    FrameTextNul(f);
    if Good(f) {
      GoodFramesReadBack([], f);
      assert [] + FrameText(f) == FrameText(f);
    } else if '\0' !in FrameText(f) && FrameIn(FrameText(f)) == Some(f) {
      ReadFramesAreGood(FrameText(f));
    }
  }
}
