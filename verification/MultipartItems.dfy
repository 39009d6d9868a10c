/** Serialised multipart items, and what the incremental parser makes of them. */
module MultipartItems {
  import opened Search
  import opened Http
  import opened Multipart
  import opened MultipartProofs

  // ---------- The serialiser ----------

  datatype Item = Item(name: string, filename: string, contentType: string, content: string)

  function Disposition(item: Item): string
  {
    "Content-Disposition: form-data; name=\"" + item.name + "\""
    + if item.filename == [] then [] else "; filename=\"" + item.filename + "\""
  }

  function HeaderLines(item: Item): (r: seq<string>)
    ensures r != []
  {
    [Disposition(item)] + if item.contentType == [] then [] else ["Content-Type: " + item.contentType]
  }

  function Lines(headers: seq<string>): string
  {
    if headers == [] then [] else headers[0] + CRLF + Lines(headers[1..])
  }

  function ItemBegin(item: Item, boundary: string): string
  {
    DASH + boundary + CRLF + Lines(HeaderLines(item)) + CRLF
  }

  function Serialized(items: seq<Item>, boundary: string, finish: bool): string
  {
    if items == [] then (if finish then DASH + boundary + DASH + CRLF else [])
    else ItemBegin(items[0], boundary) + items[0].content + CRLF + Serialized(items[1..], boundary, finish)
  }

  method SerializeItemBegin(item: Item, boundary: string) returns (body: string)
    ensures body == ItemBegin(item, boundary)
  {
    body := "--" + boundary + "\r\n";
    body := body + ("Content-Disposition: form-data; name=\"" + item.name + "\"");
    if item.filename != [] {
      body := body + ("; filename=\"" + item.filename + "\"");
    }
    assert body == DASH + boundary + CRLF + Disposition(item);
    body := body + "\r\n";
    if item.contentType != [] {
      body := body + ("Content-Type: " + item.contentType + "\r\n");
    }
    LinesOf(item);
    assert body == DASH + boundary + CRLF + Lines(HeaderLines(item));
    body := body + "\r\n";
  }

  lemma LinesOf(item: Item)
    ensures Lines(HeaderLines(item))
         == Disposition(item) + CRLF + if item.contentType == [] then [] else "Content-Type: " + item.contentType + CRLF
  {
    hide Disposition;
    var h := HeaderLines(item);
    if |h| == 2 {
      assert h[1..] == [h[1]] && h[1..][1..] == [];
      assert Lines(h[1..]) == h[1] + CRLF + Lines([]);
    }
  }

  method SerializeMultipartFormdata(items: seq<Item>, boundary: string, finish: bool) returns (body: string)
    ensures body == Serialized(items, boundary, finish)
  {
    body := [];
    var i := 0;
    while i < |items|
      invariant i <= |items| && Serialized(items, boundary, finish) == body + Serialized(items[i..], boundary, finish)
    {
      hide ItemBegin;
      hide Serialized;
      SerializedNext(items, i, boundary, finish);
      var begin := SerializeItemBegin(items[i], boundary);
      Regroup(body, begin, items[i].content, CRLF, Serialized(items[i + 1..], boundary, finish));
      body := body + begin;
      body := body + (items[i].content + "\r\n");
      i := i + 1;
    }
    if finish {
      body := body + ("--" + boundary + "--\r\n");
    }
  }

  lemma SerializedNext(items: seq<Item>, i: nat, boundary: string, finish: bool)
    requires i < |items|
    ensures Serialized(items[i..], boundary, finish)
         == ItemBegin(items[i], boundary) + items[i].content + CRLF + Serialized(items[i + 1..], boundary, finish)
  {
    hide ItemBegin;
    assert items[i..][1..] == items[i + 1..];
  }

  lemma Regroup(a: string, b: string, c: string, d: string, e: string)
    ensures a + b + (c + d) + e == a + (b + c + d + e)
  {
  }

  // ---------- Searching serialised items ----------

  function PartsOf(items: seq<Item>): (parts: seq<Part>)
    ensures |parts| == |items|
  {
    if items == [] then [] else [Part(HeaderLines(items[0]), items[0].content)] + PartsOf(items[1..])
  }

  /** A header line that the parser accepts, whatever its length. */
  predicate AcceptedLine(s: Setup, line: string)
  {
    line != [] && Avoids(line, CRLF) && s.accepts(line)
  }

  predicate GoodLine(s: Setup, line: string)
  {
    AcceptedLine(s, line) && |line| < HEADER_MAX_LENGTH
  }

  predicate GoodLines(s: Setup, headers: seq<string>)
  {
    forall i | 0 <= i < |headers| :: GoodLine(s, headers[i])
  }

  /** The header lines are lines the parser accepts, and the content does not contain the delimiter. */
  predicate GoodPart(s: Setup, part: Part)
  {
    GoodLines(s, part.headers) && Avoids(part.content, s.Delimiter())
  }

  predicate GoodBoundary(s: Setup)
  {
    forall i | 0 <= i < |s.boundary| :: s.boundary[i] != '\r'
  }

  predicate Good(s: Setup, parts: seq<Part>)
  {
    GoodBoundary(s) && forall i | 0 <= i < |parts| :: GoodPart(s, parts[i])
  }

  /** Everything after the first boundary line; `end` follows the last delimiter. */
  function Tail(s: Setup, parts: seq<Part>, end: string): string
    requires parts != []
  {
    Lines(parts[0].headers) + CRLF + parts[0].content + s.Delimiter()
    + if |parts| == 1 then end else CRLF + Tail(s, parts[1..], end)
  }

  lemma {:induction false} SerializedIsTail(s: Setup, items: seq<Item>)
    requires items != []
    ensures Serialized(items, s.boundary, true) == s.Opening() + Tail(s, PartsOf(items), DASH + CRLF)
  {
    hide Lines;
    hide HeaderLines;
    var mark, lines, content := DASH + s.boundary, Lines(HeaderLines(items[0])), items[0].content;
    var rest := if |items| == 1 then DASH + CRLF else CRLF + Tail(s, PartsOf(items[1..]), DASH + CRLF);
    assert Serialized(items[1..], s.boundary, true) == mark + rest by {
      if |items| == 1 {
        assert mark + DASH + CRLF == mark + (DASH + CRLF);
      } else {
        SerializedIsTail(s, items[1..]);
        assert mark + CRLF + Tail(s, PartsOf(items[1..]), DASH + CRLF) == mark + rest;
      }
    }
    assert s.Delimiter() == CRLF + mark;
    assert PartsOf(items)[1..] == PartsOf(items[1..]);
    Interleave(mark + CRLF, lines, CRLF, content, mark, rest);
  }

  lemma Interleave(open: string, lines: string, nl: string, content: string, mark: string, rest: string)
    ensures open + lines + nl + content + nl + (mark + rest) == open + (lines + nl + content + (nl + mark) + rest)
  {
    assert content + nl + (mark + rest) == content + (nl + mark) + rest;
    assert lines + nl + (content + (nl + mark) + rest) == lines + nl + content + (nl + mark) + rest;
    assert open + lines + nl + content + nl + (mark + rest) == open + (lines + nl + (content + nl + (mark + rest)));
  }

  lemma HeaderLineFound(s: Setup, c: Config, line: string, more: string)
    requires c.buf == line + CRLF + more && AcceptedLine(s, line)
    ensures Find(c.buf, CRLF, 0) == |line| < |c.buf|
    ensures var next := c.(file := c.file + [line], buf := more);
      HeaderTurn(s, c) == HeaderTurn(s, next) && (GoodLine(s, line) && ShortLines(s, next) ==> ShortLines(s, c))
  {
    hide Find;
    hide Avoids;
    FindAfter(line, CRLF, more);
    assert c.buf[..|line|] == line && c.buf[|line| + 2..] == more;
  }

  lemma EmptyLineFound(s: Setup, c: Config, rest: string)
    requires c.buf == CRLF + rest
    ensures HeaderTurn(s, c) == (c.(state := 3, sent := [], buf := rest), false) && ShortLines(s, c)
    ensures Find(c.buf, CRLF, 0) == 0
  {
    hide Find;
    AvoidsEmpty(CRLF);
    FindAfter([], CRLF, rest);
    assert c.buf == [] + CRLF + rest && c.buf[2..] == rest;
  }

  lemma {:induction false} HeadersFound(s: Setup, c: Config, headers: seq<string>, rest: string)
    requires c.buf == Lines(headers) + CRLF + rest && GoodLines(s, headers)
    ensures HeaderTurn(s, c) == (c.(state := 3, file := c.file + headers, sent := [], buf := rest), false)
    ensures ShortLines(s, c)
    decreases |headers|
  {
    hide HeaderTurn;
    hide ShortLines;
    hide AcceptedLine;
    if headers == [] {
      assert c.buf == CRLF + rest && c.file + headers == c.file;
      EmptyLineFound(s, c, rest);
    } else {
      var h, more := headers[0], Lines(headers[1..]) + CRLF + rest;
      assert c.buf == h + CRLF + more;
      HeaderLineFound(s, c, h, more);
      var next := c.(file := c.file + [h], buf := more);
      HeadersFound(s, next, headers[1..], rest);
      assert next.file + headers[1..] == c.file + headers;
    }
  }

  lemma AvoidsEmpty(pat: string)
    requires pat != []
    ensures Avoids([], pat)
  {
  }

  lemma DelimiterUnbordered(s: Setup)
    requires GoodBoundary(s)
    ensures Unbordered(s.Delimiter())
  {
    var d := s.Delimiter();
    forall k | 0 < k < |d| ensures d[k] != d[0] {
      if k >= 4 { assert d[k] == s.boundary[k - 4]; }
    }
  }

  lemma BodyFound(s: Setup, c: Config, content: string, rest: string)
    requires c.state == 3 && c.sent == [] && c.buf == content + s.Delimiter() + rest
    requires Unbordered(s.Delimiter()) && Avoids(content, s.Delimiter())
    ensures BatchTurn(s, c) == (c.(state := 4, parts := c.parts + [Part(c.file, content)], buf := rest), false)
  {
    hide Find;
    FindAfter(content, s.Delimiter(), rest);
    assert c.buf[..|content|] == content && [] + content == content;
    assert c.buf[|content| + |s.Delimiter()|..] == rest;
  }

  lemma OneTurn(s: Setup, c: Config)
    requires c.buf != [] && !BatchTurn(s, c).1
    ensures var c' := BatchTurn(s, c).0;
      Batch(s, c) == Batch(s, c') && (Short(s, c') && (c.state == 2 ==> ShortLines(s, c)) ==> Short(s, c))
  {
  }

  /** One part, from the line after a boundary to the end of the next delimiter. */
  lemma PartFound(s: Setup, c: Config, part: Part, rest: string)
    requires c.state == 1 && !c.failed && GoodBoundary(s) && GoodPart(s, part)
    requires c.buf == Lines(part.headers) + CRLF + part.content + s.Delimiter() + rest
    ensures var c' := c.(state := 4, file := part.headers, sent := [], parts := c.parts + [part], buf := rest);
      Batch(s, c) == Batch(s, c') && (Short(s, c') ==> Short(s, c))
  {
    hide HeaderTurn;
    hide ShortLines;
    hide BatchBodyTurn;
    hide Batch;
    hide Short;
    hide Lines;
    hide GoodLines;
    hide Avoids;
    var h, body := part.headers, part.content + s.Delimiter() + rest;
    Regroup([], Lines(h) + CRLF, part.content, s.Delimiter(), rest);
    assert c.buf == Lines(h) + CRLF + body;
    var c2 := c.(state := 2, file := []);
    OneTurn(s, c);
    HeadersFound(s, c2, h, body);
    assert [] + h == h;
    OneTurn(s, c2);
    var c3 := c2.(state := 3, file := h, sent := [], buf := body);
    DelimiterUnbordered(s);
    BodyFound(s, c3, part.content, rest);
    OneTurn(s, c3);
  }

  lemma {:induction false} PartsFound(s: Setup, c: Config, parts: seq<Part>, end: string)
    requires parts != [] && c.state == 1 && !c.failed && Good(s, parts) && c.buf == Tail(s, parts, end)
    ensures var c' := c.(state := 4, file := parts[|parts| - 1].headers, sent := [], parts := c.parts + parts, buf := end);
      Batch(s, c) == Batch(s, c') && (Short(s, c') ==> Short(s, c))
    decreases |parts|
  {
    hide Batch;
    hide Short;
    hide Lines;
    hide GoodPart;
    hide GoodBoundary;
    hide Tail;
    var rest := if |parts| == 1 then end else CRLF + Tail(s, parts[1..], end);
    TailFirst(s, parts, end);
    PartFound(s, c, parts[0], rest);
    if |parts| > 1 {
      var c4 := c.(state := 4, file := parts[0].headers, sent := [], parts := c.parts + [parts[0]], buf := rest);
      var c5 := c4.(state := 1, buf := Tail(s, parts[1..], end));
      LineAfterDelimiter(s, c4, c5.buf);
      PartsFound(s, c5, parts[1..], end);
      assert c.parts + [parts[0]] + parts[1..] == c.parts + parts;
    } else {
      assert parts == [parts[0]];
    }
  }

  lemma TailFirst(s: Setup, parts: seq<Part>, end: string)
    requires parts != []
    ensures Tail(s, parts, end) ==
      Lines(parts[0].headers) + CRLF + parts[0].content + s.Delimiter()
      + if |parts| == 1 then end else CRLF + Tail(s, parts[1..], end)
  {
  }

  lemma LineAfterDelimiter(s: Setup, c: Config, rest: string)
    requires c.state == 4 && c.buf == CRLF + rest
    ensures var c' := c.(state := 1, buf := rest);
      Batch(s, c) == Batch(s, c') && (Short(s, c') ==> Short(s, c))
  {
    assert c.buf[..2] == CRLF && c.buf[2..] == rest;
    OneTurn(s, c);
  }

  // ---------- The round trip ----------

  /** A search that has met the closing delimiter. */
  predicate Closed(c: Config)
  {
    c.state == 4 && c.buf == [] && c.valid && !c.failed
  }

  predicate IsSuffix(x: string, of: string)
  {
    |x| <= |of| && x == of[|of| - |x|..]
  }

  /** The line end after the closing delimiter, in whatever pieces it comes, changes no part. */
  lemma {:induction false} Epilogue(s: Setup, c: Config, chunks: seq<string>)
    requires c.valid && !c.failed && IsSuffix(c.buf + Concat(chunks), CRLF)
    requires c.state == 4 || (c.state == 1 && c.buf + Concat(chunks) == [])
    ensures var r := Feed(s, c, chunks); r.valid && !r.failed && r.parts == c.parts
    decreases |chunks|
  {
    hide Parsed;
    hide IsSuffix;
    if chunks != [] {
      var rest := Concat(chunks[1..]);
      assert c.buf + chunks[0] + rest == c.buf + Concat(chunks);
      EpilogueCall(s, Plus(c, chunks[0]), rest);
      Epilogue(s, Parsed(s, Plus(c, chunks[0])), chunks[1..]);
    }
  }

  lemma EpilogueCall(s: Setup, c: Config, rest: string)
    requires IsSuffix(c.buf + rest, CRLF)
    requires c.state == 4 || (c.state == 1 && c.buf + rest == [])
    ensures var r := Parsed(s, c);
      && r in {c, c.(state := 1, buf := [])} && IsSuffix(r.buf + rest, CRLF)
      && (r.state == 4 || (r.state == 1 && r.buf + rest == []))
  {
    hide OpeningTurn;
    hide HeaderTurn;
    hide BodyTurn;
    assert |c.buf + rest| <= 2;
    if |c.buf| == 2 {
      assert rest == [] && c.buf + rest == c.buf == CRLF && c.buf[..2] == CRLF && c.buf[2..] == [];
      assert Turn(s, c) == (c.(state := 1, buf := []), false);
      assert [] + rest == [];
    } else {
      assert Parsed(s, c) == c;
    }
  }

  lemma SplitAt(first: string, rest: string, body: string, end: string)
    requires first + rest == body + end
    ensures |first| >= |body| ==> first == body + first[|body|..] && first[|body|..] + rest == end
    ensures |first| < |body| ==> first == body[..|first|] && rest == body[|first|..] + end && body == first + body[|first|..]
  {
    assert first == (first + rest)[..|first|] && rest == (first + rest)[|first|..];
    assert body == (body + end)[..|body|] && end == (body + end)[|body|..];
    if |first| >= |body| {
      assert first[|body|..] + rest == (first + rest)[|body|..];
    } else {
      assert body[|first|..] + end == (body + end)[|first|..];
    }
  }

  /** Calls that bring a closing delimiter, and a line end or nothing behind it, leave the parts that searching finds. */
  lemma {:induction false} FeedToClose(s: Setup, c: Config, chunks: seq<string>, body: string,
                                       end: string)
    requires end in {[], CRLF} && c.state >= 1 && !c.failed && !c.valid && Ready(s, c) && body != []
    requires Concat(chunks) == body + end && Short(s, Plus(Merged(c), body + end))
    requires Closed(Batch(s, Plus(Merged(c), body)))
    requires !Batch(s, Plus(Merged(c), body[..|body| - 1])).valid
    ensures var r := Feed(s, c, chunks);
      r.valid && !r.failed && r.parts == Batch(s, Plus(Merged(c), body)).parts
    decreases |chunks|
  {
    hide Batch;
    hide Short;
    hide Parsed;
    hide Ready;
    var m, first, rest, n := Merged(c), chunks[0], Concat(chunks[1..]), |chunks[0]|;
    var c1 := Parsed(s, Plus(c, first));
    assert Feed(s, c, chunks) == Feed(s, c1, chunks[1..]);
    assert first + rest == body + end;
    FeedStep(s, c, first, rest);
    assert m.buf + (body + end) == m.buf + body + end;
    BatchPlus(s, Plus(m, body), end);
    SplitAt(first, rest, body, end);
    if n >= |body| {
      var over := first[|body|..];
      assert m.buf + body + over == m.buf + first;
      BatchPlus(s, Plus(m, body), over);
      assert IsSuffix(rest, CRLF) by { assert rest == (over + rest)[|over|..]; assert end == over + rest; }
      assert [] + rest == rest;
      assert c1 == Merged(c1) && c1.buf + Concat(chunks[1..]) == rest;
      Epilogue(s, c1, chunks[1..]);
    } else {
      var left := body[n..];
      assert body[..|body| - 1] == first + left[..|left| - 1];
      assert m.buf + (first + left) + end == m.buf + (body + end);
      ShortPlus(s, Plus(m, body), end);
      FeedStep(s, c, first, left);
      assert m.buf + body[..|body| - 1] + [body[|body| - 1]] == m.buf + body;
      ShortPlus(s, Plus(m, body[..|body| - 1]), [body[|body| - 1]]);
      FeedStep(s, c, first, left[..|left| - 1]);
      FeedToClose(s, c1, chunks[1..], left, end);
    }
  }

  /** The first call, when it brings the whole opening boundary. */
  lemma OpeningFound(s: Setup, more: string)
    ensures Parsed(s, Plus(START, s.Opening() + more)) == Parsed(s, Plus(START.(state := 1), more))
  {
    var c := Plus(START, s.Opening() + more);
    assert c.buf == s.Opening() + more && c.buf[|s.Opening()|..] == more && [] + more == more;
    assert Occurs(c.buf, s.Opening(), 0);
    FindIs(c.buf, s.Opening(), 0, 0);
  }

  lemma ClosingFound(s: Setup, c: Config)
    requires c.state == 4 && c.buf == DASH
    ensures Batch(s, c) == c.(valid := true, buf := []) && Short(s, c)
  {
    assert c.buf[..2] == DASH;
    OneTurn(s, c);
  }

  lemma ClosingAwaited(s: Setup, c: Config)
    requires c.state == 4 && c.buf == "-"
    ensures Batch(s, c) == c
  {
  }

  lemma PartsClosed(s: Setup, parts: seq<Part>, end: string)
    requires parts != [] && Good(s, parts) && end in {[], CRLF}
    ensures var r := Batch(s, Plus(START.(state := 1), Tail(s, parts, DASH)));
      Closed(r) && r.parts == parts
    ensures !Batch(s, Plus(START.(state := 1), Tail(s, parts, "-"))).valid
    ensures Short(s, Plus(START.(state := 1), Tail(s, parts, DASH + end)))
  {
    hide Batch;
    hide Short;
    hide Tail;
    var c := START.(state := 1);
    var done := Config(4, parts[|parts| - 1].headers, [], parts, DASH, false, false);
    assert forall text: string :: [] + text == text;
    assert [] + parts == parts;
    PartsFound(s, Plus(c, Tail(s, parts, DASH)), parts, DASH);
    ClosingFound(s, done);
    PartsFound(s, Plus(c, Tail(s, parts, "-")), parts, "-");
    ClosingAwaited(s, done.(buf := "-"));
    PartsFound(s, Plus(c, Tail(s, parts, DASH + end)), parts, DASH + end);
    ClosingShort(s, done.(buf := DASH + end));
  }

  lemma ClosingShort(s: Setup, c: Config)
    requires c.state == 4 && exists end :: c.buf == DASH + end
    ensures Short(s, c)
  {
    assert c.buf[..2] == DASH;
  }

  lemma {:induction false} TailEnd(s: Setup, parts: seq<Part>, end: string, more: string)
    requires parts != []
    ensures Tail(s, parts, end + more) == Tail(s, parts, end) + more
    decreases |parts|
  {
    hide Lines;
    if |parts| > 1 {
      TailEnd(s, parts[1..], end, more);
    }
  }

  /**
   A message of several parts comes back with the same header lines and contents, in order, from any
   split into calls whose first one brings the whole opening boundary.
   */
  lemma MessageFed(s: Setup, parts: seq<Part>, chunks: seq<string>, end: string)
    requires parts != [] && Good(s, parts) && end in {[], CRLF}
    requires Concat(chunks) == s.Opening() + Tail(s, parts, DASH + end)
    requires chunks != [] && |chunks[0]| >= |s.Opening()|
    ensures var r := Feed(s, START, chunks);
      r.valid && !r.failed && r.parts == parts
  {
    hide Batch;
    hide Short;
    hide Parsed;
    hide Tail;
    hide Good;
    var c, body := START.(state := 1), Tail(s, parts, DASH);
    var n := |s.Opening()|;
    TailEnd(s, parts, DASH, end);
    var first := chunks[0][n..];
    var rest := [first] + chunks[1..];
    SplitAt(chunks[0], Concat(chunks[1..]), s.Opening(), body + end);
    assert rest[1..] == chunks[1..];
    OpeningFound(s, first);
    PartsClosed(s, parts, end);
    TailEnd(s, parts, "-", "-");
    assert "-" + "-" == DASH;
    assert body == Tail(s, parts, "-") + "-";
    assert body[..|body| - 1] == Tail(s, parts, "-");
    FeedToClose(s, c, rest, body, end);
  }

  /** So do serialised items. */
  lemma RoundTrip(s: Setup, items: seq<Item>, chunks: seq<string>)
    requires items != [] && Good(s, PartsOf(items))
    requires Concat(chunks) == Serialized(items, s.boundary, true)
    requires chunks != [] && |chunks[0]| >= |s.Opening()|
    ensures var r := Feed(s, START, chunks);
      r.valid && !r.failed && r.parts == PartsOf(items)
  {
    hide Tail;
    hide Good;
    hide Feed;
    hide Serialized;
    SerializedIsTail(s, items);
    MessageFed(s, PartsOf(items), chunks, CRLF);
  }

  // ---------- Contents with a delimiter in them ----------

  predicate GoodHeaders(s: Setup, parts: seq<Part>)
  {
    GoodBoundary(s) && forall i | 0 <= i < |parts| :: GoodLines(s, parts[i].headers)
  }

  predicate AllAvoid(s: Setup, parts: seq<Part>)
  {
    forall i | 0 <= i < |parts| :: Avoids(parts[i].content, s.Delimiter())
  }

  /** A content that contains the delimiter, cut before the first one. */
  lemma CutContent(content: string, d: string)
    requires d != [] && !Avoids(content, d)
    ensures var k := Find(content, d, 0);
      && k + |d| <= |content| && Avoids(content[..k], d) && content == content[..k] + d + content[k + |d|..]
  {
    hide Occurs;
    var k := Find(content, d, 0);
    var i :| 0 <= i <= |content| && Occurs(content, d, i);
    OccursInside(content, d, i);
    assert k <= i < |content|;
    OccursInside(content, d, k);
    AvoidsToFirst(content, d);
  }

  lemma OccursInside(s: string, pat: string, i: nat)
    requires pat != [] && Occurs(s, pat, i)
    ensures i < |s| && i + |pat| <= |s| && s == s[..i] + pat + s[i + |pat|..]
  {
    assert s[i..i + |pat|] == pat;
  }

  /** Up to the first delimiter inside a content, the message reads like one with other parts. */
  lemma {:induction false} FalseParts(s: Setup, parts: seq<Part>, end: string) returns (cut: seq<Part>, rest: string)
    requires GoodHeaders(s, parts) && !AllAvoid(s, parts)
    ensures parts != [] && cut != [] && Good(s, cut) && Tail(s, parts, end) == Tail(s, cut, []) + rest
    ensures |cut| <= |parts| && cut[|cut| - 1] != parts[|cut| - 1]
    decreases |parts|
  {
    hide Lines;
    hide GoodLines;
    hide Avoids;
    hide Find;
    var d := s.Delimiter();
    var behind := if |parts| == 1 then end else CRLF + Tail(s, parts[1..], end);
    if !Avoids(parts[0].content, d) {
      var content := parts[0].content;
      CutContent(content, d);
      var k := Find(content, d, 0);
      var less := parts[0].(content := content[..k]);
      cut, rest := [less], content[k + |d|..] + d + behind;
      FalseTail(Lines(less.headers) + CRLF, content[..k], d, content[k + |d|..], behind);
    } else {
      var more;
      more, rest := FalseParts(s, parts[1..], end);
      cut := [parts[0]] + more;
      assert cut[1..] == more;
      Prepended(Lines(parts[0].headers) + CRLF + parts[0].content + d, Tail(s, more, []), rest);
    }
  }

  lemma FalseTail(head: string, a: string, d: string, b: string, behind: string)
    ensures head + (a + d + b) + d + behind == (head + a + d + []) + (b + d + behind)
  {
  }

  lemma Prepended(head: string, a: string, b: string)
    ensures head + (CRLF + (a + b)) == (head + (CRLF + a)) + b
  {
  }

  predicate ComesBack(s: Setup, items: seq<Item>, chunks: seq<string>)
  {
    var r := Feed(s, START, chunks); r.valid && !r.failed && r.parts == PartsOf(items)
  }

  /** The message in whatever calls, the first of which brings the whole opening boundary. */
  predicate IsSplit(s: Setup, items: seq<Item>, chunks: seq<string>)
  {
    && Concat(chunks) == Serialized(items, s.boundary, true)
    && chunks != [] && |chunks[0]| >= |s.Opening()|
  }

  lemma {:induction false} FeedPartsGrow(s: Setup, c: Config, chunks: seq<string>)
    requires c.state >= 1
    ensures c.parts <= Feed(s, c, chunks).parts
    decreases |chunks|
  {
    hide Parsed;
    if chunks != [] && !c.failed {
      PartsGrow(s, Plus(c, chunks[0]));
      StateStaysPositive(s, Plus(c, chunks[0]));
      FeedPartsGrow(s, Parsed(s, Plus(c, chunks[0])), chunks[1..]);
    }
  }

  /** A call that ends behind the delimiter inside a content has made a part of what is in front of it. */
  lemma FalseDelimiter(s: Setup, items: seq<Item>) returns (chunks: seq<string>)
    requires items != [] && GoodHeaders(s, PartsOf(items)) && !AllAvoid(s, PartsOf(items))
    ensures IsSplit(s, items, chunks) && !ComesBack(s, items, chunks)
  {
    hide Serialized;
    hide Batch;
    hide Short;
    hide Parsed;
    hide Tail;
    hide Good;
    hide GoodHeaders;
    hide AllAvoid;
    hide PartsOf;
    SerializedIsTail(s, items);
    var cut, rest := FalseParts(s, PartsOf(items), DASH + CRLF);
    var body := Tail(s, cut, []);
    chunks := [s.Opening() + body, rest];
    assert Concat(chunks) == s.Opening() + (body + rest) by {
      assert chunks[1..] == [rest] && [rest][1..] == [];
      assert Concat([rest]) == rest + [] == rest;
    }
    OpeningFound(s, body);
    var c := START.(state := 1);
    var d := Plus(c, body);
    assert d.buf == body && [] + cut == cut;
    PartsFound(s, d, cut, []);
    NothingLeft(s, d.(state := 4, file := cut[|cut| - 1].headers, sent := [], parts := cut, buf := []));
    ParsedIsBatch(s, d);
    var c1 := Parsed(s, d);
    assert c1.parts == cut;
    assert chunks[1..] == [rest];
    assert Feed(s, START, chunks) == Feed(s, c1, [rest]);
    FeedPartsGrow(s, c1, [rest]);
    assert Feed(s, c1, [rest]).parts[|cut| - 1] == cut[|cut| - 1];
  }

  lemma NothingLeft(s: Setup, c: Config)
    requires c.buf == []
    ensures Batch(s, c) == c && Short(s, c)
  {
  }

  /** Serialised items come back from every split exactly if no content contains the delimiter. */
  lemma RoundTripExactlyIf(s: Setup, items: seq<Item>)
    requires items != [] && GoodHeaders(s, PartsOf(items))
    ensures (forall chunks | IsSplit(s, items, chunks) :: ComesBack(s, items, chunks)) <==> AllAvoid(s, PartsOf(items))
  {
    hide IsSplit;
    hide ComesBack;
    if AllAvoid(s, PartsOf(items)) {
      forall chunks | IsSplit(s, items, chunks) ensures ComesBack(s, items, chunks) {
        SplitComesBack(s, items, chunks);
      }
    } else {
      var chunks := FalseDelimiter(s, items);
    }
  }

  lemma SplitComesBack(s: Setup, items: seq<Item>, chunks: seq<string>)
    requires items != [] && GoodHeaders(s, PartsOf(items)) && AllAvoid(s, PartsOf(items)) && IsSplit(s, items, chunks)
    ensures ComesBack(s, items, chunks)
  {
    hide Serialized;
    hide GoodLines;
    hide Avoids;
    hide Feed;
    RoundTrip(s, items, chunks);
  }

  // ---------- What calls do not preserve ----------

  /**
   The opening boundary is only found whole: a first call without it keeps nothing at all, and
   only such a call leaves the parser looking for it.
   */
  lemma OpeningNotKept(s: Setup, a: string)
    ensures Find(a, s.Opening(), 0) == |a| <==> Parsed(s, Plus(START, a)) == START
  {
    var c := Plus(START, a);
    assert c.buf == a;
    if a != [] && Find(a, s.Opening(), 0) < |a| {
      var c1 := Turn(s, c).0;
      StateStaysPositive(s, c1);
    }
  }

  lemma {:induction false} StateStaysPositive(s: Setup, c: Config)
    requires c.state >= 1
    ensures Parsed(s, c).state >= 1
    decreases |c.buf|, if c.state == 1 then 1 else 0
  {
    hide OpeningTurn;
    hide HeaderTurn;
    hide BodyTurn;
    hide BoundaryTurn;
    if c.buf != [] && !Turn(s, c).1 {
      StateStaysPositive(s, Turn(s, c).0);
    }
  }

  /** So a boundary split over two calls is lost, wherever it is split. */
  lemma SplitOpeningLost(s: Setup, k: nat)
    requires 0 < k < |s.Opening()|
    ensures Feed(s, START, [s.Opening()[..k], s.Opening()[k..]]) == START
    ensures Feed(s, START, [s.Opening()]).state == 1
  {
    var a, b := s.Opening()[..k], s.Opening()[k..];
    OpeningNotKept(s, a);
    OpeningNotKept(s, b);
    assert [a, b][1..] == [b] && [b][1..] == [];
    assert Feed(s, START, [a, b]) == Feed(s, START, [b]);
    assert Feed(s, START, [b]) == Feed(s, START, []);
    OpeningFound(s, []);
    assert s.Opening() + [] == s.Opening();
    assert [s.Opening()][1..] == [];
    assert Feed(s, START, [s.Opening()]) == Feed(s, Parsed(s, Plus(START, s.Opening())), []);
  }

  /**
   After the closing delimiter one search ignores whatever follows, and so does the rest of the
   same call; a later call is ignored exactly when it brings nothing or two dashes first.
   */
  lemma EpilogueIgnored(s: Setup, c: Config, more: string)
    requires Closed(c)
    ensures Parsed(s, Plus(c, more)) == c <==> more == [] || (|more| >= 2 && more[..2] == DASH)
  {
    var d := Plus(c, more);
    assert d.buf == more;
    if |more| >= 2 && more[..2] == CRLF {
      StateStaysPositive(s, d);
      NotFour(s, Turn(s, d).0);
    }
  }

  /** A parser that has left state 4 after closing does not come back to where it was. */
  lemma {:induction false} NotFour(s: Setup, c: Config)
    requires c.state in {1, 2, 3}
    ensures var r := Parsed(s, c); r.state == 4 ==> |r.parts| > |c.parts|
    decreases |c.buf|, if c.state == 1 then 1 else 0
  {
    if c.buf != [] {
      var (c', done) := Turn(s, c);
      if c.state == 3 && !done {
        PartsGrow(s, c');
      } else if !done {
        if c.state == 2 { HeaderParts(s, c); }
        NotFour(s, c');
      }
    }
  }

  lemma {:induction false} PartsGrow(s: Setup, c: Config)
    requires c.state >= 1
    ensures c.parts <= Parsed(s, c).parts
    decreases |c.buf|, if c.state == 1 then 1 else 0
  {
    if c.buf != [] {
      var (c', done) := Turn(s, c);
      if c.state == 2 { HeaderParts(s, c); }
      if !done {
        PartsGrow(s, c');
      }
    }
  }

  /** A later call that begins like another part is taken for one, though the message has ended. */
  lemma PhantomPart(s: Setup, c: Config, part: Part)
    requires Closed(c) && Good(s, [part])
    ensures Parsed(s, Plus(c, CRLF + Tail(s, [part], DASH))).parts == c.parts + [part]
  {
    hide Batch;
    hide Short;
    hide Parsed;
    hide Tail;
    var tail := Tail(s, [part], DASH);
    var d := Plus(c, CRLF + tail);
    assert d.buf == CRLF + tail;
    LineAfterDelimiter(s, d, tail);
    var d1 := d.(state := 1, buf := tail);
    PartsFound(s, d1, [part], DASH);
    var d4 := d1.(state := 4, file := part.headers, sent := [], parts := c.parts + [part], buf := DASH);
    ClosingFound(s, d4);
    ParsedIsBatch(s, d);
  }
}
