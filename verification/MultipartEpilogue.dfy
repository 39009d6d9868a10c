/**
 What may follow the closing delimiter of a message. One search ignores all of it, as section 5.1.1 of
 RFC 2046 asks. The parser looks at it again in every call, so it depends on the epilogue whether there
 are calls in which it is taken for another part.
 */
module MultipartEpilogue {
  import opened Search
  import opened Http
  import opened Multipart
  import opened MultipartProofs
  import opened MultipartItems

  // ---------- Text read as a header ----------

  /** How reading header lines ends: inside a line, at one that is refused, or behind the empty one. */
  datatype HeaderEnd = Open | Refused | Body(rest: string)

  function HeaderText(s: Setup, x: string): HeaderEnd
    decreases |x|
  {
    var i := Find(x, CRLF, 0);
    if i == |x| then Open
    else if i == 0 then Body(x[2..])
    else if !s.accepts(x[..i]) then Refused
    else HeaderText(s, x[i + 2..])
  }

  /** No line that is read reaches the length limit. */
  predicate ShortText(s: Setup, x: string)
    decreases |x|
  {
    var i := Find(x, CRLF, 0);
    if i == |x| then i <= HEADER_MAX_LENGTH
    else i < HEADER_MAX_LENGTH && (i == 0 || !s.accepts(x[..i]) || ShortText(s, x[i + 2..]))
  }

  /** Behind a line end, this is read without being refused and without completing a part. */
  predicate Silent(s: Setup, x: string)
  {
    x == []
    || (ShortText(s, x) &&
        match HeaderText(s, x)
        case Open => true
        case Refused => false
        case Body(rest) => Find(rest, s.Delimiter(), 0) == |rest|)
  }

  lemma {:induction false} HeaderTextIs(s: Setup, c: Config)
    requires !c.failed
    ensures ShortLines(s, c) == ShortText(s, c.buf)
    ensures var (r, done) := HeaderTurn(s, c);
      && r.parts == c.parts
      && match HeaderText(s, c.buf)
         case Open => done && !r.failed && r.valid == c.valid && r.state == c.state
         case Refused => done && r.failed
         case Body(rest) => !done && r == c.(state := 3, file := r.file, sent := [], buf := rest)
    decreases |c.buf|
  {
    hide Find;
    hide HeaderTurn;
    HeaderCases(s, c);
    var i := Find(c.buf, CRLF, 0);
    if 0 < i < |c.buf| && s.accepts(c.buf[..i]) {
      HeaderTextIs(s, c.(file := c.file + [c.buf[..i]], buf := c.buf[i + 2..]));
    }
  }

  // ---------- The flag of the message ----------

  lemma {:induction false} HeaderFlag(s: Setup, c: Config)
    requires !c.failed && !HeaderTurn(s, c.(valid := false)).0.failed
    ensures var (r, done) := HeaderTurn(s, c.(valid := false));
      HeaderTurn(s, c.(valid := true)) == (r.(valid := true), done) && !r.valid
    decreases |c.buf|
  {
    hide Find;
    hide HeaderTurn;
    HeaderCases(s, c.(valid := false));
    HeaderCases(s, c.(valid := true));
    var i := Find(c.buf, CRLF, 0);
    if 0 < i < |c.buf| && s.accepts(c.buf[..i]) {
      HeaderFlag(s, c.(file := c.file + [c.buf[..i]], buf := c.buf[i + 2..]));
    }
  }

  /** A call that is not refused and completes no part does not care for the flag, and leaves it. */
  lemma {:induction false} CallFlag(s: Setup, c: Config)
    requires c.state in {1, 2, 3} && !c.failed
    requires var r := Parsed(s, c.(valid := false)); !r.failed && r.parts == c.parts
    ensures var r := Parsed(s, c.(valid := false));
      Parsed(s, c.(valid := true)) == r.(valid := true) && !r.valid && r.state in {1, 2, 3}
    decreases |c.buf|, if c.state == 1 then 1 else 0
  {
    hide HeaderTurn;
    hide Find;
    if c.buf != [] {
      var c0 := c.(valid := false);
      var (d, done) := Turn(s, c0);
      if c.state == 2 {
        HeaderFlag(s, c);
        HeaderParts(s, c0);
      }
      if !done {
        PartsGrow(s, d);
        CallFlag(s, d);
      }
    }
  }

  lemma {:induction false} FeedFlag(s: Setup, c: Config, chunks: seq<string>)
    requires c.state in {1, 2, 3} && !c.failed
    requires var r := Feed(s, c.(valid := false), chunks); !r.failed && r.parts == c.parts
    ensures var r := Feed(s, c.(valid := false), chunks); Feed(s, c.(valid := true), chunks) == r.(valid := true)
    decreases |chunks|
  {
    hide Parsed;
    if chunks != [] {
      var c0 := c.(valid := false);
      var d := Parsed(s, Plus(c0, chunks[0]));
      PartsGrow(s, Plus(c0, chunks[0]));
      StateStaysPositive(s, Plus(c0, chunks[0]));
      assert Feed(s, c0, chunks) == Feed(s, d, chunks[1..]);
      FeedPartsGrow(s, d, chunks[1..]);
      assert d.parts == c.parts && !d.failed;
      CallFlag(s, Plus(c, chunks[0]));
      FeedFlag(s, d, chunks[1..]);
    }
  }

  // ---------- Silent text ----------

  /** Reader's view of the message: valid, not refused, with the same parts. */
  predicate Ignored(c: Config, r: Config)
  {
    r.valid && !r.failed && r.parts == c.parts
  }

  lemma SilentSearch(s: Setup, c: Config)
    requires c.state == 1 && !c.failed && !c.valid && Silent(s, c.buf)
    ensures var r := Batch(s, c); !r.failed && !r.valid && r.parts == c.parts
    ensures Short(s, c)
  {
    hide HeaderTurn;
    hide ShortLines;
    hide Find;
    if c.buf != [] {
      var c2 := c.(state := 2, file := []);
      OneTurn(s, c);
      HeaderTextIs(s, c2);
      var (r, done) := HeaderTurn(s, c2);
      HeaderValid(s, c2);
      if !done {
        OneTurn(s, c2);
      }
    }
  }

  lemma SilentCalls(s: Setup, c: Config, chunks: seq<string>)
    requires c.state == 1 && c.buf == [] && c.valid && !c.failed && Silent(s, Concat(chunks))
    ensures Ignored(c, Feed(s, c, chunks))
  {
    hide Silent;
    hide Batch;
    hide Short;
    hide Parsed;
    if chunks != [] {
      var c0, x := c.(valid := false), Concat(chunks);
      var upto := Concat(chunks[..|chunks| - 1]);
      assert Merged(c0) == c0 && Plus(c0, x).buf == x;
      SilentSearch(s, Plus(c0, x));
      ConcatLast(chunks);
      assert Plus(Plus(c0, upto), chunks[|chunks| - 1]) == Plus(c0, x);
      BatchPlus(s, Plus(c0, upto), chunks[|chunks| - 1]);
      FeedIsBatch(s, c0, chunks);
      FeedFlag(s, c, chunks);
      assert c.(valid := true) == c;
    }
  }

  // ---------- Every split of an epilogue ----------

  /** Where a call may begin to look at the epilogue: at its beginning, or anywhere behind two dashes. */
  predicate Reached(e: string, p: nat)
  {
    p == 0 || (Occurs(e, DASH, 0) && 2 <= p <= |e|)
  }

  predicate Harmless(s: Setup, e: string)
  {
    forall p: nat | p + 2 <= |e| && Reached(e, p) && Occurs(e, CRLF, p) :: Silent(s, e[p + 2..])
  }

  lemma HarmlessBehindDashes(s: Setup, e: string, q: nat)
    requires Harmless(s, e) && Occurs(e, DASH, 0) && 2 <= q <= |e|
    ensures Harmless(s, e[q..])
  {
    hide Silent;
    forall p: nat | p + 2 <= |e[q..]| && Reached(e[q..], p) && Occurs(e[q..], CRLF, p)
      ensures Silent(s, e[q..][p + 2..])
    {
      OccursDrop(e, CRLF, q, p);
      assert e[q..][p + 2..] == e[q + p + 2..];
      assert Reached(e, q + p);
    }
  }

  /** Anything but a line end or two dashes is waited on for ever. */
  lemma {:induction false} Stuck(s: Setup, c: Config, chunks: seq<string>)
    requires c.state == 4 && c.valid && !c.failed && |c.buf| >= 2 && c.buf[..2] != CRLF && c.buf[..2] != DASH
    ensures Ignored(c, Feed(s, c, chunks))
    decreases |chunks|
  {
    if chunks != [] {
      var d := Plus(c, chunks[0]);
      assert d.buf[..2] == c.buf[..2];
      assert Parsed(s, d) == d;
      Stuck(s, d, chunks[1..]);
    }
  }

  lemma DashesParsed(s: Setup, c: Config)
    requires c.state == 4 && |c.buf| >= 2 && c.buf[..2] == DASH
    ensures Parsed(s, c) == c.(valid := true, buf := [])
  {
  }

  lemma LineEndParsed(s: Setup, c: Config)
    requires c.state == 4 && |c.buf| >= 2 && c.buf[..2] == CRLF
    ensures Parsed(s, c) == Parsed(s, c.(state := 1, buf := c.buf[2..]))
  {
  }

  /** A call that brings the line end, and what it brings besides, as calls from the beginning of a part. */
  lemma LineEndFed(s: Setup, c: Config, chunks: seq<string>)
    requires c.state == 4 && !c.failed && chunks != []
    requires var u := c.buf + chunks[0]; |u| >= 2 && u[..2] == CRLF
    ensures var u := c.buf + chunks[0];
      Feed(s, c, chunks) == Feed(s, c.(state := 1, buf := []), [u[2..]] + chunks[1..])
  {
    hide Parsed;
    var u := c.buf + chunks[0];
    var rest := [u[2..]] + chunks[1..];
    LineEndParsed(s, Plus(c, chunks[0]));
    assert rest[1..] == chunks[1..];
    assert Plus(c.(state := 1, buf := []), rest[0]).buf == u[2..];
  }

  lemma {:induction false} HarmlessIgnored(s: Setup, c: Config, chunks: seq<string>)
    requires c.state == 4 && c.valid && !c.failed && |c.buf| < 2 && Harmless(s, c.buf + Concat(chunks))
    ensures Ignored(c, Feed(s, c, chunks))
    decreases |chunks|
  {
    hide Silent;
    hide Harmless;
    hide Parsed;
    hide Occurs;
    if chunks != [] {
      var e, u, more := c.buf + Concat(chunks), c.buf + chunks[0], Concat(chunks[1..]);
      var d := Plus(c, chunks[0]);
      assert e == u + more;
      assert Feed(s, c, chunks) == Feed(s, Parsed(s, d), chunks[1..]);
      if |u| < 2 {
        assert Parsed(s, d) == d by { ShortWaits(s, d); }
        HarmlessIgnored(s, d, chunks[1..]);
      } else {
        FirstTwo(u, more);
        if u[..2] == DASH {
          DashesParsed(s, d);
          HarmlessBehindDashes(s, e, |u|);
          assert [] + more == more;
          HarmlessIgnored(s, d.(valid := true, buf := []), chunks[1..]);
        } else if u[..2] == CRLF {
          LineEndFed(s, c, chunks);
          ConcatCons(u[2..], chunks[1..]);
          HarmlessAtOnce(s, e);
          SilentCalls(s, c.(state := 1, buf := []), [u[2..]] + chunks[1..]);
        } else {
          StuckCall(s, d);
          Stuck(s, d, chunks[1..]);
        }
      }
    }
  }

  lemma FirstTwo(u: string, more: string)
    requires |u| >= 2
    ensures (u + more)[|u|..] == more && (u + more)[2..] == u[2..] + more
    ensures Occurs(u + more, DASH, 0) <==> u[..2] == DASH
    ensures Occurs(u + more, CRLF, 0) <==> u[..2] == CRLF
  {
    OccursFirst(u + more, DASH);
    OccursFirst(u + more, CRLF);
    assert (u + more)[..2] == u[..2];
  }

  lemma ConcatCons(first: string, chunks: seq<string>)
    ensures Concat([first] + chunks) == first + Concat(chunks)
  {
    assert ([first] + chunks)[1..] == chunks;
  }

  lemma ShortWaits(s: Setup, c: Config)
    requires c.state == 4 && |c.buf| < 2
    ensures Parsed(s, c) == c
  {
  }

  lemma StuckCall(s: Setup, c: Config)
    requires c.state == 4 && |c.buf| >= 2 && c.buf[..2] != CRLF && c.buf[..2] != DASH
    ensures Parsed(s, c) == c
  {
  }

  lemma HarmlessAtOnce(s: Setup, e: string)
    requires Harmless(s, e) && Occurs(e, CRLF, 0)
    ensures Silent(s, e[2..])
  {
    assert Reached(e, 0);
  }

  // ---------- Calls in which an epilogue is noticed ----------

  /** The lines in front of a line that reaches the limit; more than the limit of it comes in one call. */
  lemma {:induction false} LongLine(s: Setup, c: Config, x: string) returns (m: nat)
    requires !ShortText(s, x) && !c.failed
    ensures m + HEADER_MAX_LENGTH + 1 <= |x|
    ensures Find(x[m..m + HEADER_MAX_LENGTH + 1], CRLF, 0) == HEADER_MAX_LENGTH + 1
    ensures var (r, done) := HeaderTurn(s, c.(buf := x[..m])); done && !r.failed && r.buf == []
    ensures m > 0 ==> Find(x[..m], CRLF, 0) < HEADER_MAX_LENGTH
    decreases |x|
  {
    hide Find;
    hide HeaderTurn;
    var i := Find(x, CRLF, 0);
    if i >= HEADER_MAX_LENGTH {
      m := 0;
      LineEndBehind(x, HEADER_MAX_LENGTH + 1);
      assert x[0..HEADER_MAX_LENGTH + 1] == x[..HEADER_MAX_LENGTH + 1];
      HeaderCases(s, c.(buf := []));
      NoText();
    } else {
      var next := c.(file := c.file + [x[..i]]);
      var k := LongLine(s, next, x[i + 2..]);
      m := i + 2 + k;
      SubSlices(x, i, k, HEADER_MAX_LENGTH + 1);
      LineEndInside(x, m);
      HeaderCases(s, c.(buf := x[..m]));
    }
  }

  lemma SubSlices(x: string, i: nat, k: nat, n: nat)
    requires i + 2 + k + n <= |x|
    ensures x[i + 2 + k..i + 2 + k + n] == x[i + 2..][k..k + n]
    ensures x[..i + 2 + k][..i] == x[..i] && x[..i + 2 + k][i + 2..] == x[i + 2..][..k]
  {
  }

  lemma NoText()
    ensures Find([], CRLF, 0) == 0
  {
  }

  /** A line end that is not complete before n is not there. */
  lemma LineEndBehind(x: string, n: nat)
    requires n <= |x| && n <= Find(x, CRLF, 0) + 1
    ensures Find(x[..n], CRLF, 0) == n
  {
    hide Occurs;
    var f := Find(x[..n], CRLF, 0);
    FindRoom(x[..n], CRLF, 0);
    if f < n {
      assert x == x[..n] + x[n..];
      OccursAppend(x[..n], x[n..], CRLF, f);
      assert false;
    }
  }

  lemma LineEndInside(x: string, n: nat)
    requires Find(x, CRLF, 0) + 2 <= n <= |x|
    ensures Find(x[..n], CRLF, 0) == Find(x, CRLF, 0)
  {
    var i := Find(x, CRLF, 0);
    assert x == x[..n] + x[n..];
    forall k | 0 <= k <= i ensures Occurs(x[..n], CRLF, k) <==> Occurs(x, CRLF, k) {
      OccursAppend(x[..n], x[n..], CRLF, k);
    }
    FindIs(x[..n], CRLF, 0, i);
  }

  /** Too much of a line at once is refused on entry. */
  lemma TooLong(s: Setup, c: Config, line: string)
    requires c.state in {1, 2} && c.buf == [] && line != [] && Find(line, CRLF, 0) > HEADER_MAX_LENGTH
    ensures Parsed(s, Plus(c, line)).failed
  {
    hide Find;
    var d := Plus(c, line);
    assert d.buf == line;
    EnterHeaders(s, d.(state := 2, file := if c.state == 1 then [] else c.file));
  }

  /** A call with complete lines only, the first of them not too long. */
  lemma LinesOnly(s: Setup, c: Config, lines: string)
    requires c.state == 1 && c.buf == [] && !c.failed
    requires lines != [] ==> Find(lines, CRLF, 0) < HEADER_MAX_LENGTH
    requires forall file ::
      var (r, done) := HeaderTurn(s, c.(state := 2, file := file, buf := lines)); done && !r.failed && r.buf == []
    ensures var r := Parsed(s, Plus(c, lines)); r.state in {1, 2} && !r.failed && r.buf == []
  {
    hide Find;
    hide HeaderTurn;
    var d := Plus(c, lines);
    assert d.buf == lines;
    if lines != [] {
      EnterHeaders(s, d.(state := 2, file := []));
      assert d.(state := 2, file := []) == c.(state := 2, file := [], buf := lines);
    }
  }

  /** One call with a header that is refused, or with a whole part. */
  lemma NoticedAtOnce(s: Setup, c: Config, x: string)
    requires c.state == 1 && c.buf == x != [] && !c.failed
    requires match HeaderText(s, x)
             case Open => false
             case Refused => true
             case Body(rest) => Find(rest, s.Delimiter(), 0) < |rest|
    ensures !Ignored(c, Parsed(s, c))
  {
    hide Find;
    hide HeaderTurn;
    hide HeaderText;
    var c2 := c.(state := 2, file := []);
    EnterHeaders(s, c2);
    HeaderTextIs(s, c2);
    assert Parsed(s, c) == Parsed(s, c2);
    if Find(x, CRLF, 0) > HEADER_MAX_LENGTH {
      assert Turn(s, c2) == (c2.(failed := true), true);
    } else {
      var (r, done) := HeaderTurn(s, c2);
      assert Turn(s, c2) == (r, done);
      if done {
        assert r.failed && Parsed(s, c2) == r;
      } else {
        BodyCases(s, r);
        assert Parsed(s, c2) == Parsed(s, r) == Parsed(s, BodyTurn(s, r).0);
        PartsGrow(s, BodyTurn(s, r).0);
      }
    }
  }

  /** From the beginning of a part, text that is not silent is noticed in some calls. */
  lemma Noticed(s: Setup, c: Config, x: string) returns (chunks: seq<string>)
    requires c.state == 1 && c.buf == [] && !c.failed && !Silent(s, x)
    ensures chunks != [] && Concat(chunks) == x && !Ignored(c, Feed(s, c, chunks))
  {
    hide Parsed;
    hide Find;
    if ShortText(s, x) {
      chunks := [x];
      assert chunks[1..] == [] && x + [] == x;
      assert Plus(c, x).buf == x;
      NoticedAtOnce(s, Plus(c, x), x);
    } else {
      var m := LongLine(s, c.(state := 2, file := []), x);
      var n := m + HEADER_MAX_LENGTH + 1;
      chunks := [x[..m], x[m..n], x[n..]];
      ThreeChunks(x[..m], x[m..n], x[n..]);
      assert x == x[..m] + (x[m..n] + x[n..]);
      FileIrrelevant(s, c.(state := 2, buf := x[..m]), []);
      LinesOnly(s, c, x[..m]);
      var d := Parsed(s, Plus(c, x[..m]));
      TooLong(s, d, x[m..n]);
      assert Feed(s, c, chunks) == Feed(s, d, chunks[1..]) == Parsed(s, Plus(d, x[m..n]));
    }
  }

  lemma ThreeChunks(a: string, b: string, d: string)
    ensures Concat([a, b, d]) == a + (b + d)
    ensures [a, b, d][1..] == [b, d]
  {
    assert [a, b, d][1..] == [b, d] && [b, d][1..] == [d] && [d][1..] == [];
    assert Concat([d]) == d + [] == d;
    assert Concat([b, d]) == b + d;
  }

  lemma {:induction false} FileIs(s: Setup, c: Config, file: seq<string>)
    requires !c.failed
    ensures var (r, done), (q, ended) := HeaderTurn(s, c), HeaderTurn(s, c.(file := file));
      done == ended && r.failed == q.failed && r.buf == q.buf
    decreases |c.buf|
  {
    hide Find;
    hide HeaderTurn;
    HeaderCases(s, c);
    HeaderCases(s, c.(file := file));
    var i := Find(c.buf, CRLF, 0);
    if 0 < i < |c.buf| && s.accepts(c.buf[..i]) {
      FileIs(s, c.(file := c.file + [c.buf[..i]], buf := c.buf[i + 2..]), file + [c.buf[..i]]);
    }
  }

  lemma FileIrrelevant(s: Setup, c: Config, from: seq<string>)
    requires !c.failed
    requires var (r, done) := HeaderTurn(s, c.(file := from)); done && !r.failed && r.buf == []
    ensures forall file :: var (r, done) := HeaderTurn(s, c.(file := file)); done && !r.failed && r.buf == []
  {
    hide HeaderTurn;
    forall file ensures var (r, done) := HeaderTurn(s, c.(file := file)); done && !r.failed && r.buf == [] {
      FileIs(s, c.(file := from), file);
    }
  }

  lemma NoticedBehindLineEnd(s: Setup, c: Config, x: string) returns (chunks: seq<string>)
    requires Closed(c) && !Silent(s, x)
    ensures chunks != [] && Concat(chunks) == CRLF + x && !Ignored(c, Feed(s, c, chunks))
  {
    hide Silent;
    hide Parsed;
    hide Feed;
    var parts := Noticed(s, c.(state := 1), x);
    var first := CRLF + parts[0];
    chunks := [first] + parts[1..];
    assert first[..2] == CRLF && first[2..] == parts[0] && [] + first == first && chunks[1..] == parts[1..];
    LineEndFed(s, c, chunks);
    assert [first[2..]] + chunks[1..] == parts;
    assert first + Concat(parts[1..]) == CRLF + (parts[0] + Concat(parts[1..]));
  }

  /** A call that begins with two dashes leaves the parser as it was. */
  lemma DashesFed(s: Setup, c: Config, first: string, later: seq<string>)
    requires Closed(c) && |first| >= 2 && first[..2] == DASH
    ensures Feed(s, c, [first] + later) == Feed(s, c, later)
  {
    hide Parsed;
    var d := Plus(c, first);
    assert d.buf == first;
    DashesParsed(s, d);
    assert Parsed(s, d) == c;
    assert ([first] + later)[1..] == later;
  }

  lemma HarmfulNoticed(s: Setup, c: Config, e: string) returns (chunks: seq<string>)
    requires Closed(c) && !Harmless(s, e)
    ensures Concat(chunks) == e && !Ignored(c, Feed(s, c, chunks))
  {
    hide Silent;
    hide Feed;
    hide Ignored;
    var p: nat :| p + 2 <= |e| && Reached(e, p) && Occurs(e, CRLF, p) && !Silent(s, e[p + 2..]);
    var later := NoticedBehindLineEnd(s, c, e[p + 2..]);
    assert CRLF + e[p + 2..] == e[p..];
    if p == 0 {
      chunks := later;
      assert e[0..] == e;
    } else {
      OccursFirst(e, DASH);
      assert e[..p][..2] == e[..2];
      DashesFed(s, c, e[..p], later);
      chunks := [e[..p]] + later;
      assert chunks[1..] == later;
      assert e == e[..p] + e[p..];
    }
  }

  /**
   After the closing delimiter, an epilogue changes nothing in whatever calls it comes, if and only if
   wherever a call may begin to look at it there is no line end, or only silent text behind it.
   */
  lemma IgnoredExactlyIf(s: Setup, c: Config, e: string)
    requires Closed(c)
    ensures (forall chunks | Concat(chunks) == e :: Ignored(c, Feed(s, c, chunks))) <==> Harmless(s, e)
  {
    hide Harmless;
    hide Feed;
    hide Ignored;
    if Harmless(s, e) {
      forall chunks | Concat(chunks) == e ensures Ignored(c, Feed(s, c, chunks)) {
        assert c.buf + Concat(chunks) == e;
        HarmlessIgnored(s, c, chunks);
      }
    } else {
      var chunks := HarmfulNoticed(s, c, e);
    }
  }

  /** In particular one line end is, and so is anything without one that a call could begin at. */
  lemma PlainEpilogues(s: Setup, e: string)
    ensures Harmless(s, CRLF)
    ensures Avoids(e, CRLF) ==> Harmless(s, e) && Harmless(s, DASH + e)
  {
    hide Silent;
    assert CRLF[2..] == [];
    SilentNothing(s);
    forall p: nat | p + 2 <= |CRLF| && Reached(CRLF, p) && Occurs(CRLF, CRLF, p) ensures Silent(s, CRLF[p + 2..]) {
    }
    if Avoids(e, CRLF) {
      forall p: nat | p + 2 <= |DASH + e| ensures !Occurs(DASH + e, CRLF, p) {
        assert p < 2 ==> (DASH + e)[p..p + 2][0] == (DASH + e)[p] == '-';
        if p >= 2 {
          OccursDrop(DASH + e, CRLF, 2, p - 2);
          assert (DASH + e)[2..] == e;
        }
      }
    }
  }

  lemma SilentNothing(s: Setup)
    ensures Silent(s, [])
  {
  }
}
