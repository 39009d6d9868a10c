/** Streaming equals one search over the whole input, and parsing undoes serialisation. */
module MultipartProofs {
  import opened Search
  import opened Http
  import opened Multipart

  // ---------- One search over the whole input ----------

  /** Like a turn of the parser, but content stays in the buffer until its delimiter is there. */
  function BatchTurn(s: Setup, c: Config): (r: (Config, bool))
    requires c.buf != []
    ensures r.1 || |r.0.buf| < |c.buf| || (|r.0.buf| == |c.buf| && c.state == 1 && r.0.state == 2)
    ensures r.1 || r.0.failed == c.failed
  {
    if c.state == 2 then HeaderTurn(s, c)
    else if c.state == 3 then BatchBodyTurn(s, c)
    else Turn(s, c)
  }

  function BatchBodyTurn(s: Setup, c: Config): (r: (Config, bool))
    ensures r.1 || (|r.0.buf| < |c.buf| && r.0.failed == c.failed && r.0.state == 4)
  {
    if Find(c.buf, s.Delimiter(), 0) == |c.buf| then (c, true) else BodyTurn(s, c)
  }

  function Batch(s: Setup, c: Config): Config
    decreases |c.buf|, if c.state == 1 then 1 else 0
  {
    if c.buf == [] then c
    else
      var (c', done) := BatchTurn(s, c);
      if done then c' else Batch(s, c')
  }

  function Plus(c: Config, more: string): Config
  {
    c.(buf := c.buf + more)
  }

  /** Takes back what has been handed out of the current body. */
  function Merged(c: Config): Config
  {
    if c.state == 3 then c.(sent := [], buf := c.sent + c.buf) else c
  }

  /** What has been handed out can no longer be the beginning of a delimiter. */
  ghost predicate Ready(s: Setup, c: Config)
  {
    c.state == 3 ==>
      && (c.sent == [] || |c.buf| >= |s.Delimiter()|)
      && forall i | 0 <= i < |c.sent| :: !Occurs(c.sent + c.buf, s.Delimiter(), i)
  }

  /** Each header line still to be read stays below the length limit. */
  predicate ShortLines(s: Setup, c: Config)
    decreases |c.buf|
  {
    var i := Find(c.buf, CRLF, 0);
    if i == |c.buf| then i <= HEADER_MAX_LENGTH
    else
      && i < HEADER_MAX_LENGTH
      && (i == 0 || !s.accepts(c.buf[..i]) || ShortLines(s, c.(file := c.file + [c.buf[..i]], buf := c.buf[i + 2..])))
  }

  predicate Short(s: Setup, c: Config)
    decreases |c.buf|, if c.state == 1 then 1 else 0
  {
    if c.buf == [] then true
    else
      var (c', done) := BatchTurn(s, c);
      (c.state == 2 ==> ShortLines(s, c)) && (done || Short(s, c'))
  }

  // ---------- One call ----------

  /** Searching a body of which `e` has been handed out, with nothing found that starts in it. */
  lemma FindPastSent(e: string, b: string, d: string)
    requires d != [] && forall i | 0 <= i < |e| :: !Occurs(e + b, d, i)
    ensures var i := Find(b, d, 0);
      && Find(e + b, d, 0) == |e| + i
      && (i < |b| ==> (e + b)[..|e| + i] == e + b[..i] && (e + b)[|e| + i + |d|..] == b[i + |d|..])
  {
    assert (e + b)[|e|..] == b;
    FindDrop(e + b, d, |e|);
    var f := Find(e + b, d, |e|);
    if f < |e + b| { FindIs(e + b, d, 0, f); }
  }

  lemma SendSome(e: string, b: string, d: string, n: nat)
    requires d != [] && Find(e + b, d, 0) == |e + b| && n <= |b|
    ensures e + b[..n] + b[n..] == e + b
    ensures forall j | 0 <= j < |e + b[..n]| :: !Occurs(e + b[..n] + b[n..], d, j)
  {
    assert e + b[..n] + b[n..] == e + b;
  }

  lemma ReadyPlus(s: Setup, c: Config, more: string)
    requires Ready(s, c)
    ensures Ready(s, Plus(c, more)) && Merged(Plus(c, more)) == Plus(Merged(c), more)
  {
    assert c.sent + (c.buf + more) == (c.sent + c.buf) + more;
    forall i | 0 <= i < |c.sent| && c.state == 3 ensures !Occurs(c.sent + (c.buf + more), s.Delimiter(), i) {
      OccursAppend(c.sent + c.buf, more, s.Delimiter(), i);
    }
  }

  /** A body turn that hands content out keeps the merged configuration. */
  lemma BodyTurnMerged(s: Setup, c: Config)
    requires c.state == 3 && c.buf != [] && Ready(s, c)
    ensures var (c', done) := BodyTurn(s, c);
      Ready(s, c') && BatchBodyTurn(s, Merged(c)) == (Merged(c'), done)
  {
    hide Find;
    var e, b, d := c.sent, c.buf, s.Delimiter();
    FindPastSent(e, b, d);
    var i := Find(b, d, 0);
    if i < |b| {
      assert [] + (e + b[..i]) == e + b[..i];
    } else if |b| > |d| {
      SendSome(e, b, d, |b| - |d|);
    }
  }

  /** What one call makes of a configuration is what the search makes of it, up to early delivery. */
  lemma {:induction false} ParsedIsBatch(s: Setup, c: Config)
    requires c.state >= 1 && Ready(s, c) && Short(s, Merged(c))
    ensures Merged(Parsed(s, c)) == Batch(s, Merged(c)) && Ready(s, Parsed(s, c))
    ensures Parsed(s, c).state >= 1
    decreases |c.buf|, if c.state == 1 then 1 else 0
  {
    hide OpeningTurn;
    hide HeaderTurn;
    hide BodyTurn;
    hide BatchBodyTurn;
    hide BoundaryTurn;
    if c.buf != [] {
      if c.state == 3 { BodyTurnMerged(s, c); }
      var (c', done) := Turn(s, c);
      assert [] + c'.buf == c'.buf;
      if !done {
        ParsedIsBatch(s, c');
      }
    }
  }

  // ---------- More input after a search that stopped ----------

  lemma FindPlus(a: string, b: string, d: string)
    requires d != [] && Find(a, d, 0) < |a|
    ensures Find(a + b, d, 0) == Find(a, d, 0) < |a + b|
    ensures var i := Find(a, d, 0); (a + b)[..i] == a[..i] && (a + b)[i + |d|..] == a[i + |d|..] + b
  {
    FindAppend(a, b, d, 0);
    var i := Find(a, d, 0);
    assert Occurs(a, d, i);
  }

  /** The header loop resumes where it stopped, fails where it failed, and hands on what follows. */
  lemma {:induction false} HeaderPlus(s: Setup, c: Config, more: string)
    requires c.buf != [] && !c.failed
    ensures var (c', done) := HeaderTurn(s, c);
      if done && !c'.failed then HeaderTurn(s, Plus(c, more)) == HeaderTurn(s, Plus(c', more))
      else HeaderTurn(s, Plus(c, more)) == (Plus(c', more), done)
    decreases |c.buf|
  {
    hide Find;
    var i := Find(c.buf, CRLF, 0);
    if i < |c.buf| {
      FindPlus(c.buf, more, CRLF);
      if i > 0 && s.accepts(c.buf[..i]) {
        var next := c.(file := c.file + [c.buf[..i]], buf := c.buf[i + 2..]);
        assert Plus(next, more).buf == (c.buf + more)[i + 2..];
        assert HeaderTurn(s, Plus(c, more)) == HeaderTurn(s, Plus(next, more));
        if next.buf != [] {
          HeaderPlus(s, next, more);
        }
      }
    }
  }

  /** A turn does the same with more input behind it, unless it closes the body of the message. */
  lemma TurnPlus(s: Setup, c: Config, more: string)
    requires c.buf != [] && c.state >= 1 && !c.failed && !c.valid
    ensures var (c', done) := BatchTurn(s, c);
      && (!done && !c'.valid ==> BatchTurn(s, Plus(c, more)) == (Plus(c', more), false))
      && (!done && c'.valid ==> c'.buf == [] && BatchTurn(s, Plus(c, more)) == (c', false))
      && (done && c'.failed ==> BatchTurn(s, Plus(c, more)) == (Plus(c', more), true))
      && (done && !c'.failed && Plus(c', more).buf != [] ==> BatchTurn(s, Plus(c, more)) == BatchTurn(s, Plus(c', more)))
      && (done ==> c'.state == c.state && !c'.valid)
      && (c'.failed ==> done) && c'.state >= 1
  {
    hide Find;
    if c.state == 2 {
      HeaderPlus(s, c, more);
      HeaderValid(s, c);
    } else if c.state == 3 {
      if Find(c.buf, s.Delimiter(), 0) < |c.buf| { FindPlus(c.buf, more, s.Delimiter()); }
    } else if c.state != 1 && |c.buf| >= 2 {
      assert (c.buf + more)[..2] == c.buf[..2] && (c.buf + more)[2..] == c.buf[2..] + more;
    }
  }

  lemma {:induction false} HeaderValid(s: Setup, c: Config)
    requires !c.valid
    ensures !HeaderTurn(s, c).0.valid
    decreases |c.buf|
  {
    hide HeaderTurn;
    hide Find;
    HeaderCases(s, c);
    var i := Find(c.buf, CRLF, 0);
    if 0 < i < |c.buf| && s.accepts(c.buf[..i]) {
      HeaderValid(s, c.(file := c.file + [c.buf[..i]], buf := c.buf[i + 2..]));
    }
  }

  /**
   Searching again once more input is there gives what searching all of it at once gives; a search
   that has failed or has met the closing delimiter is not changed by what follows.
   */
  lemma {:induction false} BatchPlus(s: Setup, c: Config, more: string)
    requires c.state >= 1 && !c.failed && !c.valid
    ensures var a, b := Batch(s, c), Batch(s, Plus(c, more));
      && a.state >= 1
      && (a.valid ==> b == a)
      && (a.failed ==> b == Plus(a, more))
      && (!a.valid && !a.failed ==> b == Batch(s, Plus(a, more)))
    decreases |c.buf|, if c.state == 1 then 1 else 0
  {
    hide BatchTurn;
    if c.buf != [] {
      TurnPlus(s, c, more);
      var (c', done) := BatchTurn(s, c);
      if !done && !c'.valid {
        BatchPlus(s, c', more);
      } else if more == [] {
        assert Plus(c, more) == c && Plus(c', more) == c';
      }
    }
  }

  lemma {:induction false} ShortLinesPlus(s: Setup, c: Config, more: string)
    requires c.buf != [] && !c.failed && ShortLines(s, Plus(c, more))
    ensures ShortLines(s, c)
    ensures var (c', done) := HeaderTurn(s, c);
      done && !c'.failed ==> ShortLines(s, Plus(c', more))
    decreases |c.buf|
  {
    hide Find;
    hide HeaderTurn;
    HeaderCases(s, c);
    var i := Find(c.buf, CRLF, 0);
    if i < |c.buf| {
      FindPlus(c.buf, more, CRLF);
      if i > 0 && s.accepts(c.buf[..i]) {
        var next := c.(file := c.file + [c.buf[..i]], buf := c.buf[i + 2..]);
        assert Plus(next, more) == Plus(c, more).(file := next.file, buf := (c.buf + more)[i + 2..]);
        assert ShortLines(s, Plus(next, more));
        if next.buf == [] {
          NothingRead(s, next);
        } else {
          ShortLinesPlus(s, next, more);
        }
      }
    } else {
      NoLineEnd(c.buf, more);
    }
  }

  lemma NothingRead(s: Setup, c: Config)
    requires c.buf == []
    ensures HeaderTurn(s, c) == (c, true) && ShortLines(s, c)
  {
  }

  lemma NoLineEnd(a: string, b: string)
    requires Find(a, CRLF, 0) == |a|
    ensures |a| <= Find(a + b, CRLF, 0) + 1
  {
    var f := Find(a + b, CRLF, 0);
    if f + 2 <= |a| { OccursAppend(a, b, CRLF, f); }
  }

  lemma {:induction false} ShortPlus(s: Setup, c: Config, more: string)
    requires c.state >= 1 && !c.failed && !c.valid && Short(s, Plus(c, more))
    ensures Short(s, c)
    ensures var a := Batch(s, c); !a.valid && !a.failed ==> Short(s, Plus(a, more))
    decreases |c.buf|, if c.state == 1 then 1 else 0
  {
    hide BatchTurn;
    hide ShortLines;
    if c.buf != [] {
      TurnPlus(s, c, more);
      var (c', done) := BatchTurn(s, c);
      if c.state == 2 {
        ShortLinesPlus(s, c, more);
        BatchTurnHeaders(s, c);
      }
      if !done && !c'.valid {
        ShortPlus(s, c', more);
      }
    }
  }

  lemma BatchTurnHeaders(s: Setup, c: Config)
    requires c.buf != [] && c.state == 2
    ensures BatchTurn(s, c) == HeaderTurn(s, c)
  {
  }

  // ---------- Any number of calls ----------

  /** Calls of `parse`, one for each chunk, until one of them refuses. */
  function Feed(s: Setup, c: Config, chunks: seq<string>): Config
    decreases |chunks|
  {
    if chunks == [] || c.failed then c else Feed(s, Parsed(s, Plus(c, chunks[0])), chunks[1..])
  }

  function Concat(chunks: seq<string>): string
  {
    if chunks == [] then [] else chunks[0] + Concat(chunks[1..])
  }

  /** Where two runs stand, but for what a refusing call leaves in the buffer. */
  ghost predicate Alike(a: Config, b: Config)
  {
    a.failed == b.failed && a.parts == b.parts && (!a.failed ==> a == b)
  }

  /** One call, seen from the search over everything: `first` is what it is given, `rest` is still to come. */
  lemma FeedStep(s: Setup, c: Config, first: string, rest: string)
    requires c.state >= 1 && !c.failed && !c.valid && Ready(s, c)
    requires Short(s, Plus(Merged(c), first + rest))
    ensures var c1, all := Parsed(s, Plus(c, first)), Batch(s, Plus(Merged(c), first + rest));
      && c1.state >= 1 && Ready(s, c1) && Merged(c1) == Batch(s, Plus(Merged(c), first))
      && (c1.failed ==> all == Plus(Merged(c1), rest))
      && (c1.valid ==> all == Merged(c1))
      && (!c1.failed && !c1.valid ==>
            all == Batch(s, Plus(Merged(c1), rest)) && Short(s, Plus(Merged(c1), rest)))
  {
    hide Short;
    hide Batch;
    hide Parsed;
    hide Ready;
    var m := Merged(c);
    assert m.buf + first + rest == m.buf + (first + rest);
    ShortPlus(s, Plus(m, first), rest);
    ReadyPlus(s, c, first);
    ParsedIsBatch(s, Plus(c, first));
    BatchPlus(s, Plus(m, first), rest);
  }

  lemma {:induction false} ConcatLast(chunks: seq<string>)
    requires chunks != []
    ensures Concat(chunks) == Concat(chunks[..|chunks| - 1]) + chunks[|chunks| - 1]
  {
    if |chunks| > 1 {
      ConcatLast(chunks[1..]);
      ConcatInit(chunks);
    }
  }

  lemma ConcatInit(chunks: seq<string>)
    requires |chunks| > 1
    ensures Concat(chunks[..|chunks| - 1]) == chunks[0] + Concat(chunks[1..][..|chunks[1..]| - 1])
  {
    assert chunks[..|chunks| - 1][1..] == chunks[1..][..|chunks[1..]| - 1];
  }

  /**
   As long as the closing delimiter is not complete before the last call, any number of calls leaves
   the parts, the header lines, the state and the rest of the input where one search over the
   concatenated input leaves them.
   */
  lemma {:induction false} FeedIsBatch(s: Setup, c: Config, chunks: seq<string>)
    requires chunks != [] && c.state >= 1 && !c.failed && !c.valid && Ready(s, c)
    requires Short(s, Plus(Merged(c), Concat(chunks)))
    requires !Batch(s, Plus(Merged(c), Concat(chunks[..|chunks| - 1]))).valid
    ensures Alike(Merged(Feed(s, c, chunks)), Batch(s, Plus(Merged(c), Concat(chunks))))
    ensures Ready(s, Feed(s, c, chunks))
    decreases |chunks|
  {
    hide Short;
    hide Batch;
    hide Parsed;
    hide Ready;
    var first, rest := chunks[0], Concat(chunks[1..]);
    var c1 := Parsed(s, Plus(c, first));
    FeedStep(s, c, first, rest);
    assert Feed(s, c, chunks) == Feed(s, c1, chunks[1..]);
    if |chunks| == 1 {
      assert first + rest == first;
    } else if !c1.failed {
      var upto := Concat(chunks[1..][..|chunks[1..]| - 1]);
      ConcatInit(chunks);
      ConcatLast(chunks);
      assert Plus(Plus(Merged(c), first + upto), chunks[|chunks| - 1]).buf == Merged(c).buf + Concat(chunks);
      ShortPlus(s, Plus(Merged(c), first + upto), chunks[|chunks| - 1]);
      FeedStep(s, c, first, upto);
      FeedIsBatch(s, c1, chunks[1..]);
    }
  }

  lemma {:induction false} HeaderParts(s: Setup, c: Config)
    ensures HeaderTurn(s, c).0.parts == c.parts
    decreases |c.buf|
  {
    hide Find;
    var i := Find(c.buf, CRLF, 0);
    if 0 < i < |c.buf| && s.accepts(c.buf[..i]) {
      HeaderParts(s, c.(file := c.file + [c.buf[..i]], buf := c.buf[i + 2..]));
    }
  }

  lemma {:induction false} BatchPartsGrow(s: Setup, c: Config)
    requires c.state >= 1
    ensures c.parts <= Batch(s, c).parts
    decreases |c.buf|, if c.state == 1 then 1 else 0
  {
    if c.buf != [] {
      var (c', done) := BatchTurn(s, c);
      if c.state == 2 { HeaderParts(s, c); }
      if !done {
        BatchPartsGrow(s, c');
      }
    }
  }

  /**
   From the beginning of a body, what all the calls together hand to the content receiver is the
   input before the first delimiter; without one, it is all the input but what is still in the buffer.
   */
  lemma BodyDelivered(s: Setup, c: Config, chunks: seq<string>)
    requires c.state == 3 && c.sent == [] && c.buf == [] && !c.failed && !c.valid && chunks != []
    requires Short(s, Plus(c, Concat(chunks)))
    requires !Batch(s, Plus(c, Concat(chunks[..|chunks| - 1]))).valid
    ensures var input, r := Concat(chunks), Feed(s, c, chunks);
      var i := Find(input, s.Delimiter(), 0);
      if i == |input| then r.state == 3 && r.sent + r.buf == input && r.parts == c.parts
      else c.parts + [Part(c.file, input[..i])] <= r.parts
  {
    hide Short;
    hide Find;
    var input := Concat(chunks);
    assert Merged(c) == c by { assert c.sent + c.buf == c.buf; }
    FeedIsBatch(s, c, chunks);
    var d := Plus(c, input);
    assert d.buf == input;
    var i := Find(input, s.Delimiter(), 0);
    if i < |input| {
      var d1 := BatchTurn(s, d).0;
      assert [] + input[..i] == input[..i];
      BatchPartsGrow(s, d1);
    }
  }
}
