/**
 The length limit of header lines. It is checked when a call enters the header state, against what is
 in the buffer then; this says for which headers it does not matter how the calls split them.
 */
module MultipartLimits {
  import opened Search
  import opened Http
  import opened Multipart
  import opened MultipartProofs
  import opened MultipartItems

  predicate AllAccepted(s: Setup, lines: seq<string>)
  {
    forall i | 0 <= i < |lines| :: AcceptedLine(s, lines[i])
  }

  /** The header lines of a part and the empty line. */
  function Block(lines: seq<string>): string
  {
    Lines(lines) + CRLF
  }

  predicate EntersHeaders(c: Config)
  {
    c.state == 2 && c.buf == [] && !c.failed && !c.valid
  }

  lemma {:induction false} LinesFound(s: Setup, c: Config, lines: seq<string>, more: string)
    requires c.buf == Lines(lines) + more && AllAccepted(s, lines)
    ensures HeaderTurn(s, c) == HeaderTurn(s, c.(file := c.file + lines, buf := more))
    ensures lines != [] ==> Find(c.buf, CRLF, 0) == |lines[0]| < |c.buf|
    decreases |lines|
  {
    hide HeaderTurn;
    hide AcceptedLine;
    hide Find;
    if lines == [] {
      assert c.file + lines == c.file && c.buf == [] + more == more;
    } else {
      var rest := Lines(lines[1..]) + more;
      assert c.buf == lines[0] + CRLF + rest;
      HeaderLineFound(s, c, lines[0], rest);
      var next := c.(file := c.file + [lines[0]], buf := rest);
      LinesFound(s, next, lines[1..], more);
      assert next.file + lines[1..] == c.file + lines;
    }
  }

  /** One call with all of the header, if its first line passes. */
  lemma BlockParsed(s: Setup, c: Config, lines: seq<string>)
    requires EntersHeaders(c) && AllAccepted(s, lines) && (lines != [] ==> |lines[0]| <= HEADER_MAX_LENGTH)
    ensures Parsed(s, Plus(c, Block(lines))) == c.(state := 3, file := c.file + lines, sent := [], buf := [])
    ensures Batch(s, Plus(c, Block(lines))) == Parsed(s, Plus(c, Block(lines)))
  {
    hide HeaderTurn;
    hide Find;
    hide Lines;
    hide AllAccepted;
    var d := Plus(c, Block(lines));
    assert d.buf == Lines(lines) + CRLF;
    LinesFound(s, d, lines, CRLF);
    var e := d.(file := c.file + lines, buf := CRLF);
    assert e.buf == CRLF + [];
    EmptyLineFound(s, e, []);
    assert lines == [] ==> Find(d.buf, CRLF, 0) == 0 by {
      if lines == [] {
        NoLines(lines);
        assert d.buf == CRLF + [];
        EmptyLineFound(s, d, []);
      }
    }
  }

  lemma NoLines(lines: seq<string>)
    requires lines == []
    ensures Lines(lines) == []
  {
  }

  /** A call that ends behind a line. */
  lemma LinesParsed(s: Setup, c: Config, lines: seq<string>)
    requires EntersHeaders(c) && AllAccepted(s, lines) && (lines != [] ==> |lines[0]| <= HEADER_MAX_LENGTH)
    ensures Parsed(s, Plus(c, Lines(lines))) == c.(file := c.file + lines)
  {
    hide Find;
    hide AllAccepted;
    var d := Plus(c, Lines(lines));
    if lines == [] {
      assert c.file + lines == c.file;
    } else {
      hide Lines;
      assert d.buf == Lines(lines) + [];
      LinesFound(s, d, lines, []);
    }
  }

  /** What a call finds of a line that it does not bring in full: everything. */
  lemma UnfinishedLine(line: string, n: nat)
    requires Avoids(line, CRLF) && n <= |line| + 1
    ensures var part := (line + CRLF)[..n]; |part| == n && Find(part, CRLF, 0) == n
  {
    hide Find;
    hide Occurs;
    var all := line + CRLF;
    var part := all[..n];
    assert all == part + all[n..];
    forall i: nat | i <= n ensures !Occurs(part, CRLF, i) {
      if i + 2 <= n && i + 2 <= |line| {
        OccursAppend(part, all[n..], CRLF, i);
        OccursAppend(line, CRLF, CRLF, i);
      } else {
        EndsInside(part, i, n == |line| + 1);
      }
    }
    Absent(part);
  }

  lemma EndsInside(part: string, i: nat, whole: bool)
    requires i + 2 > |part| || (whole && i + 2 == |part| && part[|part| - 1] == '\r')
    ensures !Occurs(part, CRLF, i)
  {
    assert i + 2 == |part| ==> part[i..i + 2][1] == part[i + 1];
  }

  lemma Absent(s: string)
    requires forall i: nat | i <= |s| :: !Occurs(s, CRLF, i)
    ensures Find(s, CRLF, 0) == |s|
  {
  }

  /** A first line above the limit is refused, in whatever pieces it comes. */
  lemma {:induction false} LongRefused(s: Setup, c: Config, line: string, rest: string, chunks: seq<string>)
    requires c.state == 2 && !c.failed && |c.buf| <= HEADER_MAX_LENGTH < |line| && AcceptedLine(s, line)
    requires c.buf + Concat(chunks) == line + CRLF + rest
    ensures Feed(s, c, chunks).failed && Feed(s, c, chunks).parts == c.parts
    decreases |chunks|
  {
    hide Find;
    hide AcceptedLine;
    assert |c.buf| + |Concat(chunks)| == |line| + 2 + |rest|;
    if chunks != [] {
      var d := Plus(c, chunks[0]);
      assert d.buf + Concat(chunks[1..]) == line + CRLF + rest;
      assert Feed(s, c, chunks) == Feed(s, Parsed(s, d), chunks[1..]);
      if |d.buf| >= |line| + 2 {
        var more := d.buf[|line| + 2..];
        Prefix(d.buf, Concat(chunks[1..]), line + CRLF, rest);
        assert d.buf == line + CRLF + more;
        HeaderLineFound(s, d, line, more);
      } else {
        Prefix(line + CRLF, rest, d.buf, Concat(chunks[1..]));
        assert Avoids(line, CRLF) by { AcceptedAvoids(s, line); }
        UnfinishedLine(line, |d.buf|);
        assert d.buf == (line + CRLF)[..|d.buf|];
        if |d.buf| <= HEADER_MAX_LENGTH {
          assert Parsed(s, d) == d;
          LongRefused(s, d, line, rest, chunks[1..]);
        }
      }
    }
  }

  lemma AcceptedAvoids(s: Setup, line: string)
    requires AcceptedLine(s, line)
    ensures Avoids(line, CRLF)
  {
  }

  lemma Prefix(long: string, a: string, short: string, b: string)
    requires long + a == short + b && |short| <= |long|
    ensures long == short + long[|short|..] && long[..|short|] == short
  {
    assert long == (long + a)[..|long|];
    assert short == (short + b)[..|short|];
  }

  /** Calls that end before a long line, and within its terminator. */
  function Around(lines: seq<string>, i: nat): seq<string>
    requires i < |lines|
  {
    [Lines(lines[..i]), lines[i] + CRLF[..1], CRLF[1..] + Block(lines[i + 1..])]
  }

  lemma {:induction false} LinesSplit(lines: seq<string>, i: nat)
    requires i < |lines|
    ensures Lines(lines) == Lines(lines[..i]) + (lines[i] + CRLF + Lines(lines[i + 1..]))
  {
    if i > 0 {
      LinesSplit(lines[1..], i - 1);
      assert lines[..i][1..] == lines[1..][..i - 1] && lines[1..][i..] == lines[i + 1..];
      assert Lines(lines[..i]) == lines[0] + CRLF + Lines(lines[..i][1..]);
      Regrouped(lines[0] + CRLF, Lines(lines[..i][1..]), lines[i] + CRLF + Lines(lines[i + 1..]));
    } else {
      assert Lines(lines[..0]) == [];
      assert lines[0] + CRLF + Lines(lines[1..]) == [] + (lines[0] + CRLF + Lines(lines[1..]));
    }
  }

  lemma AroundIsBlock(lines: seq<string>, i: nat)
    requires i < |lines|
    ensures Concat(Around(lines, i)) == Block(lines)
  {
    hide Lines;
    var a, line, rest := Lines(lines[..i]), lines[i], Lines(lines[i + 1..]);
    LinesSplit(lines, i);
    var chunks := Around(lines, i);
    assert chunks[1..][1..][1..] == [];
    assert Concat(chunks[1..][1..]) == chunks[2] + Concat([]);
    assert Concat(chunks[1..]) == chunks[1] + Concat(chunks[1..][1..]);
    assert Concat(chunks) == chunks[0] + Concat(chunks[1..]);
    assert CRLF == CRLF[..1] + CRLF[1..];
    assert a + (line + CRLF[..1] + (CRLF[1..] + (rest + CRLF) + []))
        == a + (line + (CRLF[..1] + CRLF[1..]) + rest) + CRLF;
  }

  /** A line of the limit or longer is refused when calls end around it, if it is the first such line. */
  lemma AroundRefused(s: Setup, c: Config, lines: seq<string>, i: nat)
    requires EntersHeaders(c) && AllAccepted(s, lines) && i < |lines| && |lines[i]| >= HEADER_MAX_LENGTH
    requires forall k | 0 <= k < i :: |lines[k]| < HEADER_MAX_LENGTH
    ensures Feed(s, c, Around(lines, i)).failed
  {
    hide Lines;
    hide Find;
    hide AcceptedLine;
    var chunks := Around(lines, i);
    LinesParsed(s, c, lines[..i]);
    var d := c.(file := c.file + lines[..i]);
    assert Parsed(s, Plus(c, chunks[0])) == d;
    var e := Plus(d, chunks[1]);
    AcceptedAvoids(s, lines[i]);
    UnfinishedLine(lines[i], |lines[i]| + 1);
    assert e.buf == lines[i] + CRLF[..1] == (lines[i] + CRLF)[..|lines[i]| + 1];
    assert Parsed(s, e).failed;
    assert Feed(s, c, chunks) == Feed(s, d, chunks[1..]) == Feed(s, Parsed(s, e), chunks[1..][1..]);
  }

  lemma BlockNotEmpty(lines: seq<string>)
    ensures Block(lines) != []
  {
  }

  lemma BlockShort(s: Setup, d: Config, lines: seq<string>)
    requires d.state == 2 && d.buf == Block(lines) && AllAccepted(s, lines)
    requires forall i | 0 <= i < |lines| :: |lines[i]| < HEADER_MAX_LENGTH
    ensures Short(s, d)
  {
    hide HeaderTurn;
    hide Lines;
    hide AcceptedLine;
    assert GoodLines(s, lines);
    assert d.buf == Lines(lines) + CRLF + [];
    HeadersFound(s, d, lines, []);
  }

  lemma ShortAgrees(s: Setup, c: Config, lines: seq<string>, chunks: seq<string>)
    requires EntersHeaders(c) && AllAccepted(s, lines) && Concat(chunks) == Block(lines)
    requires forall i | 0 <= i < |lines| :: |lines[i]| < HEADER_MAX_LENGTH
    ensures Feed(s, c, chunks) == Parsed(s, Plus(c, Block(lines)))
  {
    hide HeaderTurn;
    hide Parsed;
    hide Feed;
    hide Lines;
    hide AcceptedLine;
    hide Short;
    hide Batch;
    hide AllAccepted;
    var d := Plus(c, Block(lines));
    BlockParsed(s, c, lines);
    BlockShort(s, d, lines);
    BlockNotEmpty(lines);
    FedAtOnce(s, c, chunks);
  }

  /** If one search ends behind the header, so do all calls. */
  lemma FedAtOnce(s: Setup, c: Config, chunks: seq<string>)
    requires EntersHeaders(c) && chunks != [] && Short(s, Plus(c, Concat(chunks)))
    requires var r := Batch(s, Plus(c, Concat(chunks))); r.state == 3 && r.sent == [] == r.buf && !r.valid && !r.failed
    ensures Feed(s, c, chunks) == Batch(s, Plus(c, Concat(chunks)))
  {
    hide Batch;
    hide Short;
    hide Feed;
    var first, last := Concat(chunks[..|chunks| - 1]), chunks[|chunks| - 1];
    ConcatLast(chunks);
    assert Plus(Plus(c, first), last) == Plus(c, Concat(chunks));
    BatchPlus(s, Plus(c, first), last);
    FeedIsBatch(s, c, chunks);
  }

  /**
   However the calls split the header of a part, the result is the same if and only if every line is
   shorter than the limit, or the first one is longer and is always refused.
   */
  lemma SplitsAgreeExactlyIf(s: Setup, c: Config, lines: seq<string>)
    requires EntersHeaders(c) && AllAccepted(s, lines)
    ensures (forall i | 0 <= i < |lines| :: |lines[i]| < HEADER_MAX_LENGTH)
            || (lines != [] && |lines[0]| > HEADER_MAX_LENGTH) <==>
      forall chunks: seq<string> | Concat(chunks) == Block(lines) ::
        Alike(Feed(s, c, chunks), Parsed(s, Plus(c, Block(lines))))
  {
    hide Parsed;
    hide Feed;
    hide Lines;
    hide AcceptedLine;
    var whole := Parsed(s, Plus(c, Block(lines)));
    if forall i | 0 <= i < |lines| :: |lines[i]| < HEADER_MAX_LENGTH {
      forall chunks: seq<string> | Concat(chunks) == Block(lines) ensures Alike(Feed(s, c, chunks), whole) {
        ShortAgrees(s, c, lines, chunks);
      }
    } else if |lines[0]| > HEADER_MAX_LENGTH {
      LinesSplit(lines, 0);
      NoLines(lines[..0]);
      var rest := Block(lines[1..]);
      assert Block(lines) == lines[0] + CRLF + rest;
      FeedOne(s, c, Block(lines));
      forall chunks: seq<string> | Concat(chunks) == Block(lines) ensures Alike(Feed(s, c, chunks), whole) {
        assert c.buf + Concat(chunks) == lines[0] + CRLF + rest;
        LongRefused(s, c, lines[0], rest, chunks);
        assert c.buf + Concat([Block(lines)]) == lines[0] + CRLF + rest;
        LongRefused(s, c, lines[0], rest, [Block(lines)]);
      }
    } else {
      BlockParsed(s, c, lines);
      var i := FirstLong(lines);
      AroundIsBlock(lines, i);
      AroundRefused(s, c, lines, i);
      assert !Alike(Feed(s, c, Around(lines, i)), whole);
    }
  }

  lemma FeedOne(s: Setup, c: Config, chunk: string)
    requires !c.failed
    ensures Feed(s, c, [chunk]) == Parsed(s, Plus(c, chunk)) && Concat([chunk]) == chunk
  {
    hide Parsed;
    assert [chunk][1..] == [] && chunk + [] == chunk;
  }

  lemma {:induction false} FirstLong(lines: seq<string>) returns (i: nat)
    requires exists k | 0 <= k < |lines| :: |lines[k]| >= HEADER_MAX_LENGTH
    ensures i < |lines| && |lines[i]| >= HEADER_MAX_LENGTH && forall k | 0 <= k < i :: |lines[k]| < HEADER_MAX_LENGTH
  {
    i := 0;
    while |lines[i]| < HEADER_MAX_LENGTH
      invariant i < |lines| && forall k | 0 <= k < i :: |lines[k]| < HEADER_MAX_LENGTH
      decreases |lines| - i
    {
      i := i + 1;
    }
  }
}
