/**
 The incremental multipart/form-data parser (section 5.1.1 of RFC 2046, RFC 7578).

 `MultipartFormDataParser` is the parser with its sliding buffer. `Parsed` is what one call of
 `parse` does, as a function; `Batch` is one search over a whole input, which never hands out
 content before the delimiter after it has been found.
 */
module Multipart {
  import opened Search
  import opened Http

  const DASH: string := "--"

  /** What the two callbacks were given for a part: its header lines, and its content in one piece. */
  datatype Part = Part(headers: seq<string>, content: string)

  /**
   States as in the original: 0 looks for the first boundary, 1 starts a part, 2 reads its headers,
   3 its body, 4 what follows a delimiter. `file` collects the header lines of the current part,
   `sent` is its content handed out so far, and `parts` are the parts that are complete.
   */
  datatype Config = Config(state: nat, file: seq<string>, sent: string, parts: seq<Part>,
                           buf: string, valid: bool, failed: bool)

  const START: Config := Config(0, [], [], [], [], false, false)

  /** The boundary, and which header lines the parser accepts. */
  datatype Setup = Setup(boundary: string, accepts: string -> bool)
  {
    function Opening(): (s: string)
      ensures s != []
    {
      DASH + boundary + CRLF
    }

    function Delimiter(): (s: string)
      ensures |s| >= 4
    {
      CRLF + DASH + boundary
    }
  }

  // ---------- One call of parse ----------

  /** The header loop, which checks no length: only entering it does. */
  function HeaderTurn(s: Setup, c: Config): (r: (Config, bool))
    ensures r.1 || (|r.0.buf| < |c.buf| && r.0.state == 3 && r.0.sent == [] && r.0.failed == c.failed)
    ensures r.1 ==> r.0.state == c.state
    decreases |c.buf|
  {
    var i := Find(c.buf, CRLF, 0);
    if i == |c.buf| then (c, true)
    else if i == 0 then (c.(state := 3, sent := [], buf := c.buf[2..]), false)
    else if !s.accepts(c.buf[..i]) then (c.(valid := false, failed := true), true)
    else HeaderTurn(s, c.(file := c.file + [c.buf[..i]], buf := c.buf[i + 2..]))
  }

  function OpeningTurn(s: Setup, c: Config): (r: (Config, bool))
    ensures r.1 || (|r.0.buf| < |c.buf| && r.0.failed == c.failed && r.0.state == 1)
    ensures r.1 ==> r.0.state == c.state
  {
    var i := Find(c.buf, s.Opening(), 0);
    if i == |c.buf| then (c.(buf := []), true)
    else (c.(state := 1, buf := c.buf[i + |s.Opening()|..]), false)
  }

  function BodyTurn(s: Setup, c: Config): (r: (Config, bool))
    ensures r.1 || (|r.0.buf| < |c.buf| && r.0.failed == c.failed && r.0.state == 4)
    ensures r.1 ==> r.0.state == c.state
  {
    var d := s.Delimiter();
    var i := Find(c.buf, d, 0);
    if i < |c.buf| then
      (c.(state := 4, sent := [], parts := c.parts + [Part(c.file, c.sent + c.buf[..i])], buf := c.buf[i + |d|..]), false)
    else if |c.buf| <= |d| then (c, true)
    else
      var n := |c.buf| - |d|;
      (c.(sent := c.sent + c.buf[..n], buf := c.buf[n..]), true)
  }

  function BoundaryTurn(c: Config): (r: (Config, bool))
    ensures r.1 || (|r.0.buf| < |c.buf| && r.0.failed == c.failed)
    ensures r.0.state == c.state || (!r.1 && r.0.state == 1)
  {
    if |c.buf| < 2 then (c, true)
    else if c.buf[..2] == CRLF then (c.(state := 1, buf := c.buf[2..]), false)
    else if c.buf[..2] == DASH then (c.(valid := true, buf := []), false)
    else (c, true)
  }

  /** One turn of the loop over the states, and whether the call returns after it. */
  function Turn(s: Setup, c: Config): (r: (Config, bool))
    requires c.buf != []
    ensures r.1 || |r.0.buf| < |c.buf| || (|r.0.buf| == |c.buf| && c.state == 1 && r.0.state == 2)
    ensures r.1 || r.0.failed == c.failed
  {
    match c.state
    case 0 => OpeningTurn(s, c)
    case 1 => (c.(state := 2, file := []), false)
    case 2 => if Find(c.buf, CRLF, 0) > HEADER_MAX_LENGTH then (c.(failed := true), true) else HeaderTurn(s, c)
    case 3 => BodyTurn(s, c)
    case _ => BoundaryTurn(c)
  }

  /** What one call of `parse` makes of a configuration with its new data already appended. */
  function Parsed(s: Setup, c: Config): Config
    decreases |c.buf|, if c.state == 1 then 1 else 0
  {
    if c.buf == [] then c
    else
      var (c', done) := Turn(s, c);
      if done then c' else Parsed(s, c')
  }

  lemma OpeningCases(s: Setup, c: Config)
    ensures var i, n := Find(c.buf, s.Opening(), 0), |s.Opening()|;
      && (i == |c.buf| ==> OpeningTurn(s, c) == (c.(buf := c.buf[i..]), true))
      && (i < |c.buf| ==> i + n <= |c.buf|
                          && OpeningTurn(s, c) == (c.(state := 1, buf := c.buf[i..][n..]), false))
  {
    hide Find;
    var i, n := Find(c.buf, s.Opening(), 0), |s.Opening()|;
    if i < |c.buf| {
      assert c.buf[i..][n..] == c.buf[i + n..];
    } else {
      assert c.buf[i..] == [];
    }
  }

  lemma BodyCases(s: Setup, c: Config)
    ensures var d, i := s.Delimiter(), Find(c.buf, s.Delimiter(), 0);
      && (|d| > |c.buf| ==> i == |c.buf|)
      && (i < |c.buf| ==> i + |d| <= |c.buf|)
      && (i < |c.buf| ==>
            var part := Part(c.file, c.sent + c.buf[..i]);
            BodyTurn(s, c)
            == (c.(state := 4, sent := [], parts := c.parts + [part], buf := c.buf[i + |d|..]), false))
      && (i == |c.buf| <= |d| ==> BodyTurn(s, c) == (c, true))
      && (i == |c.buf| > |d| ==>
            var n := |c.buf| - |d|;
            BodyTurn(s, c) == (c.(sent := c.sent + c.buf[..n], buf := c.buf[n..]), true))
  {
    hide Find;
    FindRoom(c.buf, s.Delimiter(), 0);
  }

  lemma BoundaryCases(c: Config)
    ensures |c.buf| < 2 ==> BoundaryTurn(c) == (c, true)
    ensures |c.buf| >= 2 ==>
      && (Occurs(c.buf, CRLF, 0) ==> BoundaryTurn(c) == (c.(state := 1, buf := c.buf[2..]), false))
      && (!Occurs(c.buf, CRLF, 0) && Occurs(c.buf, DASH, 0) ==>
            BoundaryTurn(c) == (c.(valid := true, buf := c.buf[2..][|c.buf| - 2..]), false))
      && (!Occurs(c.buf, CRLF, 0) && !Occurs(c.buf, DASH, 0) ==> BoundaryTurn(c) == (c, true))
  {
    OccursFirst(c.buf, CRLF);
    OccursFirst(c.buf, DASH);
    assert |c.buf| >= 2 ==> c.buf[2..][|c.buf| - 2..] == [];
  }

  lemma EnterHeaders(s: Setup, c: Config)
    requires c.state == 2 && c.buf != []
    ensures Turn(s, c)
      == if Find(c.buf, CRLF, 0) > HEADER_MAX_LENGTH then (c.(failed := true), true) else HeaderTurn(s, c)
  {
  }

  lemma HeaderCases(s: Setup, c: Config)
    ensures var i := Find(c.buf, CRLF, 0);
      && (i == |c.buf| ==> HeaderTurn(s, c) == (c, true))
      && (i < |c.buf| ==> i + 2 <= |c.buf|)
      && (i == 0 < |c.buf| ==> HeaderTurn(s, c) == (c.(state := 3, sent := [], buf := c.buf[2..]), false))
      && (0 < i < |c.buf| ==>
            HeaderTurn(s, c) == if !s.accepts(c.buf[..i]) then (c.(valid := false, failed := true), true)
                                else HeaderTurn(s, c.(file := c.file + [c.buf[..i]], buf := c.buf[i + 2..])))
  {
    hide Find;
  }

  // ---------- The parser ----------

  class MultipartFormDataParser {
    const setup: Setup
    var buf: string
    var spos: nat
    var epos: nat
    var state: nat
    var valid: bool
    var file: seq<string>
    var sent: string  // given to the content callback since the header callback
    var parts: seq<Part>  // given to both callbacks before that

    ghost predicate Valid()
      reads this
    {
      spos <= epos <= |buf| && state <= 4
    }

    ghost function View(): Config
      reads this
      requires Valid()
    {
      Config(state, file, sent, parts, buf[spos..epos], valid, false)
    }

    constructor (setup: Setup)
      ensures Valid() && View() == START && this.setup == setup
    {
      this.setup := setup;
      buf, spos, epos, state, valid, file, sent, parts := [], 0, 0, 0, false, [], [], [];
    }

    method BufStartWith(s: string, at: nat) returns (b: bool)
      requires Valid() && spos <= at <= epos
      ensures b == Occurs(buf[spos..epos], s, at - spos)
    {
      if epos - at < |s| {
        return false;
      }
      ghost var there := buf[spos..epos][at - spos..at - spos + |s|];
      var i := 0;
      while i < |s|
        invariant i <= |s|
        invariant forall k | 0 <= k < i :: there[k] == s[k]
      {
        assert there[i] == buf[at + i];
        if buf[at + i] != s[i] {
          return false;
        }
        i := i + 1;
      }
      assert there == s;
      return true;
    }

    method BufFind(s: string) returns (r: nat)
      requires Valid() && s != []
      ensures r == Find(buf[spos..epos], s, 0)
    {
      ghost var view := buf[spos..epos];
      var off := spos;
      while off < epos
        invariant spos <= off <= epos
        invariant forall i | 0 <= i < off - spos :: !Occurs(view, s, i)
      {
        var pos := off;
        while pos < epos && buf[pos] != s[0]
          invariant off <= pos <= epos
          invariant forall i | off <= i < pos :: buf[i] != s[0]
        {
          pos := pos + 1;
        }
        forall i | off - spos <= i < pos - spos ensures !Occurs(view, s, i) {
          assert buf[spos + i] == view[i] != s[0];
          if i + |s| <= |view| { assert view[i..i + |s|][0] == view[i]; }
        }
        if pos == epos {
          return epos - spos;
        }
        if |s| > epos - pos {
          return epos - spos;
        }
        var here := BufStartWith(s, pos);
        if here {
          FindIs(view, s, 0, pos - spos);
          return pos - spos;
        }
        off := pos + 1;
      }
      return epos - spos;
    }

    /** Moves what is left of the buffer to its front, in place. */
    method Compact()
      requires Valid()
      modifies this`buf, this`spos, this`epos
      ensures Valid() && spos == 0 && buf[..epos] == old(buf[spos..epos])
    {
      var remaining := epos - spos;
      ghost var view := buf[spos..epos];
      if remaining > 0 && spos > 0 {
        var i := 0;
        while i < remaining
          invariant i <= remaining && |buf| == |old(buf)| && spos == old(spos) && epos == old(epos)
          invariant forall k | 0 <= k < i :: buf[k] == view[k]
          invariant forall k | i <= k < remaining :: buf[spos + k] == view[k]
        {
          buf := buf[i := buf[spos + i]];
          i := i + 1;
        }
      }
      spos := 0;
      epos := remaining;
      assert buf[..epos] == view;
    }

    method BufAppend(data: string)
      requires Valid()
      modifies this`buf, this`spos, this`epos
      ensures Valid() && View() == old(View()).(buf := old(View()).buf + data)
    {
      ghost var view := buf[spos..epos];
      Compact();
      if epos + |data| > |buf| {
        buf := buf + seq(epos + |data| - |buf|, _ => '\0');
      }
      var i := 0;
      while i < |data|
        invariant i <= |data| && spos == 0 && epos == |view| && epos + |data| <= |buf|
        invariant forall k | 0 <= k < epos :: buf[k] == view[k]
        invariant forall k | 0 <= k < i :: buf[epos + k] == data[k]
      {
        buf := buf[epos + i := data[i]];
        i := i + 1;
      }
      epos := epos + |data|;
      assert buf[spos..epos] == view + data;
    }

    method BufErase(n: nat)
      requires Valid() && n <= epos - spos
      modifies this`spos
      ensures Valid() && View() == old(View()).(buf := old(View()).buf[n..])
      ensures epos - spos == old(epos - spos) - n
    {
      ghost var view := buf[spos..epos];
      spos := spos + n;
      assert buf[spos..epos] == view[n..];
    }

    method BufHead(n: nat) returns (head: string)
      requires Valid() && n <= epos - spos
      ensures head == View().buf[..n]
    {
      head := buf[spos..spos + n];
    }

    /** The case for state 0. */
    method InitialBoundary() returns (done: bool, ok: bool)
      requires Valid() && state == 0 && epos > spos
      modifies this
      ensures Valid() && (View().(failed := !ok), done) == OpeningTurn(setup, old(View()))
    {
      hide Find;
      hide OpeningTurn;
      OpeningCases(setup, View());
      var opening := setup.Opening();
      var pos := BufFind(opening);
      BufErase(pos);
      if |opening| > epos - spos {
        return true, true;
      }
      BufErase(|opening|);
      state := 1;
      return false, true;
    }

    /** The case for state 1. */
    method NewEntry() returns (done: bool, ok: bool)
      requires Valid() && state == 1 && epos > spos
      modifies this
      ensures Valid() && (View().(failed := !ok), done) == Turn(setup, old(View()))
    {
      file := [];
      state := 2;
      return false, true;
    }

    method EndHeaders()
      requires Valid() && epos - spos >= 2
      modifies this
      ensures Valid() && View() == old(View()).(state := 3, sent := [], buf := old(View()).buf[2..])
    {
      sent := [];
      BufErase(2);
      state := 3;
    }

    method TakeHeader(header: string)
      requires Valid() && epos - spos >= |header| + 2
      modifies this
      ensures Valid()
      ensures View() == old(View()).(file := old(file) + [header], buf := old(View()).buf[|header| + 2..])
      ensures epos - spos == old(epos - spos) - |header| - 2 && state == old(state)
    {
      file := file + [header];
      BufErase(|header| + 2);
    }

    /** The case for state 2: reads header lines until the empty one. */
    method Headers() returns (done: bool, ok: bool)
      requires Valid() && state == 2 && epos > spos
      modifies this
      ensures Valid() && (View().(failed := !ok), done) == Turn(setup, old(View()))
    {
      hide Find;
      hide HeaderTurn;
      hide Turn;
      ghost var whole := Turn(setup, View());
      EnterHeaders(setup, View());
      var pos := BufFind(CRLF);
      if pos > HEADER_MAX_LENGTH {
        return true, false;
      }
      HeaderCases(setup, View());
      while pos < epos - spos
        invariant Valid() && state == 2 && pos == Find(View().buf, CRLF, 0)
        invariant epos - spos <= old(epos - spos) && whole == HeaderTurn(setup, View())
        decreases epos - spos
      {
        HeaderCases(setup, View());
        if pos == 0 {
          EndHeaders();
          return false, true;
        }
        var header := BufHead(pos);
        if !setup.accepts(header) {
          valid := false;
          return true, false;
        }
        TakeHeader(header);
        pos := BufFind(CRLF);
      }
      HeaderCases(setup, View());
      return true, true;
    }

    /** The case for state 3. */
    method Body() returns (done: bool, ok: bool)
      requires Valid() && state == 3 && epos > spos
      modifies this
      ensures Valid() && (View().(failed := !ok), done) == BodyTurn(setup, old(View()))
    {
      hide Find;
      hide BodyTurn;
      BodyCases(setup, View());
      var delimiter := setup.Delimiter();
      if |delimiter| > epos - spos {
        return true, true;
      }
      var pos := BufFind(delimiter);
      if pos < epos - spos {
        var data := BufHead(pos);
        parts := parts + [Part(file, sent + data)];
        sent := [];
        BufErase(pos + |delimiter|);
        state := 4;
        return false, true;
      }
      var len := epos - spos - |delimiter|;
      if len > 0 {
        var data := BufHead(len);
        sent := sent + data;
        BufErase(len);
      }
      return true, true;
    }

    /** The case for state 4. */
    method Boundary() returns (done: bool, ok: bool)
      requires Valid() && state == 4 && epos > spos
      modifies this
      ensures Valid() && (View().(failed := !ok), done) == BoundaryTurn(old(View()))
    {
      hide Occurs;
      hide BoundaryTurn;
      BoundaryCases(View());
      if 2 > epos - spos {
        return true, true;
      }
      var next := BufStartWith(CRLF, spos);
      if next {
        BufErase(2);
        state := 1;
        return false, true;
      }
      var last := BufStartWith(DASH, spos);
      if !last {
        return true, true;
      }
      BufErase(2);
      valid := true;
      BufErase(epos - spos);
      return false, true;
    }

    method Parse(data: string) returns (ok: bool)
      requires Valid()
      modifies this
      ensures Valid()
      ensures View().(failed := !ok) == Parsed(setup, old(View()).(buf := old(View()).buf + data))
    {
      hide Find;
      hide OpeningTurn;
      hide HeaderTurn;
      hide BodyTurn;
      hide BoundaryTurn;
      BufAppend(data);
      ghost var c := View();
      while epos > spos
        invariant Valid() && Parsed(setup, c) == Parsed(setup, View())
        decreases epos - spos, if state == 1 then 1 else 0
      {
        var done;
        if state == 1 {
          done, ok := NewEntry();
        } else if state == 0 {
          done, ok := InitialBoundary();
        } else if state == 2 {
          done, ok := Headers();
        } else if state == 3 {
          done, ok := Body();
        } else {
          done, ok := Boundary();
        }
        if done {
          return ok;
        }
      }
      return true;
    }
  }
}
