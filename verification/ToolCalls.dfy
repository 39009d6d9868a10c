/**
 The two scanners of model output: one reads the tool calls between <tool_call> and </tool_call>,
 the other removes the same blocks from what the user sees. Both are proved to cut the text into
 the same pieces, and reading is proved to undo the printing of earlier calls into the prompt.
 */
module ToolCalls {
  import opened Search
  import opened Decimal
  import opened Wrappers

  const START: string := "<tool_call>"
  const END: string := "</tool_call>"

  lemma TagsUnbordered()
    ensures Unbordered(START) && Unbordered(END) && |START| == 11 && |END| == 12
  {
  }

  // ---------- Cutting a text at the blocks ----------

  datatype Piece = Kept(text: string) | Block(body: string) | Unclosed(rest: string)

  function Source(p: Piece): string
  {
    match p
    case Kept(text) => text
    case Block(body) => START + body + END
    case Unclosed(rest) => START + rest
  }

  function Joined(pieces: seq<Piece>): string
  {
    if pieces == [] then [] else Source(pieces[0]) + Joined(pieces[1..])
  }

  /** Kept text and blocks take turns, and each tag stands where it is first met. */
  predicate WellCut(pieces: seq<Piece>)
    decreases |pieces|
  {
    && pieces != [] && pieces[0].Kept? && Avoids(pieces[0].text, START)
    && (|pieces| == 1
        || (|pieces| == 2 && pieces[1].Unclosed? && Avoids(pieces[1].rest, END))
        || (pieces[1].Block? && Avoids(pieces[1].body, END) && WellCut(pieces[2..])))
  }

  /** The pieces up to the end of the first block, and the text behind it. */
  function FirstPieces(text: string): (r: (seq<Piece>, Option<string>))
    ensures r.1.Some? ==> |r.1.value| < |text|
  {
    var start := Find(text, START, 0);
    if start == |text| then ([Kept(text)], None)
    else
      var end := Find(text, END, start + |START|);
      if end == |text| then ([Kept(text[..start]), Unclosed(text[start + |START|..])], None)
      else ([Kept(text[..start]), Block(text[start + |START|..end])], Some(text[end + |END|..]))
  }

  /** The pieces as both scanners meet them. */
  function Cut(text: string): seq<Piece>
    decreases |text|
  {
    var (pieces, rest) := FirstPieces(text);
    pieces + if rest.None? then [] else Cut(rest.value)
  }

  lemma AvoidsBefore(text: string, pat: string, from: nat, to: nat)
    requires pat != [] && from <= to <= |text|
    requires forall i | from <= i < to :: !Occurs(text, pat, i)
    ensures Avoids(text[from..to], pat)
  {
    forall i: nat | i <= to - from ensures !Occurs(text[from..to], pat, i) {
      if i + |pat| <= to - from {
        assert text[from..] == text[from..to] + text[to..];
        OccursAppend(text[from..to], text[to..], pat, i);
        OccursDrop(text, pat, from, i);
      }
    }
  }

  lemma BlockSplit(text: string, start: nat, end: nat)
    requires Occurs(text, START, start) && start + |START| <= end && Occurs(text, END, end)
    ensures text == text[..start] + (START + text[start + |START|..end] + END) + text[end + |END|..]
  {
    hide START;
    hide END;
    var body := text[start + |START|..end];
    assert text[start..end + |END|] == text[start..start + |START|] + body + text[end..end + |END|];
    assert text == text[..start] + text[start..end + |END|] + text[end + |END|..];
  }

  lemma UnclosedSplit(text: string, start: nat)
    requires Occurs(text, START, start)
    ensures text == text[..start] + (START + text[start + |START|..])
  {
    assert text == text[..start] + text[start..start + |START|] + text[start + |START|..];
  }

  /** Every byte of the text is kept text, a block or the unclosed tail, and exactly one of them. */
  lemma {:induction false} CutCovers(text: string)
    ensures Joined(Cut(text)) == text && WellCut(Cut(text))
    decreases |text|
  {
    hide START;
    hide END;
    hide Find;
    hide Avoids;
    TagsUnbordered();
    var start := Find(text, START, 0);
    AvoidsBefore(text, START, 0, start);
    assert text[0..start] == text[..start];
    if start == |text| {
      assert text[..start] == text;
      assert Joined([Kept(text)][1..]) == [];
    } else {
      hide Joined;
      var end := Find(text, END, start + |START|);
      AvoidsBefore(text, END, start + |START|, end);
      var head := Kept(text[..start]);
      if end == |text| {
        UnclosedSplit(text, start);
        var tail := Unclosed(text[start + |START|..]);
        assert text[start + |START|..end] == text[start + |START|..];
        JoinedTwo(head, tail, []);
        assert [head, tail] + [] == [head, tail];
      } else {
        CutCovers(text[end + |END|..]);
        BlockSplit(text, start, end);
        var block := Block(text[start + |START|..end]);
        JoinedTwo(head, block, Cut(text[end + |END|..]));
        assert ([head, block] + Cut(text[end + |END|..]))[2..] == Cut(text[end + |END|..]);
      }
    }
  }

  lemma JoinedTwo(a: Piece, b: Piece, rest: seq<Piece>)
    ensures Joined([a, b] + rest) == Source(a) + Source(b) + Joined(rest)
  {
    hide Joined;
    hide Source;
    assert [a, b] + rest == [a] + ([b] + rest);
    JoinedNext(a, [b] + rest);
    JoinedNext(b, rest);
    Regrouped(Source(a), Source(b), Joined(rest));
  }

  lemma JoinedNext(a: Piece, rest: seq<Piece>)
    ensures Joined([a] + rest) == Source(a) + Joined(rest)
  {
    assert ([a] + rest)[1..] == rest;
  }

  /** There is no other way to cut the text so that each tag stands where it is first met. */
  lemma {:induction false} CutUnique(pieces: seq<Piece>)
    requires WellCut(pieces)
    ensures Cut(Joined(pieces)) == pieces
    decreases |pieces|
  {
    hide START;
    hide END;
    hide Find;
    hide Avoids;
    hide Cut;
    TagsUnbordered();
    var text := pieces[0].text;
    if |pieces| == 1 {
      assert Joined(pieces[1..]) == [] && text + [] == text;
      CutPlain(text);
      assert pieces == [pieces[0]];
    } else {
      var rest := Joined(pieces[2..]);
      assert pieces == [pieces[0], pieces[1]] + pieces[2..];
      JoinedTwo(pieces[0], pieces[1], pieces[2..]);
      if pieces[1].Unclosed? {
        assert rest == [] && text + Source(pieces[1]) + [] == text + START + pieces[1].rest;
        CutUnclosed(text, pieces[1].rest);
      } else {
        var body := pieces[1].body;
        RegroupBlock(text, body, rest);
        CutBlock(text, body, rest);
        CutUnique(pieces[2..]);
      }
    }
  }

  lemma RegroupBlock(text: string, body: string, rest: string)
    ensures text + (START + body + END) + rest == text + START + (body + END + rest)
  {
    hide START;
    hide END;
  }

  lemma NotFound(text: string, pat: string)
    requires pat != [] && Avoids(text, pat)
    ensures Find(text, pat, 0) == |text|
  {
  }

  lemma CutPlain(text: string)
    requires Avoids(text, START)
    ensures Cut(text) == [Kept(text)]
  {
    NotFound(text, START);
  }

  lemma CutUnclosed(text: string, tail: string)
    requires Avoids(text, START) && Avoids(tail, END)
    ensures Cut(text + START + tail) == [Kept(text), Unclosed(tail)]
  {
    hide Find;
    var all := text + START + tail;
    TagsUnbordered();
    FindAfter(text, START, tail);
    FindDrop(all, END, |text| + |START|);
    NotFound(tail, END);
    assert all[|text| + |START|..] == tail && all[..|text|] == text;
  }

  lemma CutBlock(text: string, body: string, rest: string)
    requires Avoids(text, START) && Avoids(body, END)
    ensures Cut(text + START + (body + END + rest)) == [Kept(text), Block(body)] + Cut(rest)
  {
    hide START;
    hide END;
    hide Find;
    hide Occurs;
    hide Cut;
    hide Avoids;
    var all := text + START + (body + END + rest);
    var start, end := |text|, |text| + |START| + |body|;
    TagsUnbordered();
    CutUnfold(all);
    FindRoom(all, START, 0);
    FindAfter(text, START, body + END + rest);
    FindDrop(all, END, start + |START|);
    assert all[start + |START|..] == body + END + rest;
    FindAfter(body, END, rest);
    assert all[..start] == text && all[start + |START|..end] == body && all[end + |END|..] == rest;
  }

  // ---------- What the two scanners take from the pieces ----------

  function Bodies(pieces: seq<Piece>): seq<string>
  {
    if pieces == [] then [] else (if pieces[0].Block? then [pieces[0].body] else []) + Bodies(pieces[1..])
  }

  function KeptText(pieces: seq<Piece>): string
  {
    if pieces == [] then [] else (if pieces[0].Kept? then pieces[0].text else []) + KeptText(pieces[1..])
  }

  lemma CutUnfold(t: string)
    ensures var (pieces, rest) := FirstPieces(t);
      Cut(t) == if rest.None? then pieces else pieces + Cut(rest.value)
  {
    hide FirstPieces;
  }

  /** One turn of either scanning loop. */
  lemma FirstFrom(text: string, pos: nat)
    requires pos <= |text|
    ensures var start := Find(text, START, pos);
      && (start == |text| ==> FirstPieces(text[pos..]) == ([Kept(text[pos..])], None))
      && (start < |text| ==>
        && start + |START| <= |text|
        && var end := Find(text, END, start + |START|);
        && (end == |text| ==>
              FirstPieces(text[pos..]) == ([Kept(text[pos..start]), Unclosed(text[start + |START|..])], None))
        && (end < |text| ==>
          && end + |END| <= |text|
          && var block := Block(text[start + |START|..end]);
          FirstPieces(text[pos..]) == ([Kept(text[pos..start]), block], Some(text[end + |END|..]))))
  {
    hide START;
    hide END;
    hide Find;
    hide Occurs;
    var t := text[pos..];
    TagsUnbordered();
    FindDrop(text, START, pos);
    FindRoom(t, START, 0);
    var s0 := Find(t, START, 0);
    if s0 < |t| {
      var e0 := Find(t, END, s0 + |START|);
      FindRoom(t, END, s0 + |START|);
      SameEnd(text, pos, s0 + |START|);
      SliceDrop(text, pos, s0 + |START|, |t|);
      SliceDrop(text, pos, 0, s0);
      if e0 < |t| {
        SliceDrop(text, pos, s0 + |START|, e0);
        SliceDrop(text, pos, e0 + |END|, |t|);
      }
    }
  }

  lemma SameEnd(text: string, pos: nat, from: nat)
    requires pos + from <= |text|
    ensures Find(text, END, pos + from) == pos + Find(text[pos..], END, from)
  {
    hide END;
    hide Find;
    TagsUnbordered();
    FindDrop(text, END, pos + from);
    FindDrop(text[pos..], END, from);
    SliceDrop(text, pos, from, |text| - pos);
  }

  lemma SliceDrop(text: string, pos: nat, from: nat, to: nat)
    requires pos <= |text| && from <= to <= |text| - pos
    ensures text[pos..][from..to] == text[pos + from..pos + to]
    ensures to == |text| - pos ==> text[pos..][from..] == text[pos + from..]
    ensures from == 0 ==> text[pos..][..to] == text[pos..pos + to]
  {
  }

  lemma OnePiece(a: Piece)
    ensures Bodies([a]) == if a.Block? then [a.body] else []
    ensures KeptText([a]) == if a.Kept? then a.text else []
  {
    assert [a][1..] == [];
    assert Bodies([a]) == (if a.Block? then [a.body] else []) + [];
    assert KeptText([a]) == (if a.Kept? then a.text else []) + [];
  }

  lemma NextPiece(a: Piece, rest: seq<Piece>)
    ensures Bodies([a] + rest) == Bodies([a]) + Bodies(rest)
    ensures KeptText([a] + rest) == KeptText([a]) + KeptText(rest)
  {
    OnePiece(a);
    assert ([a] + rest)[1..] == rest;
  }

  lemma TwoPieces(a: Piece, b: Piece, rest: seq<Piece>)
    ensures Bodies([a, b] + rest) == Bodies([a]) + Bodies([b]) + Bodies(rest)
    ensures KeptText([a, b] + rest) == KeptText([a]) + KeptText([b]) + KeptText(rest)
  {
    hide Bodies;
    hide KeptText;
    assert [a, b] + rest == [a] + ([b] + rest);
    NextPiece(a, [b] + rest);
    NextPiece(b, rest);
    Regrouped(Bodies([a]), Bodies([b]), Bodies(rest));
    Regrouped(KeptText([a]), KeptText([b]), KeptText(rest));
  }

  /** Behind a kept text comes a block: its body is the next one, its text is not kept. */
  lemma BlockNext(text: string, body: string, rest: seq<Piece>)
    ensures Bodies([Kept(text), Block(body)] + rest) == [body] + Bodies(rest)
    ensures KeptText([Kept(text), Block(body)] + rest) == text + KeptText(rest)
  {
    TwoPieces(Kept(text), Block(body), rest);
    OnePiece(Kept(text));
    OnePiece(Block(body));
    assert [] + [body] == [body] && text + [] == text;
  }

  lemma NoBlock(text: string, tail: string)
    ensures Bodies([Kept(text)]) == [] && KeptText([Kept(text)]) == text
    ensures Bodies([Kept(text), Unclosed(tail)]) == [] && KeptText([Kept(text), Unclosed(tail)]) == text
  {
    TwoPieces(Kept(text), Unclosed(tail), []);
    OnePiece(Kept(text));
    OnePiece(Unclosed(tail));
    assert [Kept(text), Unclosed(tail)] + [] == [Kept(text), Unclosed(tail)];
    assert text + [] + [] == text;
  }

  // ---------- White space ----------

  predicate Blank(c: char)
  {
    c == ' ' || c == '\t' || c == '\n' || c == '\r'
  }

  predicate AllBlank(s: string)
  {
    forall i | 0 <= i < |s| :: Blank(s[i])
  }

  function FirstSolid(s: string): (i: nat)
    ensures i <= |s| && (i < |s| ==> !Blank(s[i])) && forall k | 0 <= k < i :: Blank(s[k])
  {
    if s == [] || !Blank(s[0]) then 0
    else
      assert forall k | 0 < k < |s| :: s[k] == s[1..][k - 1];
      1 + FirstSolid(s[1..])
  }

  /** Right behind the last character that is not blank. */
  function EndOfSolid(s: string): (i: nat)
    ensures i <= |s| && (i > 0 ==> !Blank(s[i - 1])) && forall k | i <= k < |s| :: Blank(s[k])
  {
    if s == [] || !Blank(s[|s| - 1]) then |s| else EndOfSolid(s[..|s| - 1])
  }

  function Trim(s: string): string
  {
    var first := FirstSolid(s);
    if first == |s| then [] else
      TrimOrder(s);
      s[first..EndOfSolid(s)]
  }

  lemma TrimOrder(s: string)
    requires FirstSolid(s) < |s|
    ensures FirstSolid(s) < EndOfSolid(s)
  {
  }

  /** Trimming takes away blanks on both sides, all of them and nothing else. */
  lemma TrimIs(before: string, core: string, after: string)
    requires AllBlank(before) && AllBlank(after)
    requires core != [] ==> !Blank(core[0]) && !Blank(core[|core| - 1])
    ensures Trim(before + core + after) == core
  {
    hide FirstSolid;
    hide EndOfSolid;
    var s := before + core + after;
    forall k | 0 <= k < |before| ensures Blank(s[k]) {
      assert s[k] == before[k];
    }
    forall k | |before| + |core| <= k < |s| ensures Blank(s[k]) {
      assert s[k] == after[k - |before| - |core|];
    }
    if core != [] {
      assert s[|before|] == core[0] && s[|before| + |core| - 1] == core[|core| - 1];
      assert s[|before|..|before| + |core|] == core;
    }
  }

  lemma TrimAvoids(s: string, pat: string)
    requires Avoids(s, pat) && pat != []
    ensures Avoids(Trim(s), pat)
  {
    if FirstSolid(s) < |s| {
      TrimOrder(s);
      AvoidsBefore(s, pat, FirstSolid(s), EndOfSolid(s));
    }
  }

  // ---------- Reading the calls ----------

  datatype Json = Object(fields: map<string, Json>) | Text(text: string) | Other(repr: string)

  /** The JSON library: `parse` gives none for a text that is not JSON. */
  datatype Library = Library(parse: string -> Option<Json>, dump: Json -> string)

  datatype ToolCall = ToolCall(id: string, name: string, arguments: string)

  datatype Reading = Ignored | IllTyped | Named(name: string, arguments: Json)

  function Arguments(fields: map<string, Json>, json: Library): Json
  {
    if "arguments" !in fields then Object(map[])
    else
      match fields["arguments"]
      case Object(_) => fields["arguments"]
      case Text(text) => (match json.parse(text) case Some(value) => value case None => Object(map[]))
      case Other(_) => Object(map[])
  }

  /** A name that is there but is not a string makes the library throw. */
  function Read(raw: string, json: Library): Reading
  {
    match json.parse(raw)
    case Some(Object(fields)) =>
      if "name" !in fields then Ignored
      else
        (match fields["name"]
         case Text(name) => if name == "" then Ignored else Named(name, Arguments(fields, json))
         case _ => IllTyped)
    case _ => Ignored
  }

  /** The counter is an atomic int, which wraps around. */
  function Wrap(n: int): int
  {
    (n + 0x8000_0000) % 0x1_0000_0000 - 0x8000_0000
  }

  function CallId(n: int): string
  {
    "call_" + ToString(n)
  }

  datatype Outcome = Calls(calls: seq<ToolCall>, counter: int) | Thrown(counter: int)

  function BodyReading(body: string, json: Library): Reading
  {
    if Trim(body) == [] then Ignored else Read(Trim(body), json)
  }

  function CallsOf(bodies: seq<string>, done: seq<ToolCall>, counter: int, json: Library): Outcome
    decreases |bodies|
  {
    if bodies == [] then Calls(done, counter)
    else
      match BodyReading(bodies[0], json)
      case Ignored => CallsOf(bodies[1..], done, counter, json)
      case IllTyped => Thrown(counter)
      case Named(name, arguments) =>
        var id := Wrap(counter + 1);
        CallsOf(bodies[1..], done + [ToolCall(CallId(id), name, json.dump(arguments))], id, json)
  }

  method ParseQwenToolCalls(text: string, counter: int, json: Library) returns (result: Outcome)
    ensures result == CallsOf(Bodies(Cut(text)), [], counter, json)
  {
    hide START;
    hide END;
    hide Find;
    hide Cut;
    hide FirstPieces;
    hide Bodies;
    hide Trim;
    hide Read;
    hide Wrap;
    hide CallId;
    TagsUnbordered();
    var calls: seq<ToolCall> := [];
    var id := counter;
    var pos := 0;
    assert text[0..] == text;
    while true
      invariant pos <= |text|
      invariant CallsOf(Bodies(Cut(text)), [], counter, json) == CallsOf(Bodies(Cut(text[pos..])), calls, id, json)
      decreases |text| - pos
    {
      var start := Find(text, START, pos);
      FirstFrom(text, pos);
      CutUnfold(text[pos..]);
      if start == |text| {
        NoBlock(text[pos..], []);
        return Calls(calls, id);
      }
      var jsonStart := start + |START|;
      var end := Find(text, END, jsonStart);
      if end == |text| {
        NoBlock(text[pos..start], text[jsonStart..]);
        return Calls(calls, id);
      }
      var body := text[jsonStart..end];
      ghost var later := Bodies(Cut(text[end + |END|..]));
      BlockNext(text[pos..start], body, Cut(text[end + |END|..]));
      assert ([body] + later)[1..] == later;
      var raw := Trim(body);
      pos := end + |END|;
      if raw == [] {
        continue;
      }
      match Read(raw, json)
      case Ignored =>
        continue;
      case IllTyped =>
        return Thrown(id);
      case Named(name, arguments) =>
        id := Wrap(id + 1);
        calls := calls + [ToolCall(CallId(id), name, json.dump(arguments))];
    }
  }

  // ---------- What a body says ----------

  /** A text that is not blank and has no blanks around it. */
  predicate Solid(raw: string)
  {
    raw != [] && !Blank(raw[0]) && !Blank(raw[|raw| - 1])
  }

  /**
   The arguments of a call as the text that goes to its tool: the dump of the object, or of what the
   string parses to, or of the empty object.
   */
  predicate ArgumentText(fields: map<string, Json>, json: Library, text: string)
  {
    if "arguments" in fields && fields["arguments"].Object? then text == json.dump(fields["arguments"])
    else if "arguments" in fields && fields["arguments"].Text? && json.parse(fields["arguments"].text) != None then
      text == json.dump(json.parse(fields["arguments"].text).value)
    else text == json.dump(Object(map[]))
  }

  /** The counter after the next one, an int that wraps around. */
  lemma NextId(counter: int)
    requires -0x8000_0000 <= counter < 0x8000_0000
    ensures Wrap(counter + 1) == if counter == 0x7FFF_FFFF then -0x8000_0000 else counter + 1
  {
  }

  /** A body with a named call in it: that call, with the next id and its own arguments, then the rest. */
  lemma NamedCallRead(before: string, raw: string, after: string, bodies: seq<string>, done: seq<ToolCall>,
                      counter: int, json: Library, fields: map<string, Json>, args: string)
    requires AllBlank(before) && AllBlank(after) && Solid(raw)
    requires json.parse(raw) == Some(Object(fields)) && ArgumentText(fields, json, args)
    requires "name" in fields && fields["name"].Text? && fields["name"].text != []
    requires -0x8000_0000 <= counter < 0x8000_0000
    ensures var id := if counter == 0x7FFF_FFFF then -0x8000_0000 else counter + 1;
      CallsOf([before + raw + after] + bodies, done, counter, json)
      == CallsOf(bodies, done + [ToolCall("call_" + ToString(id), fields["name"].text, args)], id, json)
  {
    hide Trim;
    hide Wrap;
    hide ToString;
    TrimIs(before, raw, after);
    NextId(counter);
    assert ([before + raw + after] + bodies)[1..] == bodies;
  }

  /** A body that is no object, or has no name or an empty one, is ignored, as is a blank one. */
  lemma OtherBodyIgnored(before: string, raw: string, after: string, bodies: seq<string>, done: seq<ToolCall>,
                         counter: int, json: Library)
    requires AllBlank(before) && AllBlank(after) && (raw == [] || Solid(raw))
    requires raw != [] ==>
      match json.parse(raw)
      case Some(Object(fields)) => "name" !in fields || fields["name"] == Text([])
      case _ => true
    ensures CallsOf([before + raw + after] + bodies, done, counter, json) == CallsOf(bodies, done, counter, json)
  {
    hide Trim;
    TrimIs(before, raw, after);
    assert ([before + raw + after] + bodies)[1..] == bodies;
  }

  /** A name that is not a string makes the library throw. */
  lemma IllTypedThrows(before: string, raw: string, after: string, bodies: seq<string>, done: seq<ToolCall>,
                       counter: int, json: Library, fields: map<string, Json>)
    requires AllBlank(before) && AllBlank(after) && Solid(raw)
    requires json.parse(raw) == Some(Object(fields)) && "name" in fields && !fields["name"].Text?
    ensures CallsOf([before + raw + after] + bodies, done, counter, json) == Thrown(counter)
  {
    hide Trim;
    TrimIs(before, raw, after);
    assert ([before + raw + after] + bodies)[1..] == bodies;
  }

  /** One call in a text, from the text to the call. */
  lemma CallInText(ahead: string, before: string, raw: string, after: string, behind: string, counter: int,
                   json: Library, fields: map<string, Json>, args: string)
    requires Avoids(ahead, START) && Avoids(before + raw + after, END) && Avoids(behind, START)
    requires AllBlank(before) && AllBlank(after) && Solid(raw)
    requires json.parse(raw) == Some(Object(fields)) && ArgumentText(fields, json, args)
    requires "name" in fields && fields["name"].Text? && fields["name"].text != []
    requires -0x8000_0000 <= counter < 0x7FFF_FFFF
    ensures CallsOf(Bodies(Cut(ahead + ("<tool_call>" + (before + raw + after) + "</tool_call>") + behind)), [], counter, json)
      == Calls([ToolCall("call_" + ToString(counter + 1), fields["name"].text, args)], counter + 1)
  {
    hide Cut;
    hide Bodies;
    hide WellCut;
    hide Joined;
    hide Avoids;
    hide ToString;
    hide ArgumentText;
    hide AllBlank;
    var body := before + raw + after;
    var text := ahead + ("<tool_call>" + body + "</tool_call>") + behind;
    OneBlock(ahead, body, behind);
    assert [body] + [] == [body];
    NamedCallRead(before, raw, after, [], [], counter, json, fields, args);
    assert forall c: ToolCall :: [] + [c] == [c];
  }

  lemma OneBlock(ahead: string, body: string, behind: string)
    requires Avoids(ahead, START) && Avoids(body, END) && Avoids(behind, START)
    ensures Bodies(Cut(ahead + ("<tool_call>" + body + "</tool_call>") + behind)) == [body]
    ensures KeptText(Cut(ahead + ("<tool_call>" + body + "</tool_call>") + behind)) == ahead + behind
  {
    hide Avoids;
    var pieces := [Kept(ahead), Block(body)] + [Kept(behind)];
    assert WellCut(pieces) by { assert pieces[2..] == [Kept(behind)]; }
    hide WellCut;
    assert Joined(pieces) == ahead + ("<tool_call>" + body + "</tool_call>") + behind by {
      JoinedTwo(Kept(ahead), Block(body), [Kept(behind)]);
      assert [Kept(behind)][1..] == [] && behind + [] == behind;
    }
    CutUnique(pieces);
    BlockNext(ahead, body, [Kept(behind)]);
    NoBlock(behind, []);
  }

  // ---------- Removing the residue ----------

  function Without(s: string, at: nat): string
    requires Occurs(s, END, at)
  {
    s[..at] + s[at + |END|..]
  }

  /** Closing tags erased from the left until there is none. */
  function Erased(s: string): (r: string)
    ensures Avoids(r, END) && |r| <= |s|
    decreases |s|
  {
    var at := Find(s, END, 0);
    if at == |s| then s else Erased(Without(s, at))
  }

  function Stripped(text: string): string
  {
    Trim(Erased(KeptText(Cut(text))))
  }

  method EraseClosingTags(s: string) returns (out: string)
    ensures out == Erased(s)
  {
    hide Find;
    out := s;
    while true
      invariant Erased(s) == Erased(out)
      decreases |out|
    {
      var at := Find(out, END, 0);
      if at == |out| {
        break;
      }
      out := out[..at] + out[at + |END|..];
    }
  }

  /** One turn of the loop below. */
  lemma KeptFrom(text: string, pos: nat, out: string)
    requires pos <= |text|
    ensures var start, all := Find(text, START, pos), out + KeptText(Cut(text[pos..]));
      && (start == |text| ==> all == out + text[pos..])
      && (start < |text| ==>
        && start + |START| <= |text|
        && var end := Find(text, END, start + |START|);
        && (end == |text| ==> all == out + text[pos..start])
        && (end < |text| ==>
          && end + |END| <= |text|
          && all == out + text[pos..start] + KeptText(Cut(text[end + |END|..]))))
  {
    hide START;
    hide END;
    hide Find;
    hide Cut;
    hide FirstPieces;
    hide KeptText;
    TagsUnbordered();
    FirstFrom(text, pos);
    CutUnfold(text[pos..]);
    var start := Find(text, START, pos);
    if start == |text| {
      NoBlock(text[pos..], []);
    } else {
      var end := Find(text, END, start + |START|);
      if end == |text| {
        NoBlock(text[pos..start], text[start + |START|..]);
      } else {
        var later := Cut(text[end + |END|..]);
        BlockNext(text[pos..start], text[start + |START|..end], later);
        assert out + (text[pos..start] + KeptText(later)) == out + text[pos..start] + KeptText(later);
      }
    }
  }

  method KeepOutside(text: string) returns (out: string)
    ensures out == KeptText(Cut(text))
  {
    hide START;
    hide END;
    hide Find;
    hide Cut;
    hide KeptText;
    TagsUnbordered();
    out := [];
    var pos := 0;
    assert text[0..] == text && [] + KeptText(Cut(text)) == KeptText(Cut(text));
    while pos < |text|
      invariant pos <= |text|
      invariant KeptText(Cut(text)) == out + KeptText(Cut(text[pos..]))
      decreases |text| - pos
    {
      KeptFrom(text, pos, out);
      var start := Find(text, START, pos);
      if start == |text| {
        out := out + text[pos..];
        return;
      }
      out := out + text[pos..start];
      var end := Find(text, END, start + |START|);
      if end == |text| {
        return;
      }
      pos := end + |END|;
    }
    assert text[|text|..] == [];
    KeptNone();
    assert out + [] == out;
  }

  method StripToolCallResidue(text: string) returns (out: string)
    ensures out == Stripped(text) && Avoids(out, END)
    ensures out != [] ==> !Blank(out[0]) && !Blank(out[|out| - 1])
  {
    hide END;
    hide Avoids;
    hide Erased;
    TagsUnbordered();
    out := KeepOutside(text);
    out := EraseClosingTags(out);
    TrimAvoids(out, END);
    var first := FirstSolid(out);
    if first == |out| {
      return [];
    }
    TrimOrder(out);
    out := out[first..EndOfSolid(out)];
  }

  lemma KeptNone()
    ensures KeptText(Cut([])) == []
  {
    assert Cut([]) == [Kept([])];
    NoBlock([], []);
  }

  /** In whatever order the stray closing tags are erased, the same text is left. */
  lemma {:induction false} ErasureOrderIrrelevant(s: string, at: nat)
    requires Occurs(s, END, at)
    ensures Erased(Without(s, at)) == Erased(s)
    decreases |s|
  {
    hide Find;
    var first := Find(s, END, 0);
    if first != at {
      TagsUnbordered();
      NoOverlap(s, first, at);
      WithoutBoth(s, first, at);
      ErasureOrderIrrelevant(Without(s, first), at - |END|);
      var t := Without(s, at);
      forall i | 0 <= i < first ensures !Occurs(t, END, i) {
        NotEarlier(s, at, i, first);
      }
      FindIs(t, END, 0, first);
    }
  }

  lemma OccursAt(s: string, at: nat, k: nat)
    requires Occurs(s, END, at) && k < |END|
    ensures s[at + k] == END[k]
  {
    assert s[at..at + |END|][k] == s[at + k];
  }

  lemma NoOverlap(s: string, first: nat, at: nat)
    requires Occurs(s, END, first) && Occurs(s, END, at) && first < at
    ensures first + |END| <= at
  {
    hide END;
    TagsUnbordered();
    OccursAt(s, at, 0);
    if at < first + |END| {
      OccursAt(s, first, at - first);
    }
  }

  lemma WithoutBoth(s: string, first: nat, at: nat)
    requires Occurs(s, END, first) && Occurs(s, END, at) && first + |END| <= at
    ensures Occurs(Without(s, first), END, at - |END|) && Occurs(Without(s, at), END, first)
    ensures Without(Without(s, first), at - |END|) == Without(Without(s, at), first)
  {
    hide END;
    hide Without;
    var n := |END|;
    var x, y, z := s[..first], s[first + n..at], s[at + n..];
    TwoTags(s, first, at);
    OccursBetween(x, y + (END + z));
    Regrouped(x, y, END + z);
    OccursBetween(x + y, z);
    assert s == (x + (END + y)) + (END + z) by {
      Regrouped(END, y, END + z);
      Regrouped(x, END + y, END + z);
    }
    OccursBetween(x + (END + y), z);
    Regrouped(END, y, z);
    Regrouped(x, END + y, z);
    OccursBetween(x, y + z);
    Regrouped(x, y, z);
  }

  lemma TwoTags(s: string, first: nat, at: nat)
    requires Occurs(s, END, first) && Occurs(s, END, at) && first + |END| <= at
    ensures at + |END| <= |s|
    ensures s == s[..first] + (END + (s[first + |END|..at] + (END + s[at + |END|..])))
  {
    hide END;
    hide Occurs;
    var n := |END|;
    OneTag(s, first);
    OneTag(s, at);
    var t, k := s[first + n..], at - first - n;
    OccursDrop(s, END, first + n, k);
    OneTag(t, k);
    assert t[..k] == s[first + n..at];
    SuffixOfSuffix(s, first + n, k + n);
    assert t[k + n..] == s[at + n..];
  }

  lemma OneTag(s: string, at: nat)
    requires Occurs(s, END, at)
    ensures at + |END| <= |s| && s == s[..at] + (END + s[at + |END|..])
  {
    hide END;
    assert s[at..at + |END|] == END;
  }

  lemma OccursBetween(x: string, z: string)
    ensures Occurs(x + (END + z), END, |x|) && Without(x + (END + z), |x|) == x + z
  {
    hide END;
    assert (x + (END + z))[|x|..|x| + |END|] == END;
  }

  lemma NotEarlier(s: string, at: nat, i: nat, first: nat)
    requires Occurs(s, END, at) && i < first && first + |END| <= at && !Occurs(s, END, i)
    ensures !Occurs(Without(s, at), END, i)
  {
    assert i + |END| <= |Without(s, at)| ==> Without(s, at)[i..i + |END|] == s[i..i + |END|];
  }

  // ---------- The printer and the round trip ----------

  function CallText(name: string, arguments: string): string
  {
    "{\"name\": \"" + name + "\", \"arguments\": " + arguments + "}"
  }

  function Printed(calls: seq<ToolCall>): string
  {
    if calls == [] then []
    else Printed(calls[..|calls| - 1]) + PrintedCall(calls[|calls| - 1])
  }

  function PrintedCall(call: ToolCall): string
  {
    "<tool_call>\n{\"name\": \"" + call.name + "\", \"arguments\": " + call.arguments + "}\n</tool_call>\n"
  }

  /** The assistant's earlier calls as they are written into the prompt. */
  method PrintToolCalls(calls: seq<ToolCall>) returns (content: string)
    ensures content == Printed(calls)
  {
    content := "";
    for i := 0 to |calls|
      invariant content == Printed(calls[..i])
    {
      assert calls[..i + 1][..i] == calls[..i];
      content := content + ("<tool_call>\n{\"name\": \"" + calls[i].name + "\", \"arguments\": "
      + calls[i].arguments + "}\n</tool_call>\n");
    }
    assert calls[..|calls|] == calls;
  }

  function PrintedBody(call: ToolCall): string
  {
    "\n" + CallText(call.name, call.arguments) + "\n"
  }

  function PrintedBodies(calls: seq<ToolCall>): seq<string>
  {
    seq(|calls|, i requires 0 <= i < |calls| => PrintedBody(calls[i]))
  }

  /** The pieces that the printer put together: blocks with a line feed behind each. */
  function PrintedPieces(before: string, calls: seq<ToolCall>): seq<Piece>
    decreases |calls|
  {
    if calls == [] then [Kept(before)]
    else [Kept(before), Block(PrintedBody(calls[0]))] + PrintedPieces("\n", calls[1..])
  }

  lemma Tags()
    ensures "<tool_call>\n{\"name\": \"" == START + "\n{\"name\": \""
    ensures "}\n</tool_call>\n" == "}\n" + END + "\n"
    ensures "\n" + "{\"name\": \"" == "\n{\"name\": \"" && "}" + "\n" == "}\n"
  {
  }

  lemma RegroupCall(start: string, lf: string, open: string, name: string, between: string, arguments: string,
                    close: string, end: string)
    ensures (start + (lf + open)) + name + between + arguments + ((close + lf) + end + lf)
      == start + (lf + (open + name + between + arguments + close) + lf) + end + lf
  {
  }

  lemma PrintedCallIs(call: ToolCall)
    ensures PrintedCall(call) == START + PrintedBody(call) + END + "\n"
  {
    hide START;
    hide END;
    Tags();
    RegroupCall(START, "\n", "{\"name\": \"", call.name, "\", \"arguments\": ", call.arguments, "}", END);
  }

  lemma PrintedNone()
    ensures Printed([]) == []
  {
  }

  lemma PrintedLast(calls: seq<ToolCall>)
    requires calls != []
    ensures Printed(calls) == Printed(calls[..|calls| - 1]) + PrintedCall(calls[|calls| - 1])
  {
  }

  lemma {:induction false} PrintedFirst(calls: seq<ToolCall>)
    requires calls != []
    ensures Printed(calls) == PrintedCall(calls[0]) + Printed(calls[1..])
    decreases |calls|
  {
    hide PrintedCall;
    hide Printed;
    PrintedNone();
    var n := |calls| - 1;
    PrintedLast(calls);
    if n == 0 {
      assert calls[..0] == [] && calls[1..] == [];
      assert [] + PrintedCall(calls[0]) == PrintedCall(calls[0]) + [];
    } else {
      PrintedFirst(calls[..n]);
      PrintedLast(calls[1..]);
      assert calls[..n][1..] == calls[1..][..n - 1];
      Regrouped(PrintedCall(calls[0]), Printed(calls[1..][..n - 1]), PrintedCall(calls[n]));
    }
  }

  lemma {:induction false} PiecesJoined(before: string, calls: seq<ToolCall>)
    ensures Joined(PrintedPieces(before, calls)) == before + Printed(calls)
    decreases |calls|
  {
    hide START;
    hide END;
    hide PrintedBody;
    hide PrintedCall;
    if calls == [] {
      assert [Kept(before)][1..] == [];
    } else {
      var body := PrintedBody(calls[0]);
      var rest := PrintedPieces("\n", calls[1..]);
      PiecesJoined("\n", calls[1..]);
      assert Joined(PrintedPieces(before, calls)) == before + (START + body + END) + Joined(rest) by {
        hide Joined;
        JoinedTwo(Kept(before), Block(body), rest);
      }
      assert Printed(calls) == START + body + END + "\n" + Printed(calls[1..]) by {
        hide Printed;
        PrintedFirst(calls);
        PrintedCallIs(calls[0]);
      }
      Regroup(before, body, Printed(calls[1..]));
    }
  }

  lemma {:induction false} PiecesBodies(before: string, calls: seq<ToolCall>)
    ensures Bodies(PrintedPieces(before, calls)) == PrintedBodies(calls)
    decreases |calls|
  {
    hide PrintedBody;
    if calls == [] {
      NoBlock(before, []);
    } else {
      PiecesBodies("\n", calls[1..]);
      BlockNext(before, PrintedBody(calls[0]), PrintedPieces("\n", calls[1..]));
      assert PrintedBodies(calls) == [PrintedBody(calls[0])] + PrintedBodies(calls[1..]);
    }
  }

  lemma PiecesOfPrinted(calls: seq<ToolCall>)
    ensures Joined(PrintedPieces([], calls)) == Printed(calls)
    ensures Bodies(PrintedPieces([], calls)) == PrintedBodies(calls)
  {
    PiecesJoined([], calls);
    PiecesBodies([], calls);
    assert [] + Printed(calls) == Printed(calls);
  }

  lemma Regroup(before: string, body: string, rest: string)
    ensures before + (START + body + END) + ("\n" + rest) == before + (START + body + END + "\n" + rest)
  {
  }

  lemma ShortAvoids(s: string)
    requires |s| < |START|
    ensures Avoids(s, START)
  {
  }

  lemma {:induction false} PrintedWellCut(before: string, calls: seq<ToolCall>)
    requires |before| < |START| && forall i | 0 <= i < |calls| :: Avoids(PrintedBody(calls[i]), END)
    ensures WellCut(PrintedPieces(before, calls))
    decreases |calls|
  {
    hide PrintedBody;
    hide Avoids;
    ShortAvoids(before);
    if calls != [] {
      var rest := PrintedPieces("\n", calls[1..]);
      PrintedWellCut("\n", calls[1..]);
      var pieces := PrintedPieces(before, calls);
      assert pieces[2..] == rest && pieces[1] == Block(PrintedBody(calls[0]));
    }
  }

  lemma {:induction false} BodiesAvoid(pieces: seq<Piece>)
    requires WellCut(pieces)
    ensures forall i | 0 <= i < |Bodies(pieces)| :: Avoids(Bodies(pieces)[i], END)
    decreases |pieces|
  {
    hide Avoids;
    hide START;
    hide END;
    if |pieces| == 1 {
      assert pieces == [pieces[0]];
      NoBlock(pieces[0].text, []);
    } else if pieces[1].Unclosed? {
      assert pieces == [pieces[0], pieces[1]];
      NoBlock(pieces[0].text, pieces[1].rest);
    } else {
      assert pieces == [pieces[0], pieces[1]] + pieces[2..];
      BlockNext(pieces[0].text, pieces[1].body, pieces[2..]);
      BodiesAvoid(pieces[2..]);
    }
  }

  /** Scanning the printed blocks returns their bodies if and only if none contains the closing tag. */
  lemma PrintedBodiesFound(calls: seq<ToolCall>)
    ensures Bodies(Cut(Printed(calls))) == PrintedBodies(calls)
      <==> forall i | 0 <= i < |calls| :: Avoids(PrintedBody(calls[i]), END)
  {
    hide START;
    hide END;
    hide PrintedBody;
    hide Avoids;
    hide Cut;
    hide Bodies;
    hide Printed;
    hide WellCut;
    hide PrintedPieces;
    hide Joined;
    TagsUnbordered();
    var pieces := PrintedPieces([], calls);
    PiecesOfPrinted(calls);
    if forall i | 0 <= i < |calls| :: Avoids(PrintedBody(calls[i]), END) {
      PrintedWellCut([], calls);
      CutUnique(pieces);
    }
    CutCovers(Printed(calls));
    BodiesAvoid(Cut(Printed(calls)));
    assert forall i | 0 <= i < |calls| :: PrintedBodies(calls)[i] == PrintedBody(calls[i]);
  }

  lemma TrimPrintedBody(call: ToolCall)
    ensures Trim(PrintedBody(call)) == CallText(call.name, call.arguments) != []
  {
    var core := CallText(call.name, call.arguments);
    assert core[0] == '{' && core[|core| - 1] == '}';
    TrimIs("\n", core, "\n");
  }

  /** The text printed for a call is JSON that says the same; the printer does not escape the name. */
  predicate SpeltOut(call: ToolCall, json: Library)
  {
    && Avoids(PrintedBody(call), END)
    && call.name != []
    && match json.parse("{\"name\": \"" + call.name + "\", \"arguments\": " + call.arguments + "}")
       case Some(Object(fields)) =>
         "name" in fields && fields["name"] == Text(call.name) && ArgumentText(fields, json, call.arguments)
       case _ => false
  }

  lemma SpeltRead(call: ToolCall, json: Library)
    requires SpeltOut(call, json)
    ensures var reading := BodyReading(PrintedBody(call), json);
      reading.Named? && reading.name == call.name && json.dump(reading.arguments) == call.arguments
  {
    hide Trim;
    hide Avoids;
    hide PrintedBody;
    TrimPrintedBody(call);
  }

  function Renumbered(calls: seq<ToolCall>, counter: int): seq<ToolCall>
  {
    seq(|calls|, i requires 0 <= i < |calls| => calls[i].(id := CallId(Wrap(counter + 1 + i))))
  }

  lemma WrapWrap(n: int, k: int)
    ensures Wrap(Wrap(n) + k) == Wrap(n + k)
  {
    var q := (n + 0x8000_0000) / 0x1_0000_0000;
    assert Wrap(n) == n - q * 0x1_0000_0000;
    WrapShift(n + k, -q);
  }

  lemma {:induction false} WrapShift(n: int, q: int)
    ensures Wrap(n + q * 0x1_0000_0000) == Wrap(n)
    decreases if q < 0 then -q else q
  {
    if q > 0 {
      WrapShift(n, q - 1);
    } else if q < 0 {
      WrapShift(n, q + 1);
    }
  }

  lemma {:induction false} ReadAll(calls: seq<ToolCall>, done: seq<ToolCall>, counter: int, from: int, json: Library)
    requires forall i | 0 <= i < |calls| :: SpeltOut(calls[i], json)
    requires counter == from || counter == Wrap(from)
    ensures CallsOf(PrintedBodies(calls), done, counter, json)
      == Calls(done + Renumbered(calls, from), if calls == [] then counter else Wrap(from + |calls|))
    decreases |calls|
  {
    hide Wrap;
    hide CallId;
    hide PrintedBody;
    hide SpeltOut;
    hide CallsOf;
    if calls == [] {
      CallsOfNone(done, counter, json);
      assert done + Renumbered(calls, from) == done;
    } else {
      var call := calls[0];
      WrapWrap(from, 1);
      var first := call.(id := CallId(Wrap(from + 1)));
      assert PrintedBodies(calls) == [PrintedBody(call)] + PrintedBodies(calls[1..]);
      ReadNext(call, PrintedBodies(calls[1..]), done, counter, json);
      ReadAll(calls[1..], done + [first], Wrap(from + 1), from + 1, json);
      RenumberedFirst(done, calls, from);
    }
  }

  lemma CallsOfNone(done: seq<ToolCall>, counter: int, json: Library)
    ensures CallsOf([], done, counter, json) == Calls(done, counter)
  {
  }

  lemma ReadNext(call: ToolCall, bodies: seq<string>, done: seq<ToolCall>, counter: int, json: Library)
    requires SpeltOut(call, json)
    ensures CallsOf([PrintedBody(call)] + bodies, done, counter, json)
      == CallsOf(bodies, done + [call.(id := CallId(Wrap(counter + 1)))], Wrap(counter + 1), json)
  {
    hide SpeltOut;
    hide BodyReading;
    hide Wrap;
    hide CallId;
    hide PrintedBody;
    SpeltRead(call, json);
    assert ([PrintedBody(call)] + bodies)[1..] == bodies;
  }

  lemma RenumberedFirst(done: seq<ToolCall>, calls: seq<ToolCall>, from: int)
    requires calls != []
    ensures done + [calls[0].(id := CallId(Wrap(from + 1)))] + Renumbered(calls[1..], from + 1)
         == done + Renumbered(calls, from)
  {
    hide Wrap;
    hide CallId;
  }

  /** Reading the printed calls returns the same calls in the same order, with new ids. */
  lemma RoundTrip(calls: seq<ToolCall>, counter: int, json: Library)
    requires forall i | 0 <= i < |calls| :: SpeltOut(calls[i], json)
    ensures CallsOf(Bodies(Cut(Printed(calls))), [], counter, json)
      == Calls(Renumbered(calls, counter), if calls == [] then counter else Wrap(counter + |calls|))
  {
    hide Cut;
    PrintedBodiesFound(calls);
    ReadAll(calls, [], counter, counter, json);
    assert [] + Renumbered(calls, counter) == Renumbered(calls, counter);
  }

  /** The ids of calls read one after the other differ, until the counter has gone all the way around. */
  lemma IdsDistinct(counter: int, i: nat, j: nat)
    requires i < j < i + 0x1_0000_0000
    ensures CallId(Wrap(counter + 1 + i)) != CallId(Wrap(counter + 1 + j))
  {
    var a, b := Wrap(counter + 1 + i), Wrap(counter + 1 + j);
    assert a != b;
    ToStringInjective(a, b);
    assert CallId(a)[5..] == ToString(a) && CallId(b)[5..] == ToString(b);
  }

  lemma ToStringInjective(a: int, b: int)
    requires a != b
    ensures ToString(a) != ToString(b)
  {
    ValuePrint(if a < 0 then -a else a);
    ValuePrint(if b < 0 then -b else b);
    if (a < 0) == (b < 0) {
      assert a < 0 ==> ToString(a)[1..] == Print(-a) && ToString(b)[1..] == Print(-b);
    } else {
      var n := if a < 0 then b else a;
      assert IsDigit(Print(n)[0]);
    }
  }

  predicate Readable(calls: seq<ToolCall>)
  {
    forall i | 0 <= i < |calls| :: Avoids(PrintedBody(calls[i]), END)
  }

  /** What the parser reads in full, the user never sees: of printed calls nothing is left. */
  lemma PrintedLeavesNothing(calls: seq<ToolCall>)
    requires Readable(calls)
    ensures Stripped(Printed(calls)) == []
  {
    hide START;
    hide END;
    hide Cut;
    hide Find;
    hide PrintedBody;
    hide Printed;
    hide WellCut;
    hide PrintedPieces;
    hide Joined;
    hide KeptText;
    hide Avoids;
    hide AllBlank;
    hide Trim;
    hide Erased;
    TagsUnbordered();
    var pieces := PrintedPieces([], calls);
    PiecesOfPrinted(calls);
    PrintedWellCut([], calls);
    CutUnique(pieces);
    assert AllBlank([]) by { BlankNone(); }
    KeptBlank([], calls);
    BlankStripped(KeptText(pieces));
  }

  lemma BlankNone()
    ensures AllBlank([])
  {
  }

  lemma BlankStripped(s: string)
    requires AllBlank(s)
    ensures Trim(Erased(s)) == []
  {
    hide Find;
    BlankAvoids(s);
    NotFound(s, END);
    assert [] + [] + s == s;
    TrimIs([], [], s);
  }

  lemma BlankAvoids(s: string)
    requires AllBlank(s)
    ensures Avoids(s, END)
  {
    forall i: nat | i <= |s| ensures !Occurs(s, END, i) {
      assert i + |END| <= |s| ==> s[i..i + |END|][0] == s[i];
    }
  }

  lemma {:induction false} KeptBlank(before: string, calls: seq<ToolCall>)
    requires AllBlank(before)
    ensures AllBlank(KeptText(PrintedPieces(before, calls)))
    decreases |calls|
  {
    hide PrintedBody;
    if calls == [] {
      NoBlock(before, []);
    } else {
      KeptBlank("\n", calls[1..]);
      BlockNext(before, PrintedBody(calls[0]), PrintedPieces("\n", calls[1..]));
    }
  }

  lemma PaddedAvoids(before: string, core: string, after: string, pat: string)
    requires AllBlank(before) && AllBlank(after) && Avoids(core, pat)
    requires pat != [] && forall k | 0 <= k < |pat| :: !Blank(pat[k])
    ensures Avoids(before + core + after, pat)
  {
    var s := before + core + after;
    forall i: nat | i <= |s| ensures !Occurs(s, pat, i) {
      if i + |pat| <= |s| && s[i..i + |pat|] == pat {
        assert s[i] == pat[0] && s[i + |pat| - 1] == pat[|pat| - 1];
        assert |before| <= i && i + |pat| <= |before| + |core|;
        assert core[i - |before|..i - |before| + |pat|] == pat;
        assert Occurs(core, pat, i - |before|);
      }
    }
  }

  lemma TagsSolid()
    ensures START != [] && END != [] && (forall k | 0 <= k < |START| :: !Blank(START[k]))
    ensures forall k | 0 <= k < |END| :: !Blank(END[k])
  {
  }

  /** Text without either tag only loses its surrounding blanks. */
  lemma PlainTextKept(text: string)
    requires Avoids(text, START) && Avoids(text, END)
    ensures Stripped(text) == Trim(text)
  {
    NotFound(text, START);
    NotFound(text, END);
    NoBlock(text, []);
  }

  /** So of a text between blanks all of it is left. */
  lemma CoreKept(before: string, core: string, after: string)
    requires AllBlank(before) && AllBlank(after) && Avoids(core, START) && Avoids(core, END)
    requires core == [] || Solid(core)
    ensures Stripped(before + core + after) == core
  {
    hide START;
    hide END;
    hide Avoids;
    hide AllBlank;
    TagsSolid();
    PaddedAvoids(before, core, after, START);
    PaddedAvoids(before, core, after, END);
    PlainTextKept(before + core + after);
    TrimIs(before, core, after);
  }

  /** And of a text with a block in it, what stands around the block. */
  lemma BlockRemoved(ahead: string, body: string, behind: string)
    requires Avoids(ahead, START) && Avoids(body, END) && Avoids(behind, START) && Avoids(ahead + behind, END)
    ensures Stripped(ahead + ("<tool_call>" + body + "</tool_call>") + behind) == Trim(ahead + behind)
  {
    hide Avoids;
    hide Cut;
    hide KeptText;
    OneBlock(ahead, body, behind);
    NotFound(ahead + behind, END);
  }
}
