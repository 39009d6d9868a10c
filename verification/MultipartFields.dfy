/**
 What the multipart parser makes of the header lines of a part: name, filename and content type. The
 serialiser writes them as they are, so they come back only if they do not look like parameters.
 */
module MultipartFields {
  import opened Search
  import opened Decimal
  import opened Separators
  import opened Splitting
  import opened Wrappers
  import opened MultipartItems

  datatype FileInfo = FileInfo(name: string, filename: string, contentType: string)

  const NO_FILE: FileInfo := FileInfo([], [], [])

  // ---------- Reading a header line ----------

  function Lower(c: char): char
  {
    if 'A' <= c <= 'Z' then (c as int + 32) as char else c
  }

  /** `prefix` is in lower case. */
  predicate StartsWith(line: string, prefix: string)
  {
    |line| >= |prefix| && forall i | 0 <= i < |prefix| :: Lower(line[i]) == prefix[i]
  }

  /** Upper and lower case of the letters are the same, and nothing else is. */
  lemma LettersAre(c: char, p: char)
    requires !('A' <= p <= 'Z')
    ensures Lower(c) == p <==> c == p || ('a' <= p <= 'z' && c as int + 32 == p as int)
  {
  }

  lemma StartsWithIs(head: string, rest: string, prefix: string)
    requires |head| == |prefix| && forall i | 0 <= i < |prefix| :: !('A' <= prefix[i] <= 'Z')
    ensures StartsWith(head + rest, prefix) <==>
      forall i | 0 <= i < |prefix| ::
        head[i] == prefix[i] || ('a' <= prefix[i] <= 'z' && head[i] as int + 32 == prefix[i] as int)
  {
    hide Lower;
    forall i | 0 <= i < |prefix|
      ensures Lower((head + rest)[i]) == prefix[i] <==>
        head[i] == prefix[i] || ('a' <= prefix[i] <= 'z' && head[i] as int + 32 == prefix[i] as int)
    {
      LettersAre(head[i], prefix[i]);
    }
  }

  function Unquoted(s: string): string
  {
    if |s| >= 2 && s[0] == '"' && s[|s| - 1] == '"' then s[1..|s| - 1] else s
  }

  datatype Param = Param(key: string, value: string)

  /** The first piece around equality signs is the key, the last one behind it the value. */
  function ParamOf(kv: string): Option<Param>
  {
    var pieces := Pieces(kv, '=');
    if pieces == [] then None
    else Some(Param(Unquoted(pieces[0]), if |pieces| == 1 then [] else Unquoted(pieces[|pieces| - 1])))
  }

  /** The parameters in order; a text that has been there already is passed over. */
  function ParamsOf(kvs: seq<string>, cache: set<string>): seq<Param>
  {
    if kvs == [] then []
    else if kvs[0] in cache then ParamsOf(kvs[1..], cache)
    else
      (match ParamOf(kvs[0]) case Some(p) => [p] case None => []) + ParamsOf(kvs[1..], cache + {kvs[0]})
  }

  function Lookup(params: seq<Param>, key: string): Option<string>
  {
    if params == [] then None
    else if params[0].key == key then Some(params[0].value)
    else Lookup(params[1..], key)
  }

  /** What stands behind `form-data;`, if the line is a Content-Disposition of that kind. */
  function DispositionText(line: string): Option<string>
  {
    if !StartsWith(line, "content-disposition:") then None
    else
      var kind := SkipSpace(line[20..]);
      if !StartsWith(kind, "form-data;") then None
      else
        var text := SkipSpace(kind[10..]);
        if exists i :: 0 <= i < |text| && (text[i] == '\n' || text[i] == '\r') then None else Some(text)
  }

  /** None for a line that is refused. `star` decodes an extended filename (RFC 5987) or refuses it. */
  function ReadDisposition(text: string, file: FileInfo, star: string -> Option<string>): Option<FileInfo>
  {
    var params := ParamsOf(Pieces(text, ';'), {});
    match Lookup(params, "name")
    case None => None
    case Some(name) =>
      var filename := match Lookup(params, "filename") case Some(f) => f case None => file.filename;
      match Lookup(params, "filename*")
      case None => Some(file.(name := name, filename := filename))
      case Some(coded) =>
        match star(coded)
        case None => None
        case Some(decoded) => Some(file.(name := name, filename := decoded))
  }

  function ReadLine(line: string, file: FileInfo, star: string -> Option<string>): Option<FileInfo>
  {
    if StartsWith(line, "content-type:") then Some(file.(contentType := Trim(line[13..])))
    else
      match DispositionText(line)
      case None => Some(file)
      case Some(text) => ReadDisposition(text, file, star)
  }

  function ReadLines(lines: seq<string>, file: FileInfo, star: string -> Option<string>): Option<FileInfo>
    decreases |lines|
  {
    if lines == [] then Some(file)
    else
      match ReadLine(lines[0], file, star)
      case None => None
      case Some(next) => ReadLines(lines[1..], next, star)
  }

  /** The loop over the pieces of one parameter. */
  method ReadParam(kv: string) returns (param: Option<Param>)
    requires kv != []
    ensures param == ParamOf(kv)
  {
    hide Pieces;
    var pieces := Split(kv, '=');
    var key, val := [], [];
    for k := 0 to |pieces|
      invariant key == (if k == 0 then [] else pieces[0]) && val == if k < 2 then [] else pieces[k - 1]
    {
      if key == [] {
        key := pieces[k];
      } else {
        val := pieces[k];
      }
    }
    return if key == [] then None else Some(Param(Unquoted(key), Unquoted(val)));
  }

  /** The loop over the parameters. */
  method ParseDispositionParams(text: string) returns (params: seq<Param>)
    ensures params == ParamsOf(Pieces(text, ';'), {})
  {
    hide Pieces;
    hide ParamOf;
    params := [];
    if text == [] {
      NoPieces(';');
      return;
    }
    var kvs := Split(text, ';');
    var cache: set<string> := {};
    var i := 0;
    assert kvs[0..] == kvs && [] + ParamsOf(kvs, {}) == ParamsOf(kvs, {});
    while i < |kvs|
      invariant i <= |kvs| && ParamsOf(kvs, {}) == params + ParamsOf(kvs[i..], cache)
    {
      ParamsNext(params, kvs, i, cache);
      if kvs[i] !in cache {
        var param := ReadParam(kvs[i]);
        cache := cache + {kvs[i]};
        if param.Some? {
          params := params + [param.value];
        }
      }
      i := i + 1;
    }
    assert kvs[i..] == [];
  }

  lemma ParamsNext(params: seq<Param>, kvs: seq<string>, i: nat, cache: set<string>)
    requires i < |kvs|
    ensures params + ParamsOf(kvs[i..], cache) ==
      if kvs[i] in cache then params + ParamsOf(kvs[i + 1..], cache)
      else
        var rest := ParamsOf(kvs[i + 1..], cache + {kvs[i]});
        match ParamOf(kvs[i]) case Some(p) => params + [p] + rest case None => params + rest
  {
    hide ParamOf;
    assert kvs[i..][1..] == kvs[i + 1..];
  }

  lemma NoPieces(sep: char)
    ensures Pieces([], sep) == []
  {
  }

  // ---------- What pieces cannot contain ----------

  predicate Without(s: string, c: char)
  {
    forall i | 0 <= i < |s| :: s[i] != c
  }

  lemma {:induction false} TrimWithout(s: string, c: char)
    requires Without(s, c)
    ensures Without(Trim(s), c)
  {
    TrimLeftWithout(s, c);
    TrimRightWithout(TrimLeft(s), c);
  }

  lemma {:induction false} TrimLeftWithout(s: string, c: char)
    requires Without(s, c)
    ensures Without(TrimLeft(s), c)
  {
    if s != [] && IsBlank(s[0]) {
      TrimLeftWithout(s[1..], c);
    }
  }

  lemma {:induction false} TrimRightWithout(s: string, c: char)
    requires Without(s, c)
    ensures Without(TrimRight(s), c)
    decreases |s|
  {
    if s != [] && IsBlank(s[|s| - 1]) {
      TrimRightWithout(s[..|s| - 1], c);
    }
  }

  /** No piece contains the separator, nor anything else that the text does not contain. */
  lemma {:induction false} PiecesWithout(s: string, sep: char, c: char)
    requires c == sep || Without(s, c)
    ensures forall i | 0 <= i < |Pieces(s, sep)| :: Without(Pieces(s, sep)[i], c)
    decreases |s|
  {
    hide Trim;
    var n := Find(s, [sep], 0);
    forall i | 0 <= i < n ensures s[i] != sep {
      assert !Occurs(s, [sep], i);
      assert s[i..i + 1] == [s[i]];
    }
    assert Without(s[..n], c);
    TrimWithout(s[..n], c);
    if n < |s| {
      PiecesWithout(s[n + 1..], sep, c);
    }
  }

  lemma ParamWithout(kv: string, c: char)
    requires c == '=' || Without(kv, c)
    ensures ParamOf(kv).Some? ==> Without(ParamOf(kv).value.key, c) && Without(ParamOf(kv).value.value, c)
  {
    hide Pieces;
    PiecesWithout(kv, '=', c);
  }

  predicate ParamClear(p: Param, c: char)
  {
    Without(p.key, c) && Without(p.value, c)
  }

  predicate AllClear(params: seq<Param>, c: char)
  {
    forall i | 0 <= i < |params| :: ParamClear(params[i], c)
  }

  lemma {:induction false} ParamsWithout(kvs: seq<string>, cache: set<string>, c: char)
    requires c == '=' || forall i | 0 <= i < |kvs| :: Without(kvs[i], c)
    ensures AllClear(ParamsOf(kvs, cache), c)
    decreases |kvs|
  {
    hide ParamOf;
    hide Without;
    if kvs != [] {
      var rest := kvs[1..];
      assert forall i | 0 <= i < |rest| :: rest[i] == kvs[i + 1];
      ParamWithout(kvs[0], c);
      ParamsWithout(rest, cache, c);
      ParamsWithout(rest, cache + {kvs[0]}, c);
    }
  }

  lemma {:induction false} LookupWithout(params: seq<Param>, key: string, c: char)
    requires AllClear(params, c)
    ensures Lookup(params, key).Some? ==> Without(Lookup(params, key).value, c) && Without(key, c)
  {
    hide Without;
    if params != [] && params[0].key != key {
      LookupWithout(params[1..], key, c);
    }
  }

  /** A value that has been read contains neither separator, nor anything that the text does not contain. */
  lemma ValueWithout(text: string, key: string, c: char)
    requires c == ';' || c == '=' || Without(text, c)
    ensures var found := Lookup(ParamsOf(Pieces(text, ';'), {}), key);
      found.Some? ==> Without(found.value, c) && Without(key, c)
  {
    hide Pieces;
    hide Without;
    if c != '=' {
      PiecesWithout(text, ';', c);
    }
    ParamsWithout(Pieces(text, ';'), {}, c);
    LookupWithout(ParamsOf(Pieces(text, ';'), {}), key, c);
  }

  // ---------- Reading what the serialiser wrote ----------

  /** Nothing that is a separator or ends a line. */
  predicate Plain(s: string)
  {
    Without(s, ';') && Without(s, '=') && Without(s, '\r') && Without(s, '\n')
  }

  lemma QuotedParam(key: string, value: string)
    requires Plain(key) && Plain(value) && key != [] && key[0] != '"'
    requires !IsBlank(key[0]) && !IsBlank(key[|key| - 1])
    ensures ParamOf(key + "=" + ("\"" + value + "\"")) == Some(Param(key, value))
  {
    hide Pieces;
    hide Trim;
    var quoted := "\"" + value + "\"";
    assert quoted[0] == '"' && quoted[|quoted| - 1] == '"' && quoted[1..|quoted| - 1] == value;
    TrimIs([], key, []);
    TrimIs([], quoted, []);
    assert [] + key + [] == key && [] + quoted + [] == quoted;
    forall i | 0 <= i < |quoted| ensures quoted[i] != '=' {
      assert 1 <= i < |quoted| - 1 ==> quoted[i] == value[i - 1];
    }
    PiecesStep(key, '=', quoted);
    PiecesStep(quoted, '=', []);
    assert Pieces(key + "=" + quoted, '=') == [key] + [quoted];
  }

  function QuotedText(key: string, value: string): string
  {
    key + "=" + ("\"" + value + "\"")
  }

  lemma QuotedTrim(key: string, value: string, blank: string)
    requires key != [] && !IsBlank(key[0]) && AllBlank(blank)
    ensures Trim(blank + QuotedText(key, value)) == QuotedText(key, value) != []
  {
    hide Trim;
    var t := QuotedText(key, value);
    assert t[0] == key[0] && t[|t| - 1] == '"';
    TrimIs(blank, t, []);
    assert blank + t + [] == blank + t;
  }

  lemma QuotedWithout(key: string, value: string, c: char)
    requires Without(key, c) && Without(value, c) && c != '=' && c != '"'
    ensures Without(QuotedText(key, value), c)
  {
  }

  /** The parameters of a printed disposition, with or without a filename. */
  lemma PrintedParams(name: string, filename: string)
    requires Plain(name) && Plain(filename)
    ensures ParamsOf(Pieces(QuotedText("name", name), ';'), {}) == [Param("name", name)]
    ensures ParamsOf(Pieces(QuotedText("name", name) + ";" + (" " + QuotedText("filename", filename)), ';'), {})
         == [Param("name", name), Param("filename", filename)]
  {
    hide Pieces;
    hide Trim;
    hide ParamsOf;
    hide ParamOf;
    var a, b := QuotedText("name", name), QuotedText("filename", filename);
    QuotedWithout("name", name, ';');
    QuotedWithout("filename", filename, ';');
    QuotedTrim("name", name, []);
    QuotedTrim("filename", filename, " ");
    assert [] + a == a;
    PiecesStep(a, ';', " " + b);
    PiecesStep(" " + b, ';', []);
    QuotedParam("name", name);
    QuotedParam("filename", filename);
    assert a[0] == 'n' && b[0] == 'f';
    TwoParams(a, b, Param("name", name), Param("filename", filename));
  }

  lemma TwoParams(a: string, b: string, p: Param, q: Param)
    requires a != b && ParamOf(a) == Some(p) && ParamOf(b) == Some(q)
    ensures ParamsOf([a], {}) == [p] && ParamsOf([a] + [b], {}) == [p, q]
  {
    hide ParamOf;
    assert [a][1..] == [] && ([a] + [b])[1..] == [b] && [b][1..] == [];
    assert ParamsOf([b], {} + {a}) == [q] + ParamsOf([], {} + {a} + {b}) == [q];
    assert [p] + [q] == [p, q];
  }

  lemma DispositionIs(item: Item)
    ensures Disposition(item) == "Content-Disposition: form-data; " +
      if item.filename == [] then QuotedText("name", item.name)
      else QuotedText("name", item.name) + ";" + (" " + QuotedText("filename", item.filename))
  {
    var head := "Content-Disposition: form-data; ";
    assert "Content-Disposition: form-data; name=\"" == head + "name" + "=" + "\"";
    assert "; filename=\"" == ";" + " " + "filename" + "=" + "\"";
    RegroupNamed(head, item.name, item.filename);
  }

  lemma RegroupNamed(head: string, name: string, filename: string)
    ensures head + "name" + "=" + "\"" + name + "\"" + [] == head + QuotedText("name", name)
    ensures head + "name" + "=" + "\"" + name + "\"" + (";" + " " + "filename" + "=" + "\"" + filename + "\"")
         == head + (QuotedText("name", name) + ";" + (" " + QuotedText("filename", filename)))
  {
  }

  lemma HeadRead(text: string)
    requires text != [] && !IsSpace(text[0])
    ensures var line := "Content-Disposition: form-data; " + text;
      && !StartsWith(line, "content-type:")
      && DispositionText(line) == if Without(text, '\r') && Without(text, '\n') then Some(text) else None
  {
    var line, kind := "Content-Disposition: form-data; " + text, "form-data; " + text;
    NameRead(kind);
    assert line == "Content-Disposition: " + kind;
    assert SkipSpace(line[20..]) == kind by { SkipSpaceIs(" ", kind); }
    KindRead(text);
    assert SkipSpace(kind[10..]) == text by { SkipSpaceIs(" ", text); }
    hide StartsWith;
    hide SkipSpace;
  }

  lemma NameRead(kind: string)
    ensures var line := "Content-Disposition: " + kind;
      StartsWith(line, "content-disposition:") && !StartsWith(line, "content-type:") && line[20..] == " " + kind
  {
    var head := "Content-Disposition: ";
    assert |head| == 21 && Lower(head[8]) == 'd';
    assert forall i | 0 <= i < 21 :: (head + kind)[i] == head[i];
    assert forall i | 0 <= i < 20 :: Lower(head[i]) == "content-disposition:"[i];
  }

  lemma KindRead(text: string)
    ensures StartsWith("form-data; " + text, "form-data;") && ("form-data; " + text)[10..] == " " + text
  {
  }

  lemma TypeRead(contentType: string, file: FileInfo, star: string -> Option<string>)
    ensures ReadLine("Content-Type: " + contentType, file, star)
         == Some(file.(contentType := Trim(contentType)))
  {
    var line := "Content-Type: " + contentType;
    assert StartsWith(line, "content-type:") && line[13..] == " " + contentType;
    assert (" " + contentType)[1..] == contentType;
  }

  lemma {:induction false} TrimEdges(s: string)
    ensures var t := Trim(s); t != [] ==> !IsBlank(t[0]) && !IsBlank(t[|t| - 1])
  {
    TrimLeftEdge(s);
    TrimRightEdge(TrimLeft(s));
  }

  lemma {:induction false} TrimLeftEdge(s: string)
    ensures var t := TrimLeft(s); t != [] ==> !IsBlank(t[0])
  {
    if s != [] && IsBlank(s[0]) {
      TrimLeftEdge(s[1..]);
    }
  }

  lemma {:induction false} TrimRightEdge(s: string)
    ensures var t := TrimRight(s); t <= s && (t != [] ==> !IsBlank(t[|t| - 1]))
    decreases |s|
  {
    if s != [] && IsBlank(s[|s| - 1]) {
      TrimRightEdge(s[..|s| - 1]);
    }
  }

  predicate Trimmed(s: string)
  {
    s == [] || (!IsBlank(s[0]) && !IsBlank(s[|s| - 1]))
  }

  /** The disposition line alone. */
  lemma NamesRead(item: Item, star: string -> Option<string>)
    requires Without(item.name, '*') && Without(item.filename, '*')
    ensures ReadLine(Disposition(item), NO_FILE, star) == Some(FileInfo(item.name, item.filename, []))
      <==> Plain(item.name) && Plain(item.filename)
  {
    hide Pieces;
    hide Without;
    hide DispositionText;
    hide StartsWith;
    hide ParamsOf;
    hide Lookup;
    var a := QuotedText("name", item.name);
    var text := if item.filename == [] then a else a + ";" + (" " + QuotedText("filename", item.filename));
    DispositionIs(item);
    assert text[0] == 'n';
    HeadRead(text);
    TextWithout(item, '\r');
    TextWithout(item, '\n');
    TextWithout(item, '*');
    StarWithout();
    ValueWithout(text, "filename*", '*');
    ValueWithout(text, "name", ';');
    ValueWithout(text, "name", '=');
    ValueWithout(text, "filename", ';');
    ValueWithout(text, "filename", '=');
    EmptyWithout();
    if Plain(item.name) && Plain(item.filename) {
      PrintedParams(item.name, item.filename);
      LookupPrinted(item.name, item.filename);
    }
  }

  lemma StarWithout()
    ensures !Without("filename*", '*')
  {
    assert "filename*"[8] == '*';
  }

  lemma EmptyWithout()
    ensures forall c :: Without([], c)
  {
  }

  lemma LookupPrinted(name: string, filename: string)
    ensures var one, two := [Param("name", name)], [Param("name", name), Param("filename", filename)];
      && Lookup(one, "name") == Lookup(two, "name") == Some(name)
      && Lookup(one, "filename") == Lookup(one, "filename*") == None == Lookup(two, "filename*")
      && Lookup(two, "filename") == Some(filename)
  {
    var two := [Param("name", name), Param("filename", filename)];
    assert two[1..] == [Param("filename", filename)] && two[1..][1..] == [];
    assert [Param("name", name)][1..] == [];
    assert "name"[0] != "filename"[0] && |"filename"| != |"filename*"| && |"name"| != |"filename*"|;
  }

  lemma TextWithout(item: Item, c: char)
    requires c == '\r' || c == '\n' || c == '*'
    ensures var a := QuotedText("name", item.name);
      Without(if item.filename == [] then a else a + ";" + (" " + QuotedText("filename", item.filename)), c)
      <==> Without(item.name, c) && Without(item.filename, c)
  {
    var a, b := QuotedText("name", item.name), QuotedText("filename", item.filename);
    InText("name", item.name, c);
    InText("filename", item.filename, c);
    JoinWithout(a, ";" + (" " + b), c);
    JoinWithout(";" + " ", b, c);
    assert ";" + (" " + b) == (";" + " ") + b;
    assert a + ";" + (" " + b) == a + (";" + (" " + b));
  }

  lemma JoinWithout(x: string, y: string, c: char)
    ensures Without(x + y, c) <==> Without(x, c) && Without(y, c)
  {
    if Without(x + y, c) {
      forall i | 0 <= i < |x| ensures x[i] != c { assert (x + y)[i] == x[i]; }
      forall i | 0 <= i < |y| ensures y[i] != c { assert (x + y)[|x| + i] == y[i]; }
    }
  }

  lemma InText(key: string, value: string, c: char)
    requires c != '=' && c != '"' && Without(key, c)
    ensures Without(QuotedText(key, value), c) <==> Without(value, c)
  {
    JoinWithout(key + "=", "\"" + value + "\"", c);
    JoinWithout("\"" + value, "\"", c);
    JoinWithout("\"", value, c);
    JoinWithout(key, "=", c);
  }

  /**
   What a serialised item says of itself comes back if and only if neither its name nor its filename
   contains a semicolon, an equality sign or a line end, and its type has no blanks around it.
   */
  lemma FieldsExactlyIf(item: Item, star: string -> Option<string>)
    requires Without(item.name, '*') && Without(item.filename, '*')
    ensures ReadLines(HeaderLines(item), NO_FILE, star)
         == Some(FileInfo(item.name, item.filename, item.contentType))
      <==> Plain(item.name) && Plain(item.filename) && Trimmed(item.contentType)
  {
    hide ReadLine;
    hide Disposition;
    hide Without;
    hide Trim;
    NamesRead(item, star);
    TypeKept(item, star);
    LinesRead(item, star);
    var first := ReadLine(Disposition(item), NO_FILE, star);
    TrimEdges(item.contentType);
    if Trimmed(item.contentType) {
      TrimIs([], item.contentType, []);
      assert [] + item.contentType + [] == item.contentType;
    }
  }

  lemma LinesRead(item: Item, star: string -> Option<string>)
    ensures var first := ReadLine(Disposition(item), NO_FILE, star);
      ReadLines(HeaderLines(item), NO_FILE, star)
      == if first == None || item.contentType == [] then first
         else Some(first.value.(contentType := Trim(item.contentType)))
  {
    hide ReadLine;
    hide Disposition;
    hide Trim;
    var first := ReadLine(Disposition(item), NO_FILE, star);
    if item.contentType == [] {
      assert HeaderLines(item) == [Disposition(item)] && HeaderLines(item)[1..] == [];
    } else {
      var kind := "Content-Type: " + item.contentType;
      assert HeaderLines(item) == [Disposition(item), kind] && HeaderLines(item)[1..] == [kind] && [kind][1..] == [];
      if first.Some? {
        TypeRead(item.contentType, first.value, star);
        var done := first.value.(contentType := Trim(item.contentType));
        assert ReadLines([], done, star) == Some(done);
        assert ReadLines([kind], first.value, star) == Some(done);
      }
    }
  }

  /** The disposition says nothing of the type. */
  lemma TypeKept(item: Item, star: string -> Option<string>)
    ensures var first := ReadLine(Disposition(item), NO_FILE, star); first.Some? ==> first.value.contentType == []
  {
    hide Pieces;
    hide DispositionText;
    hide StartsWith;
    hide ParamsOf;
    hide Lookup;
    DispositionIs(item);
    var a := QuotedText("name", item.name);
    var text := if item.filename == [] then a else a + ";" + (" " + QuotedText("filename", item.filename));
    assert text[0] == 'n';
    HeadRead(text);
  }
}
