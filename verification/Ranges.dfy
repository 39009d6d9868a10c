/**
 The Range pipeline of section 14.2 of RFC 9110: the client prints a Range header, the server parses
 it, normalises the ranges in place against the length of the content, slices the content and
 announces a length.
 */
module Ranges {
  import opened Search
  import opened Decimal
  import opened Http
  import opened Separators
  import opened Splitting
  import opened Wrappers

  const RANGE_MAX_COUNT: nat := 1024
  const SSIZE_MAX: int := 0x7FFF_FFFF_FFFF_FFFF

  type ssize = n: int | -SSIZE_MAX - 1 <= n <= SSIZE_MAX

  /** First and last position; -1 stands for one that is not given. */
  datatype Range = Range(first: ssize, last: ssize)

  /** The pieces between commas. */
  function Tokens(s: string): seq<string>
  {
    Pieces(s, ',')
  }

  // ---------- Parsing ----------

  function ParseNumber(s: string): Option<int>
    requires AllDigits(s)
  {
    if s == [] then Some(-1)
    else match Sto(s, -SSIZE_MAX - 1, SSIZE_MAX) case Number(n) => Some(n) case Throws => None
  }

  function ParseRange(token: string): Option<Range>
  {
    var i := Find(token, "-", 0);
    if i == |token| then None
    else
      var lhs, rhs := token[..i], token[i + 1..];
      if !AllDigits(lhs) || !AllDigits(rhs) then None
      else
        match (ParseNumber(lhs), ParseNumber(rhs))
        case (Some(first), Some(last)) =>
          if !(-1 <= first <= SSIZE_MAX && -1 <= last <= SSIZE_MAX) then None
          else if first == -1 && last == -1 then None
          else if first != -1 && last != -1 && first > last then None
          else Some(Range(first, last))
        case _ => None
  }

  function ParseAll(tokens: seq<string>): Option<seq<Range>>
  {
    if tokens == [] then Some([])
    else
      match (ParseRange(tokens[0]), ParseAll(tokens[1..]))
      case (Some(r), Some(rs)) => Some([r] + rs)
      case _ => None
  }

  function Parse(s: string): Option<seq<Range>>
  {
    if |s| <= 7 || s[..6] != "bytes=" then None
    else
      var r := ParseAll(Tokens(s[6..]));
      if r == Some([]) then None else r
  }

  // ---------- Printing ----------

  function RangeText(r: Range): string
  {
    (if r.first != -1 then ToString(r.first) else []) + "-" + if r.last != -1 then ToString(r.last) else []
  }

  function JoinedFrom(ranges: seq<Range>, first: bool): string
    decreases |ranges|
  {
    if ranges == [] then []
    else (if first then [] else ", ") + RangeText(ranges[0]) + JoinedFrom(ranges[1..], false)
  }

  function Joined(ranges: seq<Range>): string
  {
    JoinedFrom(ranges, true)
  }

  method MakeRangeHeader(ranges: seq<Range>) returns (field: string)
    ensures field == "bytes=" + Joined(ranges)
  {
    field := "bytes=";
    var i := 0;
    while i < |ranges|
      invariant i <= |ranges|
      invariant "bytes=" + Joined(ranges) == field + JoinedFrom(ranges[i..], i == 0)
    {
      hide ToString;
      hide JoinedFrom;
      ghost var before, rest := field, JoinedFrom(ranges[i + 1..], false);
      ghost var sep := if i == 0 then [] else ", ";
      ghost var lhs := if ranges[i].first != -1 then ToString(ranges[i].first) else [];
      ghost var rhs := if ranges[i].last != -1 then ToString(ranges[i].last) else [];
      JoinedNext(ranges, i);
      Regroup(before, sep, lhs, rhs, rest);
      if i != 0 {
        field := field + ", ";
      }
      if ranges[i].first != -1 {
        field := field + ToString(ranges[i].first);
      }
      field := field + "-";
      if ranges[i].last != -1 {
        field := field + ToString(ranges[i].last);
      }
      EmptyRight(before, sep, lhs, rhs);
      i := i + 1;
    }
    assert ranges[i..] == [];
  }

  lemma Regroup(before: string, sep: string, lhs: string, rhs: string, rest: string)
    ensures before + sep + lhs + "-" + rhs + rest == before + (sep + (lhs + "-" + rhs) + rest)
  {
  }

  lemma EmptyRight(before: string, sep: string, lhs: string, rhs: string)
    ensures sep == [] ==> before + sep == before
    ensures lhs == [] ==> before + sep + lhs == before + sep
    ensures rhs == [] ==> before + sep + lhs + "-" + rhs == before + sep + lhs + "-"
  {
  }

  lemma JoinedNext(ranges: seq<Range>, i: nat)
    requires i < |ranges|
    ensures JoinedFrom(ranges[i..], i == 0)
         == (if i == 0 then [] else ", ") + RangeText(ranges[i]) + JoinedFrom(ranges[i + 1..], false)
  {
    hide RangeText;
    assert ranges[i..][1..] == ranges[i + 1..];
  }

  /** What the parser accepts as a range. */
  predicate IsRange(r: Range)
  {
    r.first >= -1 && r.last >= -1 && !(r.first == -1 && r.last == -1) && (r.first == -1 || r.last == -1 || r.first <= r.last)
  }

  /** Characters of printed numbers. */
  predicate Plain(s: string)
  {
    forall i | 0 <= i < |s| :: IsDigit(s[i]) || s[i] == '-'
  }

  lemma ParseNumberPrint(n: nat)
    requires n <= SSIZE_MAX
    ensures ParseNumber(Print(n)) == Some(n)
  {
    StoPrint(n, -SSIZE_MAX - 1, SSIZE_MAX);
  }

  lemma ParseText(digits: string, rest: string)
    requires AllDigits(digits)
    ensures ParseRange(digits + "-" + rest) ==
      if !AllDigits(rest) then None
      else
        match (ParseNumber(digits), ParseNumber(rest))
        case (Some(first), Some(last)) =>
          if !(-1 <= first <= SSIZE_MAX && -1 <= last <= SSIZE_MAX) then None
          else if first == -1 && last == -1 then None
          else if first != -1 && last != -1 && first > last then None
          else Some(Range(first, last))
        case _ => None
  {
    hide Find;
    FirstDash(digits, rest);
  }

  /** Parsing undoes the printing of exactly the ranges it accepts, and refuses all others. */
  lemma ParseRangeText(r: Range)
    ensures ParseRange(RangeText(r)) == if IsRange(r) then Some(r) else None
  {
    hide ParseNumber;
    hide ParseRange;
    hide Print;
    var last := if r.last != -1 then ToString(r.last) else [];
    if r.first < -1 {
      assert RangeText(r) == [] + "-" + (Print(0 - r.first) + "-" + last);
      assert (Print(0 - r.first) + "-" + last)[|Print(0 - r.first)|] == '-';
      ParseText([], Print(0 - r.first) + "-" + last);
    } else {
      var first := if r.first != -1 then Print(r.first) else [];
      ParseText(first, last);
      if r.last < -1 {
        assert last[0] == '-';
      } else {
        EmptyNumber();
        if r.first != -1 { ParseNumberPrint(r.first); }
        if r.last != -1 { ParseNumberPrint(r.last); }
      }
    }
  }

  lemma EmptyNumber()
    ensures ParseNumber([]) == Some(-1)
  {
  }

  lemma PlainText(r: Range)
    ensures Plain(RangeText(r)) && RangeText(r) != []
  {
    assert Plain(ToString(r.first)) && Plain(ToString(r.last));
  }

  lemma TrimPlain(s: string)
    requires Plain(s) && s != []
    ensures Trim(s) == s && Trim(" " + s) == s
  {
    assert !IsBlank(s[0]) && !IsBlank(s[|s| - 1]);
    assert (" " + s)[1..] == s;
    assert TrimLeft(" " + s) == TrimLeft(s) == s;
  }

  lemma TokensStep(head: string, rest: string)
    requires Trim(head) != [] && forall i | 0 <= i < |head| :: head[i] != ','
    ensures Tokens(head + "," + rest) == [Trim(head)] + Tokens(rest)
    ensures Tokens(head) == [Trim(head)]
  {
    PiecesStep(head, ',', rest);
  }

  lemma JoinedSplit(ranges: seq<Range>)
    requires ranges != []
    ensures Joined(ranges) == if |ranges| == 1 then RangeText(ranges[0])
                              else RangeText(ranges[0]) + "," + (" " + Joined(ranges[1..]))
  {
    hide RangeText;
    var t, more := RangeText(ranges[0]), ranges[1..];
    assert ", " == "," + " ";
    if more == [] {
      assert [] + t + [] == t;
    } else {
      assert Joined(ranges) == [] + t + JoinedFrom(more, false);
      var u, rest := RangeText(more[0]), JoinedFrom(more[1..], false);
      assert JoinedFrom(more, false) == ", " + u + rest && Joined(more) == [] + u + rest;
      assert [] + t + ("," + " " + u + rest) == t + "," + (" " + ([] + u + rest));
    }
  }

  function RangeTexts(ranges: seq<Range>): seq<string>
  {
    seq(|ranges|, i requires 0 <= i < |ranges| => RangeText(ranges[i]))
  }

  /** `lead` is the blank that printing puts after a comma. */
  lemma {:induction false} TokensJoined(ranges: seq<Range>, lead: string)
    requires ranges != [] && lead in {"", " "}
    ensures Tokens(lead + Joined(ranges)) == RangeTexts(ranges)
    decreases |ranges|
  {
    hide Tokens;
    hide Trim;
    hide RangeText;
    hide RangeTexts;
    hide Joined;
    var t, more := RangeText(ranges[0]), ranges[1..];
    JoinedSplit(ranges);
    TextsNext(ranges);
    LeadPlain(ranges[0], lead);
    if more == [] {
      TokensStep(lead + t, "");
      TextsNone();
    } else {
      var rest := " " + Joined(more);
      TokensStep(lead + t, rest);
      LeadRegrouped(lead, t, rest);
      TokensJoined(more, " ");
    }
  }

  lemma TextsNone()
    ensures RangeTexts([]) == []
  {
  }

  lemma TextsNext(ranges: seq<Range>)
    requires ranges != []
    ensures RangeTexts(ranges) == [RangeText(ranges[0])] + RangeTexts(ranges[1..])
  {
    hide RangeText;
  }

  lemma LeadPlain(r: Range, lead: string)
    requires lead in {"", " "}
    ensures Trim(lead + RangeText(r)) == RangeText(r) != []
    ensures forall i | 0 <= i < |lead + RangeText(r)| :: (lead + RangeText(r))[i] != ','
  {
    hide Trim;
    hide RangeText;
    PlainText(r);
    TrimPlain(RangeText(r));
    assert "" + RangeText(r) == RangeText(r);
  }

  lemma LeadRegrouped(lead: string, t: string, rest: string)
    ensures lead + (t + "," + rest) == (lead + t) + "," + rest
  {
  }

  lemma {:induction false} ParseTexts(ranges: seq<Range>)
    ensures ParseAll(RangeTexts(ranges))
         == if forall i | 0 <= i < |ranges| :: IsRange(ranges[i]) then Some(ranges) else None
    decreases |ranges|
  {
    hide ParseRange;
    hide RangeText;
    hide IsRange;
    var texts := seq(|ranges|, i requires 0 <= i < |ranges| => RangeText(ranges[i]));
    if ranges != [] {
      ParseRangeText(ranges[0]);
      ParseTexts(ranges[1..]);
      assert texts[1..] == seq(|ranges[1..]|, i requires 0 <= i < |ranges[1..]| => RangeText(ranges[1..][i]));
      assert ranges == [ranges[0]] + ranges[1..];
      assert forall i | 0 < i < |ranges| :: ranges[i] == ranges[1..][i - 1];
      if i :| 0 <= i < |ranges[1..]| && !IsRange(ranges[1..][i]) {
        assert !IsRange(ranges[i + 1]);
      }
    }
  }

  lemma JoinedSize(ranges: seq<Range>)
    requires ranges != [] && IsRange(ranges[0])
    ensures |Joined(ranges)| >= 2
  {
    assert |RangeText(ranges[0])| >= 2;
  }

  /** A printed header comes back as the same ranges if and only if there are some and all are ranges. */
  lemma HeaderRoundTrip(ranges: seq<Range>)
    ensures Parse("bytes=" + Joined(ranges)) == Some(ranges)
      <==> ranges != [] && forall i | 0 <= i < |ranges| :: IsRange(ranges[i])
  {
    hide Tokens;
    hide ParseAll;
    hide IsRange;
    var s := "bytes=" + Joined(ranges);
    assert s[..6] == "bytes=" && s[6..] == "" + Joined(ranges);
    if ranges != [] {
      TokensJoined(ranges, "");
      ParseTexts(ranges);
      if forall i | 0 <= i < |ranges| :: IsRange(ranges[i]) {
        JoinedSize(ranges);
      }
    }
  }

  // ---------- The parser's loops ----------

  function Prepend(rs: seq<Range>, more: Option<seq<Range>>): Option<seq<Range>>
  {
    match more case Some(m) => Some(rs + m) case None => None
  }

  lemma PrependNext(rs: seq<Range>, tokens: seq<string>, i: nat)
    requires i < |tokens|
    ensures Prepend(rs, ParseAll(tokens[i..])) ==
      match ParseRange(tokens[i]) case Some(r) => Prepend(rs + [r], ParseAll(tokens[i + 1..])) case None => None
  {
    hide ParseRange;
    assert tokens[i..][1..] == tokens[i + 1..];
    match (ParseRange(tokens[i]), ParseAll(tokens[i + 1..])) {
      case (Some(r), Some(m)) => assert rs + ([r] + m) == rs + [r] + m;
      case _ =>
    }
  }

  method ParseRangeHeader(s: string) returns (result: Option<seq<Range>>)
    ensures result == Parse(s)
  {
    hide ParseRange;
    hide ParseAll;
    if !(|s| > 7 && s[..6] == "bytes=") {
      return None;
    }
    var tokens := Split(s[6..], ',');
    var ranges: seq<Range> := [];
    var i := 0;
    PrependNone(tokens);
    while i < |tokens|
      invariant i <= |tokens| && ParseAll(tokens) == Prepend(ranges, ParseAll(tokens[i..]))
    {
      PrependNext(ranges, tokens, i);
      var parsed := ParseRange(tokens[i]);
      if parsed == None {
        return None;
      }
      ranges := ranges + [parsed.value];
      i := i + 1;
    }
    PrependAll(ranges, tokens[i..]);
    return if ranges != [] then Some(ranges) else None;
  }

  lemma PrependNone(tokens: seq<string>)
    ensures Prepend([], ParseAll(tokens[0..])) == ParseAll(tokens)
  {
    assert tokens[0..] == tokens;
    match ParseAll(tokens) {
      case Some(m) => assert [] + m == m;
      case None =>
    }
  }

  lemma PrependAll(rs: seq<Range>, none: seq<string>)
    requires none == []
    ensures Prepend(rs, ParseAll(none)) == Some(rs)
  {
    assert rs + [] == rs;
  }

  // ---------- Normalising ----------

  predicate Given(r: Range)
  {
    r.first >= -1 && r.last >= -1
  }

  function Normalize(r: Range, length: ssize): Range
    requires Given(r) && length >= 0
  {
    var r1 := if r.first == -1 && r.last == -1 then Range(0, length) else r;
    var r2 := if r1.first == -1 then Range(length - r1.last, length - 1) else r1;
    if r2.last == -1 then Range(r2.first, length - 1) else r2
  }

  predicate Inside(r: Range, length: int)
  {
    0 <= r.first <= r.last < length
  }

  /** Some earlier range reaches into the last one. */
  predicate LastOverlaps(rs: seq<Range>)
    requires rs != []
  {
    exists j | 0 <= j < |rs| - 1 :: rs[|rs| - 1].first <= rs[j].last
  }

  function Overlaps(rs: seq<Range>): nat
  {
    if rs == [] then 0 else Overlaps(rs[..|rs| - 1]) + if LastOverlaps(rs) then 1 else 0
  }

  lemma {:induction false} OverlapsPrefix(rs: seq<Range>, n: nat)
    requires n <= |rs|
    ensures Overlaps(rs[..n]) <= Overlaps(rs)
    decreases |rs|
  {
    if n < |rs| {
      OverlapsPrefix(rs[..|rs| - 1], n);
      assert rs[..|rs| - 1][..n] == rs[..n];
    } else {
      assert rs[..n] == rs;
    }
  }

  predicate Ascending(rs: seq<Range>)
  {
    forall i, j | 0 <= i < j < |rs| :: rs[i].first < rs[j].first
  }

  /** Inside the content, in ascending order, with at most two ranges reaching into a later one. */
  predicate Acceptable(rs: seq<Range>, length: int)
  {
    (forall i | 0 <= i < |rs| :: Inside(rs[i], length)) && Ascending(rs) && Overlaps(rs) <= 2
  }

  function NormalizeAll(rs: seq<Range>, length: ssize): (r: seq<Range>)
    requires length >= 0 && forall i | 0 <= i < |rs| :: Given(rs[i])
    ensures |r| == |rs|
  {
    seq(|rs|, i requires 0 <= i < |rs| => Normalize(rs[i], length))
  }

  /** What the loop has established about the ranges before the i-th. */
  ghost predicate Scanned(normal: seq<Range>, i: nat, prevFirst: int, prevLast: int, overlapping: nat, length: int)
  {
    && i <= |normal| && Acceptable(normal[..i], length) && overlapping == Overlaps(normal[..i])
    && prevFirst == (if i == 0 then -1 else normal[i - 1].first)
    && (forall k | 0 <= k < i :: normal[k].last <= prevLast)
    && (prevLast == -1 || exists k | 0 <= k < i :: normal[k].last == prevLast)
  }

  function Max(a: int, b: int): int
  {
    if a < b then b else a
  }

  lemma ScanStep(normal: seq<Range>, i: nat, prevFirst: int, prevLast: int, overlapping: nat, length: int)
    requires Scanned(normal, i, prevFirst, prevLast, overlapping, length) && i < |normal|
    ensures var r := normal[i];
      if !Inside(r, length) || r.first <= prevFirst || (r.first <= prevLast && overlapping == 2)
      then !Acceptable(normal, length)
      else Scanned(normal, i + 1, Max(prevFirst, r.first), Max(prevLast, r.last),
                   overlapping + if r.first <= prevLast then 1 else 0, length)
  {
    hide Overlaps;
    hide LastOverlaps;
    var r, prefix := normal[i], normal[..i + 1];
    assert prefix[..i] == normal[..i] && prefix[i] == r;
    OverlapsPrefix(normal, i + 1);
    if Inside(r, length) {
      OverlapsNext(prefix, prevLast);
      if r.first > prevFirst && !(r.first <= prevLast && overlapping == 2) {
        assert prevLast < r.last ==> normal[i].last == Max(prevLast, r.last);
        assert forall k | 0 <= k < i :: normal[k] == normal[..i][k] == prefix[k];
      }
    }
  }

  lemma OverlapsNext(rs: seq<Range>, prevLast: int)
    requires rs != []
    requires forall k | 0 <= k < |rs| - 1 :: rs[k].last <= prevLast
    requires prevLast == -1 || exists k | 0 <= k < |rs| - 1 :: rs[k].last == prevLast
    requires rs[|rs| - 1].first >= 0
    ensures Overlaps(rs) == Overlaps(rs[..|rs| - 1]) + if rs[|rs| - 1].first <= prevLast then 1 else 0
  {
  }

  /** Both ends of one range, through references into the list. */
  method NormalizeAt(ranges: array<Range>, i: nat, length: nat)
    requires i < ranges.Length && length <= SSIZE_MAX && Given(ranges[i])
    modifies ranges
    ensures ranges[i] == Normalize(old(ranges[i]), length)
    ensures forall k | 0 <= k < ranges.Length && k != i :: ranges[k] == old(ranges[k])
  {
    if ranges[i].first == -1 && ranges[i].last == -1 {
      ranges[i] := Range(0, length);
    }
    if ranges[i].first == -1 {
      ranges[i] := Range(length - ranges[i].last, length - 1);
    }
    if ranges[i].last == -1 {
      ranges[i] := ranges[i].(last := length - 1);
    }
  }

  /** Normalises in place and refuses exactly what is not acceptable afterwards. */
  method RangeError(ranges: array<Range>, status: int, contentLength: nat, bodySize: nat) returns (error: bool)
    requires contentLength <= SSIZE_MAX && bodySize <= SSIZE_MAX
    requires forall i | 0 <= i < ranges.Length :: Given(ranges[i])
    modifies ranges
    ensures ranges.Length == 0 || !(200 <= status < 300) ==> !error && ranges[..] == old(ranges[..])
    ensures ranges.Length > 0 && 200 <= status < 300 ==>
      var length := if contentLength != 0 then contentLength else bodySize;
      var normal := NormalizeAll(old(ranges[..]), length);
      && (error <==> ranges.Length > 1024 || !Acceptable(normal, length))
      && (!error ==> ranges[..] == normal)
  {
    hide Scanned;
    hide Acceptable;
    hide Normalize;
    if ranges.Length == 0 || !(200 <= status < 300) {
      return false;
    }
    var length := if contentLength != 0 then contentLength else bodySize;
    ghost var normal := NormalizeAll(ranges[..], length);
    var prevFirst, prevLast, overlapping := -1, -1, 0;
    if ranges.Length > RANGE_MAX_COUNT {
      return true;
    }
    var i := 0;
    ScanNothing(normal, length);
    while i < ranges.Length
      invariant i <= ranges.Length && Scanned(normal, i, prevFirst, prevLast, overlapping, length)
      invariant forall k | 0 <= k < i :: ranges[k] == normal[k]
      invariant forall k | i <= k < ranges.Length :: ranges[k] == old(ranges[k])
    {
      NormalizeAt(ranges, i, length);
      ScanStep(normal, i, prevFirst, prevLast, overlapping, length);
      var r := ranges[i];
      if !(0 <= r.first && r.first <= r.last && r.last <= length - 1) {
        return true;
      }
      if r.first <= prevFirst {
        return true;
      }
      if r.first <= prevLast {
        overlapping := overlapping + 1;
        if overlapping > 2 {
          return true;
        }
      }
      prevFirst := Max(prevFirst, r.first);
      prevLast := Max(prevLast, r.last);
      i := i + 1;
    }
    ScanEverything(normal, prevFirst, prevLast, overlapping, length);
    assert ranges[..] == normal;
    return false;
  }

  lemma ScanNothing(normal: seq<Range>, length: int)
    ensures Scanned(normal, 0, -1, -1, 0, length)
  {
  }

  lemma ScanEverything(normal: seq<Range>, prevFirst: int, prevLast: int, overlapping: nat, length: int)
    requires Scanned(normal, |normal|, prevFirst, prevLast, overlapping, length)
    ensures Acceptable(normal, length)
  {
    assert normal[..|normal|] == normal;
  }

  // ---------- Slicing and announcing ----------

  predicate AllInside(ranges: seq<Range>, length: int)
  {
    forall i | 0 <= i < |ranges| :: Inside(ranges[i], length)
  }

  /** The original's assertions are the precondition. */
  function OffsetAndLength(r: Range, length: nat): (nat, nat)
    requires Inside(r, length)
  {
    (r.first, r.last - r.first + 1)
  }

  function Sliced(content: string, r: Range): string
    requires Inside(r, |content|)
  {
    content[r.first..r.last + 1]
  }

  function ContentRange(r: Range, length: nat): string
    requires Inside(r, length)
  {
    var (offset, n) := OffsetAndLength(r, length);
    "bytes " + Print(offset) + "-" + Print(offset + n - 1) + "/" + Print(length)
  }

  /** What precedes the content of a part of a multipart/byteranges body. */
  function PartHead(r: Range, boundary: string, contentType: string, length: nat): string
    requires Inside(r, length)
  {
    "--" + boundary + CRLF + (if contentType == [] then [] else "Content-Type: " + contentType + CRLF)
    + "Content-Range: " + ContentRange(r, length) + CRLF + CRLF
  }

  function MultipartData(content: string, ranges: seq<Range>, boundary: string, contentType: string): string
    requires AllInside(ranges, |content|)
  {
    if ranges == [] then "--" + boundary + "--"
    else
      PartHead(ranges[0], boundary, contentType, |content|) + Sliced(content, ranges[0]) + CRLF
      + MultipartData(content, ranges[1..], boundary, contentType)
  }

  method MakePartHead(r: Range, boundary: string, contentType: string, length: nat) returns (data: string)
    requires Inside(r, length)
    ensures data == PartHead(r, boundary, contentType, length)
  {
    data := "--" + boundary + "\r\n";
    if contentType != [] {
      data := data + ("Content-Type: " + contentType + "\r\n");
    }
    data := data + "Content-Range: " + ContentRange(r, length) + "\r\n" + "\r\n";
  }

  method MakeMultipartRangesData(content: string, ranges: seq<Range>, boundary: string, contentType: string)
    returns (data: string)
    requires AllInside(ranges, |content|)
    ensures data == MultipartData(content, ranges, boundary, contentType)
  {
    data := [];
    var i := 0;
    while i < |ranges|
      invariant i <= |ranges| && AllInside(ranges[i..], |content|)
      invariant MultipartData(content, ranges, boundary, contentType)
             == data + MultipartData(content, ranges[i..], boundary, contentType)
    {
      hide PartHead;
      hide Sliced;
      hide MultipartData;
      var head := MakePartHead(ranges[i], boundary, contentType, |content|);
      var slice := Sliced(content, ranges[i]);
      MultipartNext(data, content, ranges, i, boundary, contentType);
      data := data + head + slice + "\r\n";
      i := i + 1;
    }
    data := data + ("--" + boundary + "--");
  }

  lemma MultipartNext(data: string, content: string, ranges: seq<Range>, i: nat, boundary: string, contentType: string)
    requires AllInside(ranges, |content|) && i < |ranges| && AllInside(ranges[i..], |content|)
    ensures AllInside(ranges[i + 1..], |content|)
    ensures data + MultipartData(content, ranges[i..], boundary, contentType)
         == data + PartHead(ranges[i], boundary, contentType, |content|) + Sliced(content, ranges[i]) + CRLF
            + MultipartData(content, ranges[i + 1..], boundary, contentType)
  {
    hide PartHead;
    hide Sliced;
    assert ranges[i..][1..] == ranges[i + 1..];
  }

  /** Adds up the lengths of what would be written, without writing it. */
  method GetMultipartRangesDataLength(ranges: seq<Range>, boundary: string, contentType: string, length: nat)
    returns (n: nat)
    requires AllInside(ranges, length)
    ensures forall content: string | |content| == length :: n == |MultipartData(content, ranges, boundary, contentType)|
  {
    n := 0;
    var i := 0;
    while i < |ranges|
      invariant i <= |ranges| && AllInside(ranges[i..], length)
      invariant forall content: string | |content| == length ::
        |MultipartData(content, ranges, boundary, contentType)|
        == n + |MultipartData(content, ranges[i..], boundary, contentType)|
    {
      hide PartHead;
      assert ranges[i..][1..] == ranges[i + 1..];
      var head := MakePartHead(ranges[i], boundary, contentType, length);
      n := n + |head| + OffsetAndLength(ranges[i], length).1 + 2;
      i := i + 1;
    }
    n := n + 2 + |boundary| + 2;
  }

  // ---------- What is announced and what is sent ----------

  const PARTIAL_CONTENT: int := 206

  /**
   The Content-Length that is announced, if one is, the body that replaces the handler's, and the
   boundary and type of the parts. With a body the ranges are cut out here; with a content provider
   only lengths are computed here. `made` is a new boundary, `header` the Content-Type so far.
   */
  method ApplyRanges(ranges: seq<Range>, status: int, body: string, contentLength: nat, made: string, header: string)
    returns (announced: Option<nat>, body': string, boundary: string, contentType: string)
    requires status == 206 ==> AllInside(ranges, if body == [] then contentLength else |body|)
    ensures boundary == (if |ranges| > 1 && status == 206 then made else [])
    ensures contentType == (if |ranges| > 1 && status == 206 then header else [])
    ensures body == [] ==> body' == []
    ensures body == [] && contentLength == 0 ==> announced == None
    ensures body == [] && contentLength > 0 ==>
      forall content: string | |content| == contentLength ::
        announced == Some(|Selected(content, ranges, status == 206, boundary, contentType)|)
    ensures body != [] ==>
      && body' == Selected(body, ranges, status == 206, boundary, contentType)
      && announced == Some(|body'|)
  {
    hide MultipartData;
    body', boundary, contentType := body, [], [];
    if |ranges| > 1 && status == PARTIAL_CONTENT {
      contentType := header;
      boundary := made;
    }
    if body == [] {
      if contentLength == 0 {
        return None, body', boundary, contentType;
      }
      var length := 0;
      if ranges == [] || status != PARTIAL_CONTENT {
        length := contentLength;
      } else if |ranges| == 1 {
        length := OffsetAndLength(ranges[0], contentLength).1;
      } else {
        length := GetMultipartRangesDataLength(ranges, boundary, contentType, contentLength);
      }
      return Some(length), body', boundary, contentType;
    }
    if ranges == [] || status != PARTIAL_CONTENT {
    } else if |ranges| == 1 {
      var (offset, length) := OffsetAndLength(ranges[0], |body|);
      body' := body[offset..offset + length];
    } else {
      body' := MakeMultipartRangesData(body, ranges, boundary, contentType);
    }
    return Some(|body'|), body', boundary, contentType;
  }

  /** The content, the one slice, or the slices in one multipart body. */
  function Selected(content: string, ranges: seq<Range>, partial: bool, boundary: string, contentType: string): string
    requires partial ==> AllInside(ranges, |content|)
  {
    if ranges == [] || !partial then content
    else if |ranges| == 1 then Sliced(content, ranges[0])
    else MultipartData(content, ranges, boundary, contentType)
  }

  /** What a content provider of `content` sends; the status is not looked at here. None is a failed assertion. */
  method WriteContentWithProvider(content: string, ranges: seq<Range>, boundary: string, contentType: string)
    returns (sent: Option<string>)
    ensures sent.Some? <==> AllInside(ranges, |content|)
    ensures sent.Some? ==> sent.value == if ranges == [] then content
                                         else if |ranges| == 1 then Sliced(content, ranges[0])
                                         else MultipartData(content, ranges, boundary, contentType)
  {
    if ranges == [] {
      return Some(content);
    } else if |ranges| == 1 {
      if !Inside(ranges[0], |content|) {
        return None;
      }
      var (offset, length) := OffsetAndLength(ranges[0], |content|);
      return Some(content[offset..offset + length]);
    }
    if !AllInside(ranges, |content|) {
      return None;
    }
    var data := MakeMultipartRangesData(content, ranges, boundary, contentType);
    return Some(data);
  }

  /** The octets of a multipart/byteranges body, from the numbers alone. */
  function MultipartLength(ranges: seq<Range>, boundary: nat, contentType: nat, length: nat): nat
    requires AllInside(ranges, length)
  {
    if ranges == [] then boundary + 4
    else
      var (offset, n) := OffsetAndLength(ranges[0], length);
      boundary + (if contentType == 0 then 0 else contentType + 16) + 33
      + |Print(offset)| + |Print(offset + n - 1)| + |Print(length)| + n
      + MultipartLength(ranges[1..], boundary, contentType, length)
  }

  lemma PartLength(r: Range, boundary: string, contentType: string, length: nat)
    requires Inside(r, length)
    ensures var (offset, n) := OffsetAndLength(r, length);
      |PartHead(r, boundary, contentType, length)|
      == |boundary| + (if contentType == [] then 0 else |contentType| + 16) + 31
         + |Print(offset)| + |Print(offset + n - 1)| + |Print(length)|
  {
    hide Print;
  }

  lemma {:induction false} MultipartLengthIs(content: string, ranges: seq<Range>, boundary: string, contentType: string)
    requires AllInside(ranges, |content|)
    ensures |MultipartData(content, ranges, boundary, contentType)|
      == MultipartLength(ranges, |boundary|, |contentType|, |content|)
    decreases |ranges|
  {
    hide PartHead;
    hide Print;
    if ranges != [] {
      PartLength(ranges[0], boundary, contentType, |content|);
      MultipartLengthIs(content, ranges[1..], boundary, contentType);
    }
  }

  // ---------- What a request asks for ----------

  /** The octets that a range asks for: the last n, those from a on, or those from a to b; none if there are no such. */
  function Asked(content: string, r: Range): Option<string>
    requires Given(r)
  {
    if r.first == -1 then
      if 0 < r.last <= |content| then Some(content[|content| - r.last..]) else None
    else if r.last == -1 then
      if r.first < |content| then Some(content[r.first..]) else None
    else if r.first <= r.last < |content| then Some(content[r.first..r.last + 1]) else None
  }

  /** Normalising a range leaves it inside the content exactly if it asks for something, which is then its slice. */
  lemma NormalizedAsks(content: string, r: Range)
    requires Given(r) && |content| <= SSIZE_MAX
    ensures var n := Normalize(r, |content|);
      && (Inside(n, |content|) <==> Asked(content, r) != None)
      && (Inside(n, |content|) ==> Sliced(content, n) == Asked(content, r).value
                                   && n.last == n.first + |Asked(content, r).value| - 1)
  {
  }

  lemma OneAcceptable(r: Range, length: int)
    ensures Acceptable([r], length) <==> Inside(r, length)
  {
    var rs := [r];
    assert Inside(rs[0], length) <==> Inside(r, length);
    assert rs[..0] == [] && Overlaps([]) == 0;
  }

  lemma NormalAsked(content: string, rs: seq<Range>)
    requires |content| <= SSIZE_MAX && forall i | 0 <= i < |rs| :: Given(rs[i])
    ensures var normal := NormalizeAll(rs, |content|);
      AllInside(normal, |content|) ==>
        forall i | 0 <= i < |rs| ::
          Asked(content, rs[i]) != None && Sliced(content, normal[i]) == Asked(content, rs[i]).value
    ensures |rs| == 1 ==> (Acceptable(NormalizeAll(rs, |content|), |content|) <==> Asked(content, rs[0]) != None)
  {
    hide Normalize;
    hide Asked;
    hide Acceptable;
    var normal := NormalizeAll(rs, |content|);
    forall i | 0 <= i < |rs|
      ensures normal[i] == Normalize(rs[i], |content|)
      ensures Inside(normal[i], |content|) <==> Asked(content, rs[i]) != None
      ensures Inside(normal[i], |content|) ==> Sliced(content, normal[i]) == Asked(content, rs[i]).value
    {
      NormalizedAsks(content, rs[i]);
    }
    if |rs| == 1 {
      OneAcceptable(normal[0], |content|);
      assert normal == [normal[0]];
    }
  }

  /** The three forms of a range in a request, as texts. */
  lemma RequestTexts(a: nat, b: nat)
    requires a <= SSIZE_MAX && b <= SSIZE_MAX
    ensures Parse("bytes=-" + Print(b)) == Some([Range(-1, b)])
    ensures Parse("bytes=" + Print(a) + "-") == Some([Range(a, -1)])
    ensures Parse("bytes=" + Print(a) + "-" + Print(b)) == if a <= b then Some([Range(a, b)]) else None
  {
    hide Parse;
    hide Print;
    hide Joined;
    JoinedOne(Range(-1, b));
    JoinedOne(Range(a, -1));
    JoinedOne(Range(a, b));
    assert "bytes=-" == "bytes=" + "-";
    assert "bytes=-" + Print(b) == "bytes=" + ([] + "-" + Print(b));
    assert "bytes=" + Print(a) + "-" == "bytes=" + (Print(a) + "-" + []);
    assert "bytes=" + Print(a) + "-" + Print(b) == "bytes=" + (Print(a) + "-" + Print(b));
    ParseOne(Range(-1, b));
    ParseOne(Range(a, -1));
    ParseOne(Range(a, b));
  }

  lemma JoinedOne(r: Range)
    ensures Joined([r]) == RangeText(r)
  {
    hide RangeText;
    assert [r][1..] == [] && JoinedFrom([], false) == [];
    assert Joined([r]) == [] + RangeText(r) + JoinedFrom([r][1..], false);
    assert [] + RangeText(r) + [] == RangeText(r);
  }

  lemma ParseOne(r: Range)
    requires r.first >= -1 && r.last >= -1 && !(r.first == -1 && r.last == -1)
    ensures Parse("bytes=" + RangeText(r)) == if IsRange(r) then Some([r]) else None
  {
    hide Tokens;
    hide ParseAll;
    hide RangeText;
    JoinedOne(r);
    TokensJoined([r], "");
    ParseTexts([r]);
    assert "" + RangeText(r) == RangeText(r);
    var s := "bytes=" + RangeText(r);
    assert s[..6] == "bytes=" && s[6..] == RangeText(r);
    assert |RangeText(r)| >= 2 by { TextSize(r); }
  }

  lemma TextSize(r: Range)
    requires r.first >= -1 && r.last >= -1 && !(r.first == -1 && r.last == -1)
    ensures |RangeText(r)| >= 2
  {
  }

  lemma NothingInside(length: int)
    ensures length == 0 ==> forall rs: seq<Range> | rs != [] :: !Acceptable(rs, length)
  {
    assert forall rs: seq<Range> | rs != [] && Acceptable(rs, length) :: Inside(rs[0], length);
  }

  /**
   A whole request: check, announce, send. The provider's content has the declared length. What is
   announced is what is sent, but for a provider whose status is not 206: there the whole length is
   announced and the ranges are sent, in parts without boundary and type if there are several. Outside
   2xx they are neither checked nor normalised before, so an assertion may fail on them.
   */
  method Respond(ranges: array<Range>, status: int, content: string, provided: bool, made: string, header: string)
    returns (error: bool, failed: bool, announced: Option<nat>, sent: string)
    requires |content| <= SSIZE_MAX && forall i | 0 <= i < ranges.Length :: Given(ranges[i])
    modifies ranges
    ensures !(200 <= status < 300) ==> !error && ranges[..] == old(ranges[..])
    ensures failed <==>
      !(200 <= status < 300) && provided && content != [] && !AllInside(old(ranges[..]), |content|)
    ensures content == [] ==>
      (error <==> 200 <= status < 300 && ranges.Length > 0) && announced == None && sent == []
    ensures !error && content != [] ==> announced.Some?
    ensures !error && content != [] && (status == 206 || ranges.Length == 0 || !provided) ==>
      announced == Some(|sent|)
    ensures !error && !failed && content != [] && provided && status != 206 && ranges.Length > 0 ==>
      && announced == Some(|content|) && AllInside(ranges[..], |content|)
      && (announced == Some(|sent|) <==>
            if ranges.Length == 1 then ranges[0] == Range(0, |content| - 1)
            else MultipartLength(ranges[..], 0, 0, |content|) == |content|)
    ensures !error && 200 <= status < 300 ==> AllInside(ranges[..], |content|) && Ascending(ranges[..])
    ensures !error && !failed && content != [] && (status == 206 || (provided && ranges.Length > 0)) ==>
      && AllInside(ranges[..], |content|)
      && sent == if ranges.Length == 1 then Sliced(content, ranges[0])
                 else if ranges.Length == 0 then content
                 else if status == 206 then MultipartData(content, ranges[..], made, header)
                 else MultipartData(content, ranges[..], [], [])
    ensures !error && status != 206 && (!provided || ranges.Length == 0) ==> sent == content
    ensures ranges.Length == 0 ==> !error && !failed && sent == content
    ensures status == 206 && ranges.Length == 1 ==>
      && (error <==> Asked(content, old(ranges[0])) == None)
      && (!error ==> sent == Asked(content, old(ranges[0])).value)
    ensures status == 206 && !error ==>
      forall i | 0 <= i < ranges.Length ::
        Asked(content, old(ranges[i])) != None && Inside(ranges[i], |content|)
        && Sliced(content, ranges[i]) == Asked(content, old(ranges[i])).value
  {
    hide MultipartData;
    hide MultipartLength;
    hide Asked;
    NothingInside(|content|);
    NormalAsked(content, ranges[..]);
    failed := false;
    if provided {
      error := RangeError(ranges, status, |content|, 0);
    } else {
      error := RangeError(ranges, status, 0, |content|);
    }
    if error {
      return true, false, None, [];
    }
    var length, body, boundary, contentType :=
      ApplyRanges(ranges[..], status, if provided then [] else content, if provided then |content| else 0, made, header);
    announced := length;
    sent := body;
    if provided && |content| > 0 {
      var written := WriteContentWithProvider(content, ranges[..], boundary, contentType);
      match written
      case None =>
        failed, sent := true, [];
      case Some(data) =>
        sent := data;
    }
    if ranges.Length > 1 && AllInside(ranges[..], |content|) {
      MultipartLengthIs(content, ranges[..], [], []);
    }
  }

  const OK: int := 200
  const RANGE_NOT_SATISFIABLE: int := 416

  /** A request from its Range field to the octets sent; the handler has set no status of its own. */
  method Serve(field: Option<string>, content: string, provided: bool, made: string, header: string)
    returns (status: int, announced: Option<nat>, sent: string)
    requires |content| <= SSIZE_MAX
    ensures field == None ==> status == 200 && sent == content
    ensures field.Some? && (Parse(field.value) == None || |Parse(field.value).value| == 1) ==>
      var asked := match Parse(field.value) case None => None case Some(rs) => Asked(content, rs[0]);
      if asked == None then status == 416 && sent == []
      else status == 206 && sent == asked.value && announced == Some(|sent|)
  {
    hide Asked;
    hide Parse;
    var ranges := [];
    if field.Some? {
      var parsed := ParseRangeHeader(field.value);
      if parsed == None {
        return RANGE_NOT_SATISFIABLE, None, [];
      }
      ParsedGiven(field.value);
      ranges := parsed.value;
    }
    status := if ranges == [] then OK else PARTIAL_CONTENT;
    var a := new Range[|ranges|](i requires 0 <= i < |ranges| => ranges[i]);
    var error, failed;
    error, failed, announced, sent := Respond(a, status, content, provided, made, header);
    if error {
      return RANGE_NOT_SATISFIABLE, None, [];
    }
  }

  lemma {:induction false} AllGiven(tokens: seq<string>)
    ensures ParseAll(tokens).Some? ==> forall i | 0 <= i < |ParseAll(tokens).value| :: Given(ParseAll(tokens).value[i])
  {
    hide ParseRange;
    if tokens != [] {
      AllGiven(tokens[1..]);
      RangeGiven(tokens[0]);
    }
  }

  lemma RangeGiven(token: string)
    ensures ParseRange(token).Some? ==> Given(ParseRange(token).value)
  {
    hide Find;
    hide ParseNumber;
  }

  lemma ParsedGiven(s: string)
    ensures Parse(s).Some? ==>
      Parse(s).value != [] && forall i | 0 <= i < |Parse(s).value| :: Given(Parse(s).value[i])
  {
    hide ParseAll;
    hide Tokens;
    if |s| > 7 && s[..6] == "bytes=" { AllGiven(Tokens(s[6..])); }
  }

  /** The last n octets, from the text of the request: all there is to a suffix range. */
  lemma SuffixAsked(content: string, n: nat)
    requires n <= SSIZE_MAX
    ensures Parse("bytes=-" + Print(n)) == Some([Range(-1, n)])
    ensures Asked(content, Range(-1, n))
         == if 0 < n <= |content| then Some(content[|content| - n..]) else None
  {
    hide Parse;
    hide Print;
    RequestTexts(0, n);
  }

  /**
   The check and the slicing agree on the length only if it is the same length: ranges accepted for
   `checked` octets all lie inside `used` octets exactly when `checked` is not the larger.
   */
  lemma CheckedForUsed(checked: nat, used: nat)
    requires checked <= SSIZE_MAX
    ensures (forall rs: seq<Range> | Acceptable(rs, checked) :: AllInside(rs, used)) <==> checked <= used
  {
    if checked > used {
      var rs := [Range(0, checked - 1)];
      assert rs[..0] == [] && Overlaps([]) == 0;
      assert Acceptable(rs, checked) && !AllInside(rs, used) by {
        assert !Inside(rs[0], used);
      }
    } else {
      forall rs: seq<Range> | Acceptable(rs, checked) ensures AllInside(rs, used) {
        forall i | 0 <= i < |rs| ensures Inside(rs[i], used) {
          assert Inside(rs[i], checked);
        }
      }
    }
  }
}