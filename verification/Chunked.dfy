/**
 The chunked transfer coding of section 7.1 of RFC 9112: the sink that emits it, the line reader
 with its fixed and growing buffers, and the reader that undoes it over a stream of short reads.
 Octets are characters, as in the std::string buffers of the original.
 */
module Chunked {
  import opened Decimal
  import opened Http
  import opened Search

  const DONE_MARKER: string := "0\r\n"
  const ULONG_MAX: nat := 0xFFFF_FFFF_FFFF_FFFF
  const RECV_BUFSIZ: nat := 16384

  // ---------- Hexadecimal ----------

  function HexDigit(d: nat): char
    requires d < 16
  {
    if d < 10 then '0' + d as char else 'a' + (d - 10) as char
  }

  function DigitValue(c: char): (v: int)
    ensures -1 <= v < 16
  {
    if '0' <= c <= '9' then c as int - '0' as int
    else if 'a' <= c <= 'f' then c as int - 'a' as int + 10
    else if 'A' <= c <= 'F' then c as int - 'A' as int + 10
    else -1
  }

  predicate IsHex(c: char)
  {
    DigitValue(c) >= 0
  }

  predicate AllHex(s: string)
  {
    forall i | 0 <= i < |s| :: IsHex(s[i])
  }

  function Hex(n: nat): (s: string)
    ensures s != [] && AllHex(s)
  {
    if n < 16 then [HexDigit(n)] else Hex(n / 16) + [HexDigit(n % 16)]
  }

  method FromIToHex(n: nat) returns (ret: string)
    ensures ret == Hex(n)
  {
    hide HexDigit;
    hide AllHex;
    ret := [HexDigit(n % 16)];
    var m: nat := n / 16;
    HexLast(n);
    while m > 0
      invariant HexAbove(m) + ret == Hex(n)
    {
      HexLast(m);
      assert HexAbove(m / 16) + [HexDigit(m % 16)] + ret == HexAbove(m / 16) + ([HexDigit(m % 16)] + ret);
      ret := [HexDigit(m % 16)] + ret;
      m := m / 16;
    }
    assert [] + ret == ret;
  }

  /** The digits in front of those already printed. */
  function HexAbove(m: nat): string
  {
    if m == 0 then [] else Hex(m)
  }

  lemma HexLast(n: nat)
    ensures Hex(n) == HexAbove(n / 16) + [HexDigit(n % 16)]
  {
    hide HexDigit;
  }

  function HexValue(s: string): nat
    requires AllHex(s)
  {
    if s == [] then 0 else HexValue(s[..|s| - 1]) * 16 + DigitValue(s[|s| - 1])
  }

  lemma {:induction false} HexValueHex(n: nat)
    ensures HexValue(Hex(n)) == n
  {
    if n >= 16 {
      HexValueHex(n / 16);
      assert Hex(n)[..|Hex(n)| - 1] == Hex(n / 16);
    }
  }

  /** Lower case in front of a chunk, either case from one. */
  lemma DigitsAre(d: nat, c: char)
    requires d < 16
    ensures HexDigit(d) == "0123456789abcdef"[d]
    ensures DigitValue(c) == d <==> c == "0123456789abcdef"[d] || c == "0123456789ABCDEF"[d]
  {
    if d < 10 {
      assert "0123456789abcdef"[d] == "0123456789ABCDEF"[d] == '0' + d as char;
    } else {
      assert "0123456789abcdef"[d] == 'a' + (d - 10) as char && "0123456789ABCDEF"[d] == 'A' + (d - 10) as char;
    }
  }

  lemma {:induction false} HexCanonical(n: nat)
    ensures Hex(n)[0] == '0' <==> n == 0
    ensures n == 0 ==> Hex(n) == "0"
  {
    if n >= 16 {
      HexCanonical(n / 16);
    }
  }

  lemma HexValueIs(digits: string, c: char)
    requires AllHex(digits) && IsHex(c)
    ensures AllHex(digits + [c]) && HexValue([]) == 0
    ensures HexValue(digits + [c]) == 16 * HexValue(digits) + DigitValue(c)
  {
    assert (digits + [c])[..|digits|] == digits;
  }

  // ---------- std::strtoul in base 16 ----------

  datatype Size = NoNumber | Size(n: nat)

  function LeadingHex(s: string): (p: string)
    ensures AllHex(p)
  {
    if s != [] && IsHex(s[0]) then [s[0]] + LeadingHex(s[1..]) else []
  }

  /** The digits behind an 0x prefix, which a digit must follow, or behind none. */
  function Digits16(u: string): (digits: string)
    ensures AllHex(digits)
  {
    var prefixed := |u| >= 3 && u[0] == '0' && (u[1] == 'x' || u[1] == 'X') && IsHex(u[2]);
    LeadingHex(if prefixed then u[2..] else u)
  }

  /** Spaces, a sign, digits; saturating, negation modulo 2^64. */
  function Strtoul(s: string): Size
  {
    var t := SkipSpace(s);
    var negative := t != [] && t[0] == '-';
    var u := if t != [] && (t[0] == '-' || t[0] == '+') then t[1..] else t;
    var digits := Digits16(u);
    if digits == [] then NoNumber
    else
      var v := HexValue(digits);
      if v > ULONG_MAX then Size(ULONG_MAX)
      else Size(if negative && v > 0 then ULONG_MAX + 1 - v else v)
  }

  lemma {:induction false} LeadingHexStops(digits: string, rest: string)
    requires AllHex(digits) && (rest == [] || !IsHex(rest[0]))
    ensures LeadingHex(digits + rest) == digits
  {
    if digits == [] {
      assert digits + rest == rest;
    } else {
      LeadingHexStops(digits[1..], rest);
      assert (digits + rest)[1..] == digits[1..] + rest;
    }
  }

  lemma StrtoulHex(n: nat)
    requires n <= ULONG_MAX
    ensures Strtoul(Hex(n) + CRLF) == Size(n)
  {
    hide Hex;
    hide HexValue;
    hide Strtoul;
    HexValueHex(n);
    StrtoulIs("", "", "", Hex(n), CRLF);
    assert "" + "" + "" + Hex(n) + CRLF == Hex(n) + CRLF;
  }

  /**
   What strtoul makes of spaces, a sign or none, 0x or not, digits or none, and whatever follows that
   is no digit, such as a chunk extension.
   */
  lemma StrtoulIs(spaces: string, sign: string, prefix: string, digits: string, rest: string)
    requires AllSpace(spaces) && sign in {"", "+", "-"} && prefix in {"", "0x", "0X"}
    requires AllHex(digits) && (rest != [] ==> !IsHex(rest[0])) && (prefix != "" ==> digits != [])
    requires prefix == "" && digits == "0" ==> !(|rest| >= 2 && rest[0] in {'x', 'X'} && IsHex(rest[1]))
    requires digits == [] ==> rest == [] || (!IsSpace(rest[0]) && (sign == "" ==> rest[0] != '+' && rest[0] != '-'))
    ensures Strtoul(spaces + sign + prefix + digits + rest)
      == if digits == [] then NoNumber
         else
           var v := HexValue(digits);
           if v > 0xFFFF_FFFF_FFFF_FFFF then Size(0xFFFF_FFFF_FFFF_FFFF)
           else if sign == "-" && v > 0 then Size(0x1_0000_0000_0000_0000 - v)
           else Size(v)
  {
    hide HexValue;
    hide SkipSpace;
    hide Digits16;
    hide AllHex;
    hide IsHex;
    hide AllSpace;
    var u := prefix + (digits + rest);
    var t := sign + u;
    RegroupSize(spaces, sign, prefix, digits, rest);
    SizeIsPlain(prefix, digits, rest);
    assert t != [] ==> !IsSpace(t[0]);
    SkipSpaceIs(spaces, t);
    assert sign != "" ==> t[0] == sign[0] && t[1..] == u;
    assert sign == "" ==> t == u;
    Digits16Is(prefix, digits, rest);
  }

  lemma RegroupSize(spaces: string, sign: string, prefix: string, digits: string, rest: string)
    ensures spaces + sign + prefix + digits + rest == spaces + (sign + (prefix + (digits + rest)))
  {
  }

  lemma NoPrefix(digits: string, rest: string)
    requires AllHex(digits) && (rest != [] ==> !IsHex(rest[0]))
    requires digits == "0" ==> !(|rest| >= 2 && rest[0] in {'x', 'X'} && IsHex(rest[1]))
    ensures var u := digits + rest; !(|u| >= 3 && u[0] == '0' && (u[1] == 'x' || u[1] == 'X') && IsHex(u[2]))
  {
    var u := digits + rest;
    assert !IsHex('x') && !IsHex('X') && IsHex('0');
    if |digits| >= 2 {
      assert u[1] == digits[1] && IsHex(u[1]);
    } else if |digits| == 1 {
      assert digits == [u[0]] && |u| == 1 + |rest|;
      assert rest != [] ==> u[1] == rest[0];
      assert |rest| >= 2 ==> u[2] == rest[1];
    } else {
      assert u == rest;
    }
  }

  lemma Digits16Is(prefix: string, digits: string, rest: string)
    requires prefix in {"", "0x", "0X"}
    requires AllHex(digits) && (rest != [] ==> !IsHex(rest[0])) && (prefix != "" ==> digits != [])
    requires prefix == "" && digits == "0" ==> !(|rest| >= 2 && rest[0] in {'x', 'X'} && IsHex(rest[1]))
    ensures Digits16(prefix + (digits + rest)) == digits
  {
    var u := prefix + (digits + rest);
    LeadingHexStops(digits, rest);
    if prefix == "" {
      NoPrefix(digits, rest);
      assert u == digits + rest;
    } else {
      assert u[2..] == digits + rest && IsHex(u[2]);
    }
  }

  /** No digit, sign or space at the beginning, unless a prefix or a digit is there first. */
  lemma SizeIsPlain(prefix: string, digits: string, rest: string)
    requires prefix in {"", "0x", "0X"} && AllHex(digits)
    ensures var u := prefix + (digits + rest);
      u != [] && (prefix != "" || digits != []) ==> !IsSpace(u[0]) && u[0] != '+' && u[0] != '-'
    ensures prefix == "" && digits == [] ==> prefix + (digits + rest) == rest
  {
    var u := prefix + (digits + rest);
    assert prefix == "" && digits != [] ==> u[0] == digits[0] && IsHex(digits[0]);
  }

  // ---------- Streams and lines ----------

  /**
   What is still to be read, and whether the connection breaks behind it instead of ending. A read
   returns some prefix, as short as it likes but not empty; only behind the data can it fail.
   */
  class Stream {
    var data: string
    const breaks: bool

    constructor (data: string, breaks: bool)
      ensures this.data == data && this.breaks == breaks
    {
      this.data := data;
      this.breaks := breaks;
    }

    method Read(size: nat) returns (buf: string, error: bool)
      modifies this
      ensures old(data) == buf + data && |buf| <= size
      ensures buf == [] <==> size == 0 || old(data) == []
      ensures error <==> breaks && size > 0 && old(data) == []
    {
      var n: nat :| n <= size && n <= |data| && (n == 0 <==> size == 0 || data == []);
      error := breaks && size > 0 && data == [];
      buf := data[..n];
      data := data[n..];
    }
  }

  /** A line with its terminator, or everything when no terminator is left. */
  function FirstLine(s: string): (line: string)
    ensures line <= s && (s != [] ==> line != [])
  {
    var i := Find(s, CRLF, 0);
    if i < |s| then s[..i + 2] else s
  }

  /** What the first line leaves behind. */
  function Rest(s: string): string
  {
    s[|FirstLine(s)|..]
  }

  /** Whether there is a line to be got: a broken connection takes an unfinished one with it. */
  predicate HasLine(s: string, breaks: bool)
  {
    s != [] && (breaks ==> Find(s, CRLF, 0) < |s|)
  }

  class LineReader {
    const strm: Stream
    const fixed: array<char>
    var used: nat
    var growable: string

    ghost predicate Valid()
      reads this, fixed
    {
      && used < fixed.Length
      && (used > 0 ==> fixed[used] == '\0')
      && (growable != [] ==> used == fixed.Length - 1)
    }

    /** The line read so far, whichever buffer holds it. */
    ghost function Line(): string
      reads this, fixed
      requires Valid()
    {
      if growable == [] then fixed[..used] else growable
    }

    constructor (strm: Stream, size: nat)
      requires size >= 2
      ensures Valid() && this.strm == strm && fresh(fixed) && fixed.Length == size && Line() == []
    {
      this.strm := strm;
      fixed := new char[size];
      used := 0;
      growable := [];
    }

    method Text() returns (s: string)
      requires Valid()
      ensures s == Line()
    {
      s := if growable == [] then fixed[..used] else growable;
    }

    method Append(c: char)
      requires Valid() && fixed.Length >= 2
      modifies this, fixed
      ensures Valid() && Line() == old(Line()) + [c]
    {
      if used < fixed.Length - 1 {
        fixed[used] := c;
        used := used + 1;
        fixed[used] := '\0';
      } else {
        if growable == [] {
          assert fixed[used] == '\0';
          growable := fixed[..used];
        }
        growable := growable + [c];
      }
    }

    /** One octet from the stream to the buffers, if there is one. */
    method ReadOctet() returns (octet: string, error: bool)
      requires Valid() && fixed.Length >= 2
      modifies this, fixed, strm
      ensures Valid() && Line() == old(Line()) + octet && old(strm.data) == octet + strm.data
      ensures |octet| <= 1 && (octet == [] <==> old(strm.data) == [])
      ensures error <==> strm.breaks && octet == []
    {
      octet, error := strm.Read(1);
      if octet == [] {
        assert Line() + [] == Line();
      } else {
        assert octet == [octet[0]];
        Append(octet[0]);
      }
    }

    /** Leaves the first line in the buffers and the rest in the stream. */
    method GetLine() returns (ok: bool)
      requires Valid() && fixed.Length >= 2
      modifies this, fixed, strm
      ensures Valid()
      ensures ok <==> HasLine(old(strm.data), strm.breaks)
      ensures Line() == FirstLine(old(strm.data))
      ensures strm.data == Rest(old(strm.data))
    {
      hide FirstLine;
      hide Rest;
      hide HasLine;
      hide Unbroken;
      used := 0;
      growable := [];
      var prev := "";
      ghost var all, line := strm.data, "";
      LineBegins(all);
      var i := 0;
      while true
        invariant Valid() && fixed.Length >= 2 && Line() == line && |line| == i && all == line + strm.data
        invariant Unbroken(line) && prev == LastOctet(line)
        decreases |strm.data|
      {
        var octet, error := ReadOctet();
        if octet == [] {
          UnbrokenLine(line, all, strm.breaks);
          if error {
            return false;
          }
          return i != 0;
        }
        assert octet == [octet[0]];
        GrowLine(line, octet[0], strm.data, all, strm.breaks);
        line := line + octet;
        if prev == "\r" && octet[0] == '\n' {
          return true;
        }
        prev := octet;
        i := i + 1;
      }
    }
  }

  function LastOctet(line: string): string
  {
    if line == [] then [] else [line[|line| - 1]]
  }

  /** No terminator is complete inside the line. */
  ghost predicate Unbroken(line: string)
  {
    forall j: nat | j < |line| :: !Occurs(line, CRLF, j)
  }

  lemma LineBegins(all: string)
    ensures Unbroken([]) && [] + all == all
  {
  }

  lemma NoLine(breaks: bool)
    ensures !HasLine([], breaks) && FirstLine([]) == [] && Rest([]) == []
  {
  }

  lemma UnbrokenLine(line: string, all: string, breaks: bool)
    requires Unbroken(line) && all == line + []
    ensures FirstLine(all) == line && Rest(all) == []
    ensures HasLine(all, breaks) <==> line != [] && !breaks
  {
    assert all == line;
  }

  /** One more octet either completes the first line or leaves it unbroken. */
  lemma GrowLine(line: string, c: char, rest: string, all: string, breaks: bool)
    requires Unbroken(line) && all == line + ([c] + rest)
    ensures all == (line + [c]) + rest && LastOctet(line + [c]) == [c]
    ensures if LastOctet(line) == "\r" && c == '\n' then
              FirstLine(all) == line + [c] && Rest(all) == rest && HasLine(all, breaks)
            else Unbroken(line + [c])
  {
    var grown := line + [c];
    assert all == grown + rest;
    forall j: nat | j < |grown|
      ensures Occurs(grown, CRLF, j) <==> j == |line| - 1 && line[j] == '\r' && c == '\n'
    {
      if j + 2 <= |line| {
        OccursAppend(line, [c], CRLF, j);
      } else if j + 2 == |grown| {
        assert grown[j..j + 2] == [line[j], c];
      }
    }
    if LastOctet(line) == "\r" && c == '\n' {
      FindIs(grown, CRLF, 0, |line| - 1);
      FindAppend(grown, rest, CRLF, 0);
    }
  }

  // ---------- The reader ----------

  /** Whether the reader accepts, what it hands to its receiver, and what it leaves in the stream. */
  datatype Decoded = Decoded(ok: bool, out: string, rest: string)

  function Behind(out: string, d: Decoded): Decoded
  {
    d.(out := out + d.out)
  }

  /** Skips trailer lines up to the empty one; only the very first line may be missing. */
  function SkipTrailer(s: string, breaks: bool, first: bool): Decoded
    decreases |s|
  {
    if !HasLine(s, breaks) then Decoded(first, [], Rest(s))
    else if FirstLine(s) == CRLF then Decoded(true, [], Rest(s))
    else if |FirstLine(s)| > HEADER_MAX_LENGTH then Decoded(false, [], Rest(s))
    else SkipTrailer(Rest(s), breaks, false)
  }

  function Decode(s: string, breaks: bool): Decoded
    decreases |s|
  {
    if !HasLine(s, breaks) then Decoded(false, [], Rest(s))
    else
      var size, body := Strtoul(FirstLine(s)), Rest(s);
      if size == NoNumber || size.n == ULONG_MAX then Decoded(false, [], body)
      else if size.n == 0 then SkipTrailer(body, breaks, true)
      else if |body| < size.n then Decoded(false, body, [])
      else
        var chunk, after := body[..size.n], body[size.n..];
        if !HasLine(after, breaks) || FirstLine(after) != CRLF then Decoded(false, chunk, Rest(after))
        else Behind(chunk, Decode(Rest(after), breaks))
  }

  method ReadContentWithLength(strm: Stream, len: nat) returns (ok: bool, out: string)
    modifies strm
    ensures old(strm.data) == out + strm.data
    ensures ok <==> len <= |old(strm.data)|
    ensures |out| == if ok then len else |old(strm.data)|
  {
    out := [];
    while |out| < len
      invariant |out| <= len && old(strm.data) == out + strm.data
      decreases len - |out|
    {
      var want := if len - |out| < RECV_BUFSIZ then len - |out| else RECV_BUFSIZ;
      var buf, error := strm.Read(want);
      if error || buf == [] {
        return false, out;
      }
      out := out + buf;
    }
    return true, out;
  }

  /** The octets of one chunk and the empty line after them. */
  method ReadChunk(strm: Stream, reader: LineReader, size: nat) returns (ok: bool, chunk: string)
    requires reader.Valid() && reader.strm == strm && reader.fixed.Length >= 2
    modifies strm, reader, reader.fixed
    ensures reader.Valid()
    ensures var body := old(strm.data);
      if |body| < size then !ok && chunk == body && strm.data == []
      else
        && chunk == body[..size]
        && (ok <==> HasLine(body[size..], strm.breaks) && FirstLine(body[size..]) == CRLF)
        && strm.data == Rest(body[size..])
  {
    hide HasLine;
    hide FirstLine;
    hide Rest;
    ok, chunk := ReadContentWithLength(strm, size);
    if ok {
      assert chunk == old(strm.data)[..size] && strm.data == old(strm.data)[size..];
      ok := reader.GetLine();
      if ok {
        var line := reader.Text();
        ok := line == CRLF;
      }
    }
  }

  /** What the loop does with one chunk. */
  lemma DecodeSized(s: string, breaks: bool, n: nat)
    requires HasLine(s, breaks) && Strtoul(FirstLine(s)) == Size(n) && 0 < n != ULONG_MAX
    ensures var body := Rest(s);
      if |body| < n then Decode(s, breaks) == Decoded(false, body, [])
      else
        var after := body[n..];
        Decode(s, breaks) == if HasLine(after, breaks) && FirstLine(after) == CRLF
          then Behind(body[..n], Decode(Rest(after), breaks)) else Decoded(false, body[..n], Rest(after))
  {
    hide Strtoul;
    hide FirstLine;
    hide HasLine;
    hide Behind;
  }

  lemma DecodeUnsized(s: string, breaks: bool)
    requires HasLine(s, breaks)
    ensures var size := Strtoul(FirstLine(s));
      && (size == NoNumber || size.n == ULONG_MAX ==> Decode(s, breaks) == Decoded(false, [], Rest(s)))
      && (size == Size(0) ==> Decode(s, breaks) == SkipTrailer(Rest(s), breaks, true))
  {
    hide Strtoul;
    hide FirstLine;
    hide HasLine;
    hide SkipTrailer;
  }

  lemma DecodeNoLine(s: string, breaks: bool)
    requires !HasLine(s, breaks)
    ensures Decode(s, breaks) == Decoded(false, [], Rest(s))
  {
  }

  lemma BehindMore(out: string, chunk: string, d: Decoded)
    ensures Behind(out, Behind(chunk, d)) == Behind(out + chunk, d)
    ensures Behind([], d) == d && Behind(out, Decoded(d.ok, chunk, d.rest)) == Decoded(d.ok, out + chunk, d.rest)
  {
    assert out + (chunk + d.out) == out + chunk + d.out && [] + d.out == d.out;
  }

  method ReadContentChunked(strm: Stream) returns (ok: bool, out: string)
    modifies strm
    ensures Decoded(ok, out, strm.data) == Decode(old(strm.data), strm.breaks)
  {
    hide Strtoul;
    hide FirstLine;
    hide HasLine;
    hide Rest;
    hide SkipTrailer;
    hide Decode;
    hide Behind;
    var reader := new LineReader(strm, 16);
    ghost var here := strm.data;
    ghost var whole := Decode(here, strm.breaks);
    out := [];
    BehindMore([], [], whole);
    var more := reader.GetLine();
    if !more {
      DecodeNoLine(here, strm.breaks);
      return false, out;
    }
    while true
      invariant reader.Valid() && fresh(reader) && fresh(reader.fixed) && reader.fixed.Length == 16
      invariant HasLine(here, strm.breaks) && reader.Line() == FirstLine(here) && strm.data == Rest(here)
      invariant whole == Behind(out, Decode(here, strm.breaks))
      decreases |here|
    {
      var line := reader.Text();
      var size := Strtoul(line);
      DecodeUnsized(here, strm.breaks);
      BehindMore(out, [], Decoded(false, [], strm.data));
      assert out + [] == out;
      if size == NoNumber || size.n == ULONG_MAX {
        return false, out;
      }
      if size.n == 0 {
        break;
      }
      DecodeSized(here, strm.breaks, size.n);
      RestShorter(here, strm.breaks);
      ghost var body := strm.data;
      var got, chunk := ReadChunk(strm, reader, size.n);
      RestShorter(body[if |body| < size.n then 0 else size.n..], strm.breaks);
      BehindMore(out, chunk, Decoded(false, chunk, strm.data));
      BehindMore(out, chunk, Decode(strm.data, strm.breaks));
      out := out + chunk;
      if !got {
        return false, out;
      }
      here := strm.data;
      more := reader.GetLine();
      if !more {
        DecodeNoLine(here, strm.breaks);
        BehindMore(out, [], Decoded(false, [], strm.data));
        assert out + [] == out;
        return false, out;
      }
    }
    ghost var end := SkipTrailer(strm.data, strm.breaks, true);
    ok := ReadTrailer(strm, reader);
    BehindMore(out, [], end);
    assert out + [] == out;
  }

  lemma RestShorter(s: string, breaks: bool)
    ensures |Rest(s)| <= |s| && (HasLine(s, breaks) ==> |Rest(s)| < |s|)
  {
  }

  method ReadTrailer(strm: Stream, reader: LineReader) returns (ok: bool)
    requires reader.Valid() && reader.strm == strm && reader.fixed.Length >= 2
    modifies strm, reader, reader.fixed
    ensures Decoded(ok, [], strm.data) == SkipTrailer(old(strm.data), strm.breaks, true)
  {
    hide FirstLine;
    hide HasLine;
    hide Rest;
    ghost var here := strm.data;
    var first := reader.GetLine();
    if !first {
      return true;
    }
    ghost var at := here;
    var line := reader.Text();
    while line != CRLF
      invariant reader.Valid() && HasLine(at, strm.breaks) && line == FirstLine(at) && strm.data == Rest(at)
      invariant SkipTrailer(here, strm.breaks, true) == SkipTrailer(at, strm.breaks, true)
      decreases |strm.data|
    {
      if |line| > HEADER_MAX_LENGTH {
        return false;
      }
      at := strm.data;
      RestShorter(at, strm.breaks);
      var more := reader.GetLine();
      if !more {
        return false;
      }
      line := reader.Text();
      assert SkipTrailer(at, strm.breaks, true) == SkipTrailer(at, strm.breaks, false);
    }
    return true;
  }

  // ---------- The writer ----------

  datatype SinkOp = Write(data: string) | Done

  /** One call of the content provider: what it does to the sink, and what it returns. */
  datatype Call = Call(ops: seq<SinkOp>, ok: bool)

  function Chunk(payload: string): string
  {
    if payload == [] then [] else Hex(|payload|) + CRLF + payload + CRLF
  }

  function Flatten(writes: seq<string>): string
  {
    if writes == [] then [] else writes[0] + Flatten(writes[1..])
  }

  function Framed(writes: seq<string>): seq<string>
  {
    seq(|writes|, i requires 0 <= i < |writes| => Chunk(writes[i]))
  }

  function Chunks(writes: seq<string>): string
  {
    Flatten(Framed(writes))
  }

  const LAST_CHUNK: string := DONE_MARKER + CRLF

  function Min(a: nat, b: nat): nat
  {
    if a < b then a else b
  }

  /** The sink with the identity compressor, over a connection that accepts `room` more octets. */
  class ChunkedSink {
    var sent: string
    var dataAvailable: bool
    var ok: bool
    var room: nat

    constructor (room: nat)
      ensures sent == [] && dataAvailable && ok && this.room == room
    {
      sent := [];
      dataAvailable := true;
      ok := true;
      this.room := room;
    }

    /** Sends what the connection accepts; true if that is everything. */
    method Send(data: string) returns (all: bool)
      modifies this`sent, this`room
      ensures var n := Min(|data|, old(room));
        sent == old(sent) + data[..n] && room == old(room) - n && all == (n == |data|)
    {
      var n := Min(|data|, room);
      sent := sent + data[..n];
      room := room - n;
      return n == |data|;
    }

    method Write(d: string) returns (accepted: bool)
      modifies this
      ensures accepted == ok
      ensures !old(ok) ==> !ok && sent == old(sent) && room == old(room)
      ensures old(ok) ==>
        var n := Min(|Chunk(d)|, old(room));
        && dataAvailable == (d != []) && ok == (n == |Chunk(d)|)
        && sent == old(sent) + Chunk(d)[..n] && room == old(room) - n
    {
      if ok {
        dataAvailable := |d| > 0;
        if d != [] {
          var size := FromIToHex(|d|);
          var all := Send(size + CRLF + d + CRLF);
          if !all {
            ok := false;
          }
        } else {
          assert sent + [] == sent;
        }
      }
      return ok;
    }

    method Done()
      modifies this
      ensures !old(ok) ==> !ok && sent == old(sent) && room == old(room)
      ensures old(ok) ==>
        var n := Min(|LAST_CHUNK|, old(room));
        && !dataAvailable && ok == (n == |LAST_CHUNK|)
        && sent == old(sent) + LAST_CHUNK[..n] && room == old(room) - n
    {
      if !ok {
        return;
      }
      dataAvailable := false;
      ghost var before, limit := sent, room;
      var all := Send(DONE_MARKER);
      if !all {
        ok := false;
      }
      all := Send(CRLF);
      if !all {
        ok := false;
      }
      assert |DONE_MARKER| == 3 && |CRLF| == 2 && |LAST_CHUNK| == 5;
      assert limit <= 3 ==> LAST_CHUNK[..limit] == DONE_MARKER[..limit] + CRLF[..0];
      assert 3 < limit < 5 ==> LAST_CHUNK[..limit] == DONE_MARKER[..3] + CRLF[..limit - 3];
      assert limit >= 5 ==> LAST_CHUNK[..5] == DONE_MARKER[..3] + CRLF[..2];
    }
  }

  datatype Sent = Sent(bytes: string, dataAvailable: bool)

  function Perform(st: Sent, op: SinkOp): Sent
  {
    match op
    case Write(d) => Sent(st.bytes + Chunk(d), d != [])
    case Done => Sent(st.bytes + LAST_CHUNK, false)
  }

  function Operate(st: Sent, ops: seq<SinkOp>): Sent
    decreases |ops|
  {
    if ops == [] then st else Operate(Perform(st, ops[0]), ops[1..])
  }

  /** Calls the provider while data is available; the server starts to shut down after the last call. */
  function Provide(st: Sent, calls: seq<Call>): (r: (Sent, bool))
    decreases |calls|
  {
    if !st.dataAvailable || calls == [] then (st, true)
    else if !calls[0].ok then (Operate(st, calls[0].ops), false)
    else Provide(Operate(st, calls[0].ops), calls[1..])
  }

  lemma {:induction false} OperateGrows(st: Sent, ops: seq<SinkOp>)
    ensures st.bytes <= Operate(st, ops).bytes
    decreases |ops|
  {
    hide Chunk;
    hide LAST_CHUNK;
    if ops != [] {
      OperateGrows(Perform(st, ops[0]), ops[1..]);
    }
  }

  lemma {:induction false} ProvideGrows(st: Sent, calls: seq<Call>)
    ensures st.bytes <= Provide(st, calls).0.bytes
    decreases |calls|
  {
    hide Operate;
    if st.dataAvailable && calls != [] {
      OperateGrows(st, calls[0].ops);
      if calls[0].ok {
        ProvideGrows(Operate(st, calls[0].ops), calls[1..]);
      }
    }
  }

  /** What a call sends through a connection that takes `total` octets in all. */
  method RunOperations(sink: ChunkedSink, ops: seq<SinkOp>, ghost total: nat)
    requires sink.ok && |sink.sent| + sink.room == total
    modifies sink
    ensures var st := Operate(Sent(old(sink.sent), old(sink.dataAvailable)), ops);
      if |st.bytes| <= total then
        sink.ok && Sent(sink.sent, sink.dataAvailable) == st && |sink.sent| + sink.room == total
      else !sink.ok && sink.sent == st.bytes[..total]
  {
    hide Chunk;
    hide LAST_CHUNK;
    hide Operate;
    ghost var st := Operate(Sent(sink.sent, sink.dataAvailable), ops);
    assert ops[0..] == ops;
    var j := 0;
    while j < |ops|
      invariant j <= |ops|
      invariant sink.ok ==> |sink.sent| + sink.room == total
      invariant sink.ok ==> st == Operate(Sent(sink.sent, sink.dataAvailable), ops[j..])
      invariant !sink.ok ==> |st.bytes| > total && sink.sent == st.bytes[..total]
    {
      ghost var before := Sent(sink.sent, sink.dataAvailable);
      OperateNext(before, ops, j);
      match ops[j] {
        case Write(d) =>
          assert Chunk(d)[..|Chunk(d)|] == Chunk(d);
          var _ := sink.Write(d);
        case Done =>
          assert LAST_CHUNK[..|LAST_CHUNK|] == LAST_CHUNK;
          sink.Done();
      }
      j := j + 1;
    }
    OperateNone(Sent(sink.sent, sink.dataAvailable), ops[j..]);
  }

  lemma OperateNext(st: Sent, ops: seq<SinkOp>, j: nat)
    requires j < |ops|
    ensures Operate(st, ops[j..]) == Operate(Perform(st, ops[j]), ops[j + 1..])
    ensures Perform(st, ops[j]).bytes <= Operate(st, ops[j..]).bytes
  {
    hide Perform;
    assert ops[j..][1..] == ops[j + 1..];
    OperateGrows(Perform(st, ops[j]), ops[j + 1..]);
  }

  lemma OperateNone(st: Sent, ops: seq<SinkOp>)
    requires ops == []
    ensures Operate(st, ops) == st
  {
  }

  /**
   Over a connection that takes `total` octets, the octets sent are the first `total` of those the
   provider produces, and success is reported exactly if that is all of them and no call refused.
   */
  method WriteContentChunked(calls: seq<Call>, total: nat) returns (ok: bool, sent: string)
    ensures var (st, success) := Provide(Sent([], true), calls);
      sent == st.bytes[..Min(|st.bytes|, total)] && ok == (success && |st.bytes| <= total)
  {
    hide Operate;
    var sink := new ChunkedSink(total);
    ghost var whole := Provide(Sent([], true), calls);
    var i := 0;
    while sink.dataAvailable && i < |calls|
      invariant i <= |calls| && fresh(sink)
      invariant sink.ok && |sink.sent| + sink.room == total
      invariant whole == Provide(Sent(sink.sent, sink.dataAvailable), calls[i..])
    {
      ghost var next := Operate(Sent(sink.sent, sink.dataAvailable), calls[i].ops);
      assert calls[i..][1..] == calls[i + 1..];
      ProvideGrows(next, calls[i + 1..]);
      RunOperations(sink, calls[i].ops, total);
      if !calls[i].ok {
        return false, sink.sent;
      } else if !sink.ok {
        return false, sink.sent;
      }
      i := i + 1;
    }
    return true, sink.sent;
  }

  /** A provider that refuses ends the loop, and the refusal is reported. */
  lemma RefusalReported(bytes: string, ops: seq<SinkOp>, calls: seq<Call>)
    ensures Provide(Sent(bytes, true), [Call(ops, false)] + calls) == (Operate(Sent(bytes, true), ops), false)
    ensures Provide(Sent(bytes, true), [Call(ops, true)] + calls) == Provide(Operate(Sent(bytes, true), ops), calls)
  {
    hide Operate;
    assert ([Call(ops, true)] + calls)[1..] == calls;
  }

  // ---------- Trailers ----------

  predicate TrailerLine(line: string)
  {
    line != [] && |line| + 2 <= 8192 && forall i | 0 <= i < |line| :: line[i] != '\r'
  }

  function TrailerText(lines: seq<string>): string
  {
    if lines == [] then [] else lines[0] + CRLF + TrailerText(lines[1..])
  }

  lemma {:induction false} TrailerLines(lines: seq<string>, more: string, breaks: bool, first: bool)
    requires forall i | 0 <= i < |lines| :: TrailerLine(lines[i])
    ensures SkipTrailer(TrailerText(lines) + more, breaks, first)
         == SkipTrailer(more, breaks, first && lines == [])
    decreases |lines|
  {
    hide FirstLine;
    hide HasLine;
    hide Rest;
    if lines == [] {
      assert TrailerText(lines) + more == more;
    } else {
      var rest := TrailerText(lines[1..]) + more;
      assert TrailerText(lines) + more == lines[0] + CRLF + rest;
      FirstLineIs(lines[0], rest);
      TrailerNext(lines[0] + CRLF + rest, lines[0], rest, breaks, first);
      TrailerLines(lines[1..], more, breaks, false);
    }
  }

  lemma TrailerNext(s: string, line: string, rest: string, breaks: bool, first: bool)
    requires FirstLine(s) == line + CRLF && Rest(s) == rest && HasLine(s, breaks) && TrailerLine(line)
    ensures SkipTrailer(s, breaks, first) == SkipTrailer(rest, breaks, false)
  {
    hide FirstLine;
    hide HasLine;
    hide Rest;
    assert (line + CRLF)[0] == line[0] && CRLF[0] == '\r';
  }

  /** Behind the last chunk, trailer lines up to the limit are read over, and the empty line ends the body. */
  lemma TrailersSkipped(lines: seq<string>, tail: string, breaks: bool)
    requires forall i | 0 <= i < |lines| :: TrailerLine(lines[i])
    ensures Decode("0\r\n" + TrailerText(lines) + "\r\n" + tail, breaks) == Decoded(true, [], tail)
    ensures lines != [] ==> !Decode("0\r\n" + TrailerText(lines), breaks).ok
    ensures Decode("0\r\n", breaks).ok
  {
    hide Decode;
    hide SkipTrailer;
    LastBegins(TrailerText(lines) + (CRLF + tail), breaks);
    assert "0\r\n" + TrailerText(lines) + "\r\n" + tail == "0" + CRLF + (TrailerText(lines) + (CRLF + tail));
    TrailerLines(lines, CRLF + tail, breaks, true);
    EmptyLineEnds(tail, breaks, lines == []);
    LastBegins(TrailerText(lines), breaks);
    assert "0\r\n" + TrailerText(lines) == "0" + CRLF + TrailerText(lines);
    TrailerLines(lines, [], breaks, true);
    assert TrailerText(lines) + [] == TrailerText(lines);
    NothingEnds(breaks, lines == []);
    NothingEnds(breaks, true);
    LastBegins([], breaks);
    assert "0\r\n" == "0" + CRLF + [];
  }

  /** A trailer line above the limit is refused. */
  lemma LongTrailerRefused(line: string, rest: string, breaks: bool)
    requires |line| + 2 > 8192 && forall i | 0 <= i < |line| :: line[i] != '\r'
    ensures !Decode("0\r\n" + line + "\r\n" + rest, breaks).ok
  {
    hide Decode;
    assert "0\r\n" + line + "\r\n" + rest == "0" + CRLF + (line + CRLF + rest);
    LastBegins(line + CRLF + rest, breaks);
    FirstLineIs(line, rest);
  }

  lemma LastBegins(rest: string, breaks: bool)
    ensures Decode("0" + CRLF + rest, breaks) == SkipTrailer(rest, breaks, true)
  {
    hide SkipTrailer;
    hide Decode;
    FirstLineIs("0", rest);
    assert Hex(0) == "0";
    StrtoulHex(0);
    DecodeUnsized("0" + CRLF + rest, breaks);
  }

  lemma EmptyLineEnds(tail: string, breaks: bool, first: bool)
    ensures SkipTrailer(CRLF + tail, breaks, first) == Decoded(true, [], tail)
  {
    assert CRLF + tail == [] + CRLF + tail;
    FirstLineIs([], tail);
  }

  lemma NothingEnds(breaks: bool, first: bool)
    ensures SkipTrailer([], breaks, first) == Decoded(first, [], [])
  {
    NoLine(breaks);
  }

  // ---------- The round trip ----------

  predicate Sizable(writes: seq<string>)
  {
    forall i | 0 <= i < |writes| :: |writes[i]| < ULONG_MAX
  }

  lemma FirstLineIs(line: string, rest: string)
    requires forall i | 0 <= i < |line| :: line[i] != '\r'
    ensures FirstLine(line + CRLF + rest) == line + CRLF && forall breaks :: HasLine(line + CRLF + rest, breaks)
    ensures Rest(line + CRLF + rest) == rest
  {
    forall i: nat | i <= |line| ensures !Occurs(line, CRLF, i) {
      assert i + 2 <= |line| ==> line[i..i + 2][0] == line[i];
    }
    FindAfter(line, CRLF, rest);
    assert (line + CRLF + rest)[..|line| + 2] == line + CRLF;
  }

  lemma {:induction false} HexHasNoCR(n: nat)
    ensures forall i | 0 <= i < |Hex(n)| :: Hex(n)[i] != '\r'
  {
    assert !IsHex('\r');
  }

  lemma DecodeChunk(payload: string, rest: string, breaks: bool)
    requires payload != [] && |payload| < ULONG_MAX
    ensures Decode(Chunk(payload) + rest, breaks) == Behind(payload, Decode(rest, breaks))
  {
    hide Strtoul;
    hide FirstLine;
    hide HasLine;
    hide Rest;
    hide Hex;
    hide Decode;
    var s := Chunk(payload) + rest;
    var tail := payload + CRLF + rest;
    assert s == Hex(|payload|) + CRLF + tail;
    HexHasNoCR(|payload|);
    FirstLineIs(Hex(|payload|), tail);
    StrtoulHex(|payload|);
    assert tail[..|payload|] == payload && tail[|payload|..] == [] + CRLF + rest;
    FirstLineIs([], rest);
    DecodeSized(s, breaks, |payload|);
  }

  lemma EmptyChunk(rest: string, breaks: bool)
    ensures Chunk([]) + rest == rest && Behind([], Decode(rest, breaks)) == Decode(rest, breaks)
  {
    BehindMore([], [], Decode(rest, breaks));
  }

  lemma DecodeLast(tail: string, breaks: bool)
    ensures Decode(LAST_CHUNK + tail, breaks) == Decoded(true, [], tail)
  {
    assert LAST_CHUNK + tail == "0" + CRLF + (CRLF + tail);
    FirstLineIs("0", CRLF + tail);
    assert Hex(0) == "0";
    StrtoulHex(0);
    assert CRLF + tail == [] + CRLF + tail;
    FirstLineIs([], tail);
    DecodeUnsized(LAST_CHUNK + tail, breaks);
  }

  lemma {:induction false} DecodeChunks(writes: seq<string>, rest: string, breaks: bool)
    requires Sizable(writes)
    ensures Decode(Chunks(writes) + rest, breaks) == Behind(Flatten(writes), Decode(rest, breaks))
  {
    hide Chunk;
    hide Decode;
    hide Behind;
    var d := Decode(rest, breaks);
    if writes == [] {
      assert Chunks(writes) + rest == rest;
      BehindMore([], [], d);
    } else {
      var more := Chunks(writes[1..]) + rest;
      assert Chunks(writes) + rest == Chunk(writes[0]) + more by {
        ChunksFirst([], writes);
        assert [] + Chunks(writes) == Chunks(writes) && [] + Chunk(writes[0]) == Chunk(writes[0]);
      }
      if writes[0] == [] {
        EmptyChunk(more, breaks);
      } else {
        DecodeChunk(writes[0], more, breaks);
      }
      DecodeChunks(writes[1..], rest, breaks);
      BehindMore(writes[0], Flatten(writes[1..]), d);
    }
  }

  function Writes(writes: seq<string>): seq<SinkOp>
  {
    seq(|writes|, i requires 0 <= i < |writes| => Write(writes[i]))
  }

  /** One provider call for each group of writes, then a last group with the call that is done. */
  function Script(groups: seq<seq<string>>, last: seq<string>): seq<Call>
  {
    if groups == [] then [Call(Writes(last) + [Done], true)]
    else [Call(Writes(groups[0]), true)] + Script(groups[1..], last)
  }

  function AllWrites(groups: seq<seq<string>>, last: seq<string>): seq<string>
  {
    if groups == [] then last else groups[0] + AllWrites(groups[1..], last)
  }

  /** After these writes of one call, is there more to come? */
  predicate Continues(writes: seq<string>)
  {
    writes == [] || writes[|writes| - 1] != []
  }

  lemma OperateWrites(st: Sent, writes: seq<string>, rest: seq<SinkOp>)
    requires st.dataAvailable
    ensures Operate(st, Writes(writes) + rest) == Operate(Sent(st.bytes + Chunks(writes), Continues(writes)), rest)
  {
    OperateFrom(st, writes, rest);
  }

  lemma {:induction false} OperateFrom(st: Sent, writes: seq<string>, rest: seq<SinkOp>)
    ensures Operate(st, Writes(writes) + rest) ==
      Operate(Sent(st.bytes + Chunks(writes), if writes == [] then st.dataAvailable else Continues(writes)), rest)
    decreases |writes|
  {
    hide Chunk;
    if writes == [] {
      assert st.bytes + Chunks(writes) == st.bytes && Writes(writes) + rest == rest;
    } else {
      OperateFrom(Sent(st.bytes + Chunk(writes[0]), writes[0] != []), writes[1..], rest);
      assert (Writes(writes) + rest)[1..] == Writes(writes[1..]) + rest;
      ChunksFirst(st.bytes, writes);
    }
  }

  lemma {:induction false} FlattenAppend(a: seq<string>, b: seq<string>)
    ensures Flatten(a + b) == Flatten(a) + Flatten(b)
  {
    if a == [] {
      assert a + b == b;
    } else {
      FlattenAppend(a[1..], b);
      assert (a + b)[1..] == a[1..] + b;
      Regrouped(a[0], Flatten(a[1..]), Flatten(b));
    }
  }

  lemma ChunksAppend(bytes: string, a: seq<string>, b: seq<string>)
    ensures bytes + Chunks(a + b) == bytes + Chunks(a) + Chunks(b)
  {
    hide Chunk;
    hide Flatten;
    FlattenAppend(Framed(a), Framed(b));
    assert Framed(a + b) == Framed(a) + Framed(b);
  }

  lemma ChunksFirst(bytes: string, writes: seq<string>)
    requires writes != []
    ensures bytes + Chunks(writes) == bytes + Chunk(writes[0]) + Chunks(writes[1..])
  {
    assert Framed(writes)[1..] == Framed(writes[1..]);
  }

  /** No call before the last one ends with an empty write. */
  predicate AllContinue(groups: seq<seq<string>>)
  {
    forall i | 0 <= i < |groups| :: Continues(groups[i])
  }

  lemma {:induction false} ProvideAll(bytes: string, groups: seq<seq<string>>, last: seq<string>)
    requires AllContinue(groups)
    ensures Provide(Sent(bytes, true), Script(groups, last))
         == (Sent(bytes + Chunks(AllWrites(groups, last)) + LAST_CHUNK, false), true)
    decreases |groups|
  {
    hide Continues;
    if groups == [] {
      OperateWrites(Sent(bytes, true), last, [Done]);
    } else {
      OperateWrites(Sent(bytes, true), groups[0], []);
      assert Writes(groups[0]) + [] == Writes(groups[0]);
      ProvideAll(bytes + Chunks(groups[0]), groups[1..], last);
      ChunksAppend(bytes, groups[0], AllWrites(groups[1..], last));
    }
  }

  /** What is written up to the end of the first call that ends with an empty write. */
  function WrittenBefore(groups: seq<seq<string>>): seq<string>
    requires !AllContinue(groups)
  {
    if !Continues(groups[0]) then groups[0] else groups[0] + WrittenBefore(groups[1..])
  }

  lemma {:induction false} ProvideCut(bytes: string, groups: seq<seq<string>>, last: seq<string>)
    requires !AllContinue(groups)
    ensures Provide(Sent(bytes, true), Script(groups, last))
      == (Sent(bytes + Chunks(WrittenBefore(groups)), false), true)
    decreases |groups|
  {
    OperateWrites(Sent(bytes, true), groups[0], []);
    assert Writes(groups[0]) + [] == Writes(groups[0]);
    if Continues(groups[0]) {
      ProvideCut(bytes + Chunks(groups[0]), groups[1..], last);
      ChunksAppend(bytes, groups[0], WrittenBefore(groups[1..]));
    }
  }

  lemma {:induction false} WrittenSizable(groups: seq<seq<string>>, last: seq<string>)
    requires Sizable(AllWrites(groups, last)) && !AllContinue(groups)
    ensures Sizable(WrittenBefore(groups))
    decreases |groups|
  {
    var all := AllWrites(groups, last);
    assert forall i | 0 <= i < |groups[0]| :: groups[0][i] == all[i];
    if Continues(groups[0]) {
      var rest := AllWrites(groups[1..], last);
      assert forall i | 0 <= i < |rest| :: rest[i] == all[|groups[0]| + i];
      WrittenSizable(groups[1..], last);
    }
  }

  /**
   Reading what was sent gives the written pieces and leaves what follows them in the stream, even if
   the connection breaks then.
   */
  ghost predicate ReadBack(sent: string, writes: seq<string>)
  {
    forall tail: string, breaks: bool :: Decode(sent + tail, breaks) == Decoded(true, Flatten(writes), tail)
  }

  lemma SentReadBack(groups: seq<seq<string>>, last: seq<string>)
    requires Sizable(AllWrites(groups, last))
    ensures ReadBack(Chunks(AllWrites(groups, last)) + LAST_CHUNK, AllWrites(groups, last))
  {
    hide Decode;
    hide Behind;
    hide Chunks;
    hide AllWrites;
    hide Flatten;
    var writes := AllWrites(groups, last);
    var sent := Chunks(writes) + LAST_CHUNK;
    forall tail: string, breaks: bool
      ensures Decode(sent + tail, breaks) == Decoded(true, Flatten(writes), tail)
    {
      assert sent + tail == Chunks(writes) + (LAST_CHUNK + tail);
      DecodeChunks(writes, LAST_CHUNK + tail, breaks);
      DecodeLast(tail, breaks);
      BehindMore(Flatten(writes), [], Decoded(true, [], tail));
      assert Flatten(writes) + [] == Flatten(writes);
    }
  }

  /**
   Whatever pieces a provider writes before it is done, empty or not, and however it spreads them over
   its calls: reading the emitted octets back gives their concatenation, and leaves whatever follows
   in the stream, if and only if no call before the one that is done ends with an empty write.
   */
  lemma RoundTrip(groups: seq<seq<string>>, last: seq<string>)
    requires Sizable(AllWrites(groups, last))
    ensures AllContinue(groups) <==>
      ReadBack(Provide(Sent([], true), Script(groups, last)).0.bytes, AllWrites(groups, last))
  {
    hide Decode;
    hide Chunks;
    hide AllWrites;
    hide Flatten;
    hide Provide;
    hide Script;
    hide AllContinue;
    var writes := AllWrites(groups, last);
    if AllContinue(groups) {
      ProvideAll([], groups, last);
      SentReadBack(groups, last);
      assert [] + Chunks(writes) == Chunks(writes);
    } else {
      EmptyWriteCutsOff(groups, last, false);
      var sent := Provide(Sent([], true), Script(groups, last)).0.bytes;
      assert sent + [] == sent;
      assert Decode(sent + [], false) != Decoded(true, Flatten(writes), []);
    }
  }

  /**
   A call that ends with an empty write ends the loop before the provider is done, so the terminating
   chunk is never sent: the writer reports success, and the reader refuses what it emitted.
   */
  lemma EmptyWriteCutsOff(groups: seq<seq<string>>, last: seq<string>, breaks: bool)
    requires Sizable(AllWrites(groups, last)) && !AllContinue(groups)
    ensures var (sent, ok) := Provide(Sent([], true), Script(groups, last));
      ok && Decode(sent.bytes, breaks) == Decoded(false, Flatten(WrittenBefore(groups)), [])
  {
    hide Decode;
    var writes := WrittenBefore(groups);
    ProvideCut([], groups, last);
    WrittenSizable(groups, last);
    DecodeChunks(writes, [], breaks);
    NoLine(breaks);
    DecodeNoLine([], breaks);
    assert [] + Chunks(writes) == Chunks(writes) == Chunks(writes) + [] && Flatten(writes) + [] == Flatten(writes);
  }
}
