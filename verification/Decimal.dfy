/** Decimal text as std::to_string prints it and as std::stoi and std::stoll read it. */
module Decimal {

  datatype Parsed = Number(n: int) | Throws

  predicate IsDigit(c: char)
  {
    '0' <= c <= '9'
  }

  predicate AllDigits(s: string)
  {
    forall i | 0 <= i < |s| :: IsDigit(s[i])
  }

  function Digit(d: nat): char
    requires d < 10
  {
    '0' + d as char
  }

  function Print(n: nat): (s: string)
    ensures s != [] && AllDigits(s)
  {
    if n < 10 then [Digit(n)] else Print(n / 10) + [Digit(n % 10)]
  }

  function ToString(n: int): string
  {
    if n < 0 then "-" + Print(-n) else Print(n)
  }

  function Value(s: string): nat
    requires AllDigits(s)
  {
    if s == [] then 0
    else Value(s[..|s| - 1]) * 10 + (s[|s| - 1] as int - '0' as int)
  }

  lemma {:induction false} ValuePrint(n: nat)
    ensures Value(Print(n)) == n
  {
    if n >= 10 {
      ValuePrint(n / 10);
      assert Print(n)[..|Print(n)| - 1] == Print(n / 10);
    }
  }

  predicate IsSpace(c: char)
  {
    c == ' ' || 9 as char <= c <= 13 as char
  }

  function SkipSpace(s: string): string
  {
    if s != [] && IsSpace(s[0]) then SkipSpace(s[1..]) else s
  }

  /** The longest prefix of digits. */
  function LeadingDigits(s: string): (p: string)
    ensures AllDigits(p) && p <= s
  {
    if s != [] && IsDigit(s[0]) then [s[0]] + LeadingDigits(s[1..]) else []
  }

  /** The std::stoi family: spaces, a sign, as many digits as there are; what follows is ignored. */
  function Sto(s: string, min: int, max: int): Parsed
  {
    var t := SkipSpace(s);
    var signed := t != [] && (t[0] == '-' || t[0] == '+');
    var digits := LeadingDigits(if signed then t[1..] else t);
    if digits == [] then Throws
    else
      var n: int := if signed && t[0] == '-' then 0 - Value(digits) else Value(digits);
      if min <= n <= max then Number(n) else Throws
  }

  lemma {:induction false} LeadingDigitsAll(s: string)
    requires AllDigits(s)
    ensures LeadingDigits(s) == s
  {
    if s != [] {
      LeadingDigitsAll(s[1..]);
    }
  }

  /** Reading back what was printed gives the same number, if it is in range at all. */
  lemma StoPrint(n: nat, min: int, max: int)
    ensures Sto(Print(n), min, max) == if min <= n <= max then Number(n) else Throws
  {
    LeadingDigitsAll(Print(n));
    ValuePrint(n);
    assert IsDigit(Print(n)[0]);
  }

  /** A printed number has no leading zero. */
  lemma {:induction false} PrintCanonical(n: nat)
    ensures Print(n)[0] == '0' <==> n == 0
    ensures n == 0 ==> Print(n) == "0"
  {
    if n >= 10 {
      PrintCanonical(n / 10);
    }
  }

  predicate AllSpace(s: string)
  {
    forall i | 0 <= i < |s| :: IsSpace(s[i])
  }

  /** Blank, tabulator, line feed, vertical tabulator, form feed, carriage return. */
  lemma SpacesAre(c: char)
    ensures IsSpace(c) <==> c in {' ', '\t', '\n', 11 as char, 12 as char, '\r'}
  {
    assert '\t' as int == 9 && '\n' as int == 10 && '\r' as int == 13;
  }

  lemma {:induction false} SkipSpaceIs(spaces: string, rest: string)
    requires AllSpace(spaces) && (rest != [] ==> !IsSpace(rest[0]))
    ensures SkipSpace(spaces + rest) == rest
    decreases |spaces|
  {
    if spaces == [] {
      assert spaces + rest == rest;
    } else {
      SkipSpaceIs(spaces[1..], rest);
      assert (spaces + rest)[1..] == spaces[1..] + rest;
    }
  }

  lemma {:induction false} LeadingDigitsIs(digits: string, rest: string)
    requires AllDigits(digits) && (rest != [] ==> !IsDigit(rest[0]))
    ensures LeadingDigits(digits + rest) == digits
    decreases |digits|
  {
    if digits == [] {
      assert digits + rest == rest;
    } else {
      LeadingDigitsIs(digits[1..], rest);
      assert (digits + rest)[1..] == digits[1..] + rest;
    }
  }

  /** What std::stoi makes of spaces, a sign or none, digits or none, and whatever follows that is no digit. */
  lemma StoIs(spaces: string, sign: string, digits: string, rest: string, min: int, max: int)
    requires AllSpace(spaces) && sign in {"", "+", "-"} && AllDigits(digits) && (rest != [] ==> !IsDigit(rest[0]))
    requires digits == [] ==> rest == [] || (!IsSpace(rest[0]) && (sign == "" ==> rest[0] != '+' && rest[0] != '-'))
    ensures var n: int := if sign == "-" then 0 - Value(digits) else Value(digits);
      Sto(spaces + sign + digits + rest, min, max)
      == if digits != [] && min <= n <= max then Number(n) else Throws
  {
    hide Value;
    hide SkipSpace;
    hide LeadingDigits;
    hide AllSpace;
    hide IsSpace;
    var u := digits + rest;
    var t := sign + u;
    assert spaces + sign + digits + rest == spaces + t;
    FirstIsPlain(digits, rest);
    assert t != [] ==> !IsSpace(t[0]) by { assert !IsSpace('+') && !IsSpace('-') by { SignsAreNoSpaces(); } }
    SkipSpaceIs(spaces, t);
    LeadingDigitsIs(digits, rest);
    assert sign != "" ==> t[0] == sign[0] && t[1..] == u;
    assert sign == "" ==> t == u;
  }

  lemma SignsAreNoSpaces()
    ensures !IsSpace('+') && !IsSpace('-')
  {
  }

  lemma FirstIsPlain(digits: string, rest: string)
    requires AllDigits(digits)
    ensures var u := digits + rest;
      digits != [] ==> !IsSpace(u[0]) && u[0] != '+' && u[0] != '-'
    ensures digits == [] ==> digits + rest == rest
  {
    assert digits != [] ==> (digits + rest)[0] == digits[0] && IsDigit(digits[0]);
  }

  /** The value of digits, from the first to the last. */
  lemma ValueIs(digits: string, d: nat)
    requires AllDigits(digits) && d < 10
    ensures AllDigits(digits + ["0123456789"[d]])
    ensures Value([]) == 0 && Value(digits + ["0123456789"[d]]) == 10 * Value(digits) + d
  {
    assert "0123456789"[d] == '0' + d as char;
    assert (digits + ["0123456789"[d]])[..|digits|] == digits;
  }
}
