/** Where a comma or a dash is first met, as the list parsers use it. */
module Separators {
  import opened Decimal
  import opened Search

  predicate NoComma(s: string)
  {
    forall i | 0 <= i < |s| :: s[i] != ','
  }

  lemma FirstOf(s: string, sep: char, rest: string)
    requires forall i | 0 <= i < |s| :: s[i] != sep
    ensures Find(s + [sep] + rest, [sep], 0) == |s| && Find(s, [sep], 0) == |s|
    ensures (s + [sep] + rest)[..|s|] == s && (s + [sep] + rest)[|s| + 1..] == rest
  {
    forall i: nat | i <= |s| ensures !Occurs(s, [sep], i) {
      assert i + 1 <= |s| ==> s[i..i + 1][0] == s[i];
    }
    FindAfter(s, [sep], rest);
  }

  lemma FirstComma(s: string, rest: string)
    requires NoComma(s)
    ensures Find(s + "," + rest, ",", 0) == |s| && Find(s, ",", 0) == |s|
    ensures (s + "," + rest)[..|s|] == s && (s + "," + rest)[|s| + 1..] == rest
  {
    FirstOf(s, ',', rest);
  }

  lemma FirstDash(digits: string, rest: string)
    requires AllDigits(digits)
    ensures Find(digits + "-" + rest, "-", 0) == |digits| && Find(digits, "-", 0) == |digits|
    ensures (digits + "-" + rest)[..|digits|] == digits && (digits + "-" + rest)[|digits| + 1..] == rest
  {
    forall i: nat | i <= |digits| ensures !Occurs(digits, "-", i) {
      assert i + 1 <= |digits| ==> digits[i..i + 1][0] == digits[i];
    }
    FindAfter(digits, "-", rest);
  }
}
