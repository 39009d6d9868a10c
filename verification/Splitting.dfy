/** Splitting at a separator as cpp-httplib does it: pieces are trimmed, and empty ones dropped. */
module Splitting {
  import opened Search
  import opened Separators

  predicate IsBlank(c: char)
  {
    c == ' ' || c == '\t'
  }

  function TrimLeft(s: string): string
  {
    if s != [] && IsBlank(s[0]) then TrimLeft(s[1..]) else s
  }

  function TrimRight(s: string): string
  {
    if s != [] && IsBlank(s[|s| - 1]) then TrimRight(s[..|s| - 1]) else s
  }

  function Trim(s: string): string
  {
    TrimRight(TrimLeft(s))
  }

  /** The pieces between separators, trimmed; those with nothing left are dropped. */
  function Pieces(s: string, sep: char): (pieces: seq<string>)
    ensures forall i | 0 <= i < |pieces| :: pieces[i] != []
    decreases |s|
  {
    var i := Find(s, [sep], 0);
    var head := Trim(s[..i]);
    (if head == [] then [] else [head]) + if i == |s| then [] else Pieces(s[i + 1..], sep)
  }

  predicate AllBlank(s: string)
  {
    forall i | 0 <= i < |s| :: IsBlank(s[i])
  }

  lemma {:induction false} TrimLeftIs(before: string, rest: string)
    requires AllBlank(before) && (rest != [] ==> !IsBlank(rest[0]))
    ensures TrimLeft(before + rest) == rest
    decreases |before|
  {
    if before == [] {
      assert before + rest == rest;
    } else {
      TrimLeftIs(before[1..], rest);
      assert (before + rest)[1..] == before[1..] + rest;
    }
  }

  lemma {:induction false} TrimRightIs(rest: string, after: string)
    requires AllBlank(after) && (rest != [] ==> !IsBlank(rest[|rest| - 1]))
    ensures TrimRight(rest + after) == rest
    decreases |after|
  {
    var n := |after| - 1;
    if after == [] {
      assert rest + after == rest;
    } else {
      TrimRightIs(rest, after[..n]);
      assert (rest + after)[..|rest| + n] == rest + after[..n];
    }
  }

  /** Trimming takes away the blanks on both sides and nothing else. */
  lemma TrimIs(before: string, core: string, after: string)
    requires AllBlank(before) && AllBlank(after)
    requires core != [] ==> !IsBlank(core[0]) && !IsBlank(core[|core| - 1])
    ensures Trim(before + core + after) == core
  {
    if core == [] {
      assert before + core + after == (before + after) + [];
      TrimLeftIs(before + after, []);
    } else {
      assert before + core + after == before + (core + after);
      TrimLeftIs(before, core + after);
      TrimRightIs(core, after);
    }
  }

  /** A piece that is blank is dropped. */
  lemma BlankPieceDropped(head: string, sep: char, rest: string)
    requires AllBlank(head) && !IsBlank(sep)
    ensures Pieces(head + [sep] + rest, sep) == Pieces(rest, sep) && Pieces(head, sep) == []
  {
    hide Find;
    hide Trim;
    FirstOf(head, sep, rest);
    assert head[..|head|] == head && head == head + [] + [];
    TrimIs(head, [], []);
  }

  lemma PiecesStep(head: string, sep: char, rest: string)
    requires Trim(head) != [] && forall i | 0 <= i < |head| :: head[i] != sep
    ensures Pieces(head + [sep] + rest, sep) == [Trim(head)] + Pieces(rest, sep)
    ensures Pieces(head, sep) == [Trim(head)]
  {
    hide Find;
    hide Trim;
    FirstOf(head, sep, rest);
    assert head[..|head|] == head;
  }

  lemma TrimLeftNext(s: string, a: nat, b: nat)
    requires a < b <= |s| && IsBlank(s[a])
    ensures TrimLeft(s[a..b]) == TrimLeft(s[a + 1..b])
  {
    assert s[a..b][1..] == s[a + 1..b];
  }

  lemma TrimRightNext(s: string, a: nat, b: nat)
    requires a < b <= |s| && IsBlank(s[b - 1])
    ensures TrimRight(s[a..b]) == TrimRight(s[a..b - 1])
  {
    assert s[a..b][..b - a - 1] == s[a..b - 1];
  }

  /** The bounds of what trimming leaves of a piece; an all-blank piece may give crossed bounds. */
  method TrimBounds(s: string, sep: char, a: nat, b: nat) returns (left: nat, right: nat)
    requires a <= b <= |s| && (b < |s| ==> s[b] == sep) && !IsBlank(sep)
    ensures left <= |s| && right <= b
    ensures Trim(s[a..b]) == if left < right then s[left..right] else []
  {
    left, right := a, b;
    while left < |s| && IsBlank(s[left])
      invariant a <= left <= b && TrimLeft(s[a..b]) == TrimLeft(s[left..b])
    {
      TrimLeftNext(s, left, b);
      left := left + 1;
    }
    assert TrimLeft(s[a..b]) == s[left..b];
    while right > 0 && IsBlank(s[right - 1])
      invariant right <= b
      invariant left < b ==> left < right && TrimRight(s[left..b]) == TrimRight(s[left..right])
    {
      if left < b { TrimRightNext(s, left, right); }
      right := right - 1;
    }
  }

  method Split(s: string, sep: char) returns (tokens: seq<string>)
    requires s != [] && !IsBlank(sep)
    ensures tokens == Pieces(s, sep)
  {
    hide Trim;
    hide Pieces;
    tokens := [];
    var i, begin := 0, 0;
    assert s[0..] == s;
    while i < |s|
      invariant begin <= i <= |s| && (forall k | begin <= k < i :: s[k] != sep)
      invariant Pieces(s, sep) == tokens + Pieces(s[begin..], sep)
    {
      if s[i] == sep {
        var left, right := TrimBounds(s, sep, begin, i);
        PieceAt(s, sep, begin, i);
        ghost var rest := Pieces(s[i + 1..], sep);
        if left < right {
          assert tokens + ([s[left..right]] + rest) == tokens + [s[left..right]] + rest;
          tokens := tokens + [s[left..right]];
        } else {
          assert [] + rest == rest;
        }
        begin := i + 1;
      }
      i := i + 1;
    }
    var left, right := TrimBounds(s, sep, begin, i);
    PieceAt(s, sep, begin, i);
    if left < right {
      tokens := tokens + [s[left..right]];
    }
  }

  lemma PieceAt(s: string, sep: char, begin: nat, i: nat)
    requires begin <= i <= |s| && (i < |s| ==> s[i] == sep) && forall k | begin <= k < i :: s[k] != sep
    ensures var piece := Trim(s[begin..i]);
      Pieces(s[begin..], sep) == (if piece == [] then [] else [piece]) + if i == |s| then [] else Pieces(s[i + 1..], sep)
  {
    hide Find;
    hide Trim;
    var head := s[begin..i];
    FirstOf(head, sep, if i < |s| then s[i + 1..] else []);
    if i < |s| {
      assert s[begin..] == head + [sep] + s[i + 1..];
    } else {
      assert s[begin..] == head && head[..|head|] == head;
    }
  }
}
