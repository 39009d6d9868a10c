/** The first-occurrence search that the scanners and parsers of the other modules share. */
module Search {

  predicate Occurs<T(==)>(s: seq<T>, pat: seq<T>, i: nat)
  {
    i + |pat| <= |s| && s[i..i + |pat|] == pat
  }

  lemma OccursFirst<T>(s: seq<T>, pat: seq<T>)
    ensures Occurs(s, pat, 0) <==> |pat| <= |s| && s[..|pat|] == pat
  {
  }

  /** The first index at or after `from` where `pat` occurs, and |s| when there is none. */
  function Find<T(==)>(s: seq<T>, pat: seq<T>, from: nat): (r: nat)
    requires pat != [] && from <= |s|
    ensures from <= r <= |s|
    ensures r < |s| ==> Occurs(s, pat, r)
    ensures forall i | from <= i < r :: !Occurs(s, pat, i)
    decreases |s| - from
  {
    if from == |s| || Occurs(s, pat, from) then from else Find(s, pat, from + 1)
  }

  lemma FindRoom<T>(s: seq<T>, pat: seq<T>, from: nat)
    requires pat != [] && from <= |s|
    ensures var r := Find(s, pat, from); r < |s| ==> r + |pat| <= |s|
  {
  }

  lemma FindIs<T>(s: seq<T>, pat: seq<T>, from: nat, r: nat)
    requires pat != [] && from <= r && Occurs(s, pat, r)
    requires forall i | from <= i < r :: !Occurs(s, pat, i)
    ensures Find(s, pat, from) == r
  {
  }

  /** What follows a piece of text does not hide an occurrence inside it. */
  lemma OccursAppend<T>(s: seq<T>, t: seq<T>, pat: seq<T>, i: nat)
    requires i + |pat| <= |s|
    ensures Occurs(s + t, pat, i) <==> Occurs(s, pat, i)
  {
    assert (s + t)[i..i + |pat|] == s[i..i + |pat|];
  }

  lemma FindAppend<T>(s: seq<T>, t: seq<T>, pat: seq<T>, from: nat)
    requires pat != [] && from <= |s| && Find(s, pat, from) < |s|
    ensures Find(s + t, pat, from) == Find(s, pat, from)
  {
    var r := Find(s, pat, from);
    forall i | from <= i <= r ensures Occurs(s + t, pat, i) <==> Occurs(s, pat, i) {
      OccursAppend(s, t, pat, i);
    }
    FindIs(s + t, pat, from, r);
  }

  lemma OccursDrop<T>(s: seq<T>, pat: seq<T>, k: nat, i: nat)
    requires k <= |s|
    ensures Occurs(s[k..], pat, i) <==> Occurs(s, pat, k + i)
  {
    if k + i + |pat| <= |s| {
      assert s[k..][i..i + |pat|] == s[k + i..k + i + |pat|];
    }
  }

  /** Searching from `k` is searching what remains after the first `k` elements. */
  lemma FindDrop<T>(s: seq<T>, pat: seq<T>, k: nat)
    requires pat != [] && k <= |s|
    ensures Find(s, pat, k) == k + Find(s[k..], pat, 0)
  {
    var r := Find(s[k..], pat, 0);
    forall i | 0 <= i ensures Occurs(s[k..], pat, i) <==> Occurs(s, pat, k + i) {
      OccursDrop(s, pat, k, i);
    }
    if r < |s| - k {
      forall i | k <= i < k + r ensures !Occurs(s, pat, i) {
        assert !Occurs(s[k..], pat, i - k);
      }
      FindIs(s, pat, k, k + r);
    } else {
      forall i | k <= i < |s| ensures !Occurs(s, pat, i) {
        assert !Occurs(s[k..], pat, i - k);
      }
    }
  }

  lemma Regrouped<T>(a: seq<T>, b: seq<T>, c: seq<T>)
    ensures a + (b + c) == a + b + c
  {
  }

  lemma SuffixOfSuffix<T>(s: seq<T>, i: nat, j: nat)
    requires i + j <= |s|
    ensures s[i..][j..] == s[i + j..]
  {
  }

  /** A delimiter is first met right after a text that does not contain it, unless it overlaps itself. */
  predicate Unbordered<T(==)>(pat: seq<T>)
  {
    forall k | 0 < k < |pat| :: pat[k] != pat[0]
  }

  predicate Avoids<T(==)>(s: seq<T>, pat: seq<T>)
  {
    forall i | 0 <= i <= |s| :: !Occurs(s, pat, i)
  }

  lemma FindAfter<T>(s: seq<T>, pat: seq<T>, rest: seq<T>)
    requires pat != [] && Unbordered(pat) && Avoids(s, pat)
    ensures Find(s + pat + rest, pat, 0) == |s|
  {
    var t := s + pat + rest;
    assert t[|s|..|s| + |pat|] == pat;
    forall i | 0 <= i < |s| ensures !Occurs(t, pat, i) {
      if i + |pat| <= |s| {
        assert t == s + (pat + rest);
        OccursAppend(s, pat + rest, pat, i);
      } else {
        assert i + |pat| <= |t| ==> t[i..i + |pat|][|s| - i] == t[|s|] == pat[0];
      }
    }
    FindIs(t, pat, 0, |s|);
  }

  lemma AvoidsToFirst<T>(s: seq<T>, pat: seq<T>)
    requires pat != []
    ensures Avoids(s[..Find(s, pat, 0)], pat)
  {
    var k := Find(s, pat, 0);
    assert s == s[..k] + s[k..];
    forall i | 0 <= i <= k ensures !Occurs(s[..k], pat, i) {
      if i + |pat| <= k { OccursAppend(s[..k], s[k..], pat, i); }
    }
  }
}
