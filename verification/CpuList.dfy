/**
 The CPU list codec: a set of CPU numbers becomes run-compressed text such as "0-7,16-23", and is
 parsed back. A std::set is iterated in increasing order, so the printer takes a sorted sequence.
 */
module CpuList {
  import opened Search
  import opened Decimal
  import opened Separators

  const INT_MAX: int := 0x7FFF_FFFF
  const INT_MIN: int := -0x8000_0000

  // ---------- Printing ----------

  datatype Run = Run(lo: int, hi: int)

  predicate Increasing(cpus: seq<int>)
  {
    forall i, j | 0 <= i < j < |cpus| :: cpus[i] < cpus[j]
  }

  function RunText(r: Run): string
  {
    if r.lo == r.hi then ToString(r.lo) else ToString(r.lo) + "-" + ToString(r.hi)
  }

  /** The run that is open, and those of the numbers still to come. */
  function RunsFrom(open: Run, rest: seq<int>): (runs: seq<Run>)
    ensures runs != []
    decreases |rest|
  {
    if rest == [] then [open]
    else if rest[0] == open.hi + 1 then RunsFrom(Run(open.lo, rest[0]), rest[1..])
    else [open] + RunsFrom(Run(rest[0], rest[0]), rest[1..])
  }

  function Runs(cpus: seq<int>): seq<Run>
  {
    if cpus == [] then [] else RunsFrom(Run(cpus[0], cpus[0]), cpus[1..])
  }

  /** Run texts separated by commas, behind what has been printed already. */
  function Listed(printed: string, runs: seq<Run>): string
    decreases |runs|
  {
    if runs == [] then printed
    else Listed(printed + (if printed == [] then [] else ",") + RunText(runs[0]), runs[1..])
  }

  /** A run of one is its number, a longer one both ends with a dash; commas stand between runs only. */
  lemma ListedIs(n: int, m: int, printed: string, r: Run, runs: seq<Run>)
    requires n < m && printed != []
    ensures RunText(Run(n, n)) == ToString(n) && RunText(Run(n, m)) == ToString(n) + "-" + ToString(m)
    ensures Listed(printed, []) == printed && Listed([], [r] + runs) == Listed(RunText(r), runs)
    ensures Listed(printed, [r] + runs) == Listed(printed + "," + RunText(r), runs)
  {
    hide RunText;
    assert ([r] + runs)[1..] == runs && [] + [] + RunText(r) == RunText(r);
    RunTextIs(n, m);
  }

  lemma RunTextIs(n: int, m: int)
    requires n < m
    ensures RunText(Run(n, n)) == ToString(n) && RunText(Run(n, m)) == ToString(n) + "-" + ToString(m)
  {
  }

  method FormatCpulist(cpus: seq<int>) returns (result: string)
    requires Increasing(cpus)
    ensures result == Listed([], Runs(cpus))
  {
    hide RunText;
    if cpus == [] {
      return [];
    }
    result := [];
    var start, end := cpus[0], cpus[0];
    var i := 1;
    while i < |cpus|
      invariant 1 <= i <= |cpus|
      invariant Listed([], Runs(cpus)) == Listed(result, RunsFrom(Run(start, end), cpus[i..]))
    {
      assert cpus[i..][1..] == cpus[i + 1..];
      if cpus[i] == end + 1 {
        end := cpus[i];
      } else {
        if result != [] {
          result := result + ",";
        } else {
          assert result + [] == result;
        }
        result := result + RunText(Run(start, end));
        start, end := cpus[i], cpus[i];
      }
      i := i + 1;
    }
    if result != [] {
      result := result + ",";
    } else {
      assert result + [] == result;
    }
    result := result + RunText(Run(start, end));
  }

  // ---------- Parsing ----------

  /** std::stoi throws; counting up to the largest int inclusive overflows. */
  datatype Outcome = Cpus(cpus: set<int>) | Error | Overflow

  /** The fields that std::getline yields: there is none behind a last comma. */
  function Fields(s: string): seq<string>
    decreases |s|
  {
    if s == [] then []
    else
      var i := Find(s, ",", 0);
      [s[..i]] + if i == |s| then [] else Fields(s[i + 1..])
  }

  function Interval(lo: int, hi: int): (r: set<int>)
    ensures forall x :: x in r <==> lo <= x <= hi
    decreases hi - lo + 1
  {
    if lo > hi then {} else Interval(lo, hi - 1) + {hi}
  }

  function FieldCpus(field: string): Outcome
  {
    var dash := Find(field, "-", 0);
    if dash < |field| then
      match (Sto(field[..dash], INT_MIN, INT_MAX), Sto(field[dash + 1..], INT_MIN, INT_MAX))
      case (Number(lo), Number(hi)) => if lo <= hi == INT_MAX then Overflow else Cpus(Interval(lo, hi))
      case _ => Error
    else
      match Sto(field, INT_MIN, INT_MAX)
      case Number(n) => Cpus({n})
      case Throws => Error
  }

  function Collected(cpus: set<int>, fields: seq<string>): Outcome
    decreases |fields|
  {
    if fields == [] then Cpus(cpus)
    else
      match FieldCpus(fields[0])
      case Cpus(more) => Collected(cpus + more, fields[1..])
      case bad => bad
  }

  function Parse(s: string): Outcome
  {
    Collected({}, Fields(s))
  }

  function With(cpus: set<int>, more: Outcome): Outcome
  {
    match more
    case Cpus(s) => Cpus(cpus + s)
    case bad => bad
  }

  /** The body of the loop over the fields. */
  method InsertField(cpus: set<int>, token: string) returns (result: Outcome)
    ensures result == With(cpus, FieldCpus(token))
  {
    hide Find;
    hide Sto;
    hide Interval;
    var dash := Find(token, "-", 0);
    if dash < |token| {
      var lo, hi := Sto(token[..dash], INT_MIN, INT_MAX), Sto(token[dash + 1..], INT_MIN, INT_MAX);
      if lo == Throws || hi == Throws {
        return Error;
      }
      if lo.n <= hi.n == INT_MAX {
        return Overflow;
      }
      var all := cpus;
      var i := lo.n;
      while i <= hi.n
        invariant lo.n <= i && (if lo.n <= hi.n then i <= hi.n + 1 else i == lo.n)
        invariant all == cpus + Interval(lo.n, i - 1)
        decreases hi.n - i
      {
        all := all + {i};
        i := i + 1;
      }
      assert Interval(lo.n, i - 1) == Interval(lo.n, hi.n);
      return Cpus(all);
    }
    var n := Sto(token, INT_MIN, INT_MAX);
    if n == Throws {
      return Error;
    }
    return Cpus(cpus + {n.n});
  }

  lemma FieldsNext(cpus: set<int>, s: string)
    requires s != []
    ensures var i := Find(s, ",", 0);
      var rest := if i == |s| then [] else s[i + 1..];
      Collected(cpus, Fields(s)) == match With(cpus, FieldCpus(s[..i]))
        case Cpus(all) => Collected(all, Fields(rest))
        case bad => bad
  {
    hide Find;
    hide FieldCpus;
    var i := Find(s, ",", 0);
    var later := if i == |s| then [] else Fields(s[i + 1..]);
    assert Fields(s)[0] == s[..i] && Fields(s)[1..] == later;
  }

  method ParseCpulist(list: string) returns (result: Outcome)
    ensures result == Parse(list)
  {
    hide Find;
    hide Fields;
    hide FieldCpus;
    hide With;
    hide Collected;
    var cpus: set<int> := {};
    var rest := list;
    while rest != []
      invariant Parse(list) == Collected(cpus, Fields(rest))
      decreases |rest|
    {
      FieldsNext(cpus, rest);
      var comma := Find(rest, ",", 0);
      var more := InsertField(cpus, rest[..comma]);
      if !more.Cpus? {
        return more;
      }
      cpus := more.cpus;
      rest := if comma == |rest| then [] else rest[comma + 1..];
    }
    FieldsEmpty();
    CollectedNone(cpus);
    return Cpus(cpus);
  }

  lemma CollectedNone(cpus: set<int>)
    ensures Collected(cpus, []) == Cpus(cpus)
  {
  }

  // ---------- The runs ----------

  /** Increasing and never touching, so each run is as long as it can be. */
  predicate Maximal(runs: seq<Run>)
  {
    && (forall i | 0 <= i < |runs| :: runs[i].lo <= runs[i].hi)
    && (forall i | 0 <= i < |runs| - 1 :: runs[i].hi + 1 < runs[i + 1].lo)
  }

  function Covered(runs: seq<Run>): set<int>
  {
    if runs == [] then {} else Interval(runs[0].lo, runs[0].hi) + Covered(runs[1..])
  }

  function SetOf(cpus: seq<int>): set<int>
  {
    set i | 0 <= i < |cpus| :: cpus[i]
  }

  lemma SetOfFirst(cpus: seq<int>)
    requires cpus != []
    ensures SetOf(cpus) == {cpus[0]} + SetOf(cpus[1..])
  {
    assert cpus == [cpus[0]] + cpus[1..];
  }

  lemma {:induction false} RunsFromMaximal(open: Run, rest: seq<int>)
    requires open.lo <= open.hi && Increasing(rest) && (rest != [] ==> open.hi < rest[0])
    ensures Maximal(RunsFrom(open, rest)) && RunsFrom(open, rest)[0].lo == open.lo
    decreases |rest|
  {
    if rest != [] {
      if rest[0] == open.hi + 1 {
        RunsFromMaximal(Run(open.lo, rest[0]), rest[1..]);
      } else {
        RunsFromMaximal(Run(rest[0], rest[0]), rest[1..]);
      }
    }
  }

  lemma {:induction false} RunsFromCover(open: Run, rest: seq<int>)
    requires open.lo <= open.hi
    ensures Covered(RunsFrom(open, rest)) == Interval(open.lo, open.hi) + SetOf(rest)
    decreases |rest|
  {
    hide SetOf;
    if rest == [] {
      SetOfNone();
      assert [open][1..] == [];
    } else {
      SetOfFirst(rest);
      if rest[0] == open.hi + 1 {
        RunsFromCover(Run(open.lo, rest[0]), rest[1..]);
      } else {
        var more := RunsFrom(Run(rest[0], rest[0]), rest[1..]);
        RunsFromCover(Run(rest[0], rest[0]), rest[1..]);
        assert ([open] + more)[1..] == more;
      }
    }
  }

  lemma SetOfNone()
    ensures SetOf([]) == {}
  {
  }

  /** The text lists the maximal runs of the set, in increasing order. */
  lemma RunsMaximal(cpus: seq<int>)
    requires Increasing(cpus)
    ensures Maximal(Runs(cpus)) && Covered(Runs(cpus)) == SetOf(cpus)
    ensures cpus != [] ==> Runs(cpus) != [] && Runs(cpus)[0].lo == cpus[0]
  {
    if cpus != [] {
      RunsFromMaximal(Run(cpus[0], cpus[0]), cpus[1..]);
      RunsFromCover(Run(cpus[0], cpus[0]), cpus[1..]);
      SetOfFirst(cpus);
    }
  }

  lemma {:induction false} RunsFromLast(open: Run, rest: seq<int>)
    requires open.lo <= open.hi && Increasing(rest) && (rest != [] ==> open.hi < rest[0])
    ensures var runs := RunsFrom(open, rest);
      runs[|runs| - 1].hi == if rest == [] then open.hi else rest[|rest| - 1]
    decreases |rest|
  {
    if rest != [] {
      RunsFromLast(if rest[0] == open.hi + 1 then Run(open.lo, rest[0]) else Run(rest[0], rest[0]), rest[1..]);
    }
  }

  // ---------- The round trip ----------

  lemma RunTextPlain(r: Run)
    ensures NoComma(RunText(r)) && RunText(r) != []
  {
    assert NoComma(ToString(r.lo)) && NoComma(ToString(r.hi));
  }

  function Texts(runs: seq<Run>): seq<string>
  {
    seq(|runs|, i requires 0 <= i < |runs| => RunText(runs[i]))
  }

  lemma OneField(t: string)
    requires NoComma(t) && t != []
    ensures Fields(t) == [t]
  {
    hide Find;
    FirstComma(t, []);
    assert t[..|t|] == t;
  }

  lemma FieldThenRest(head: string, rest: string)
    requires NoComma(head)
    ensures Fields(head + "," + rest) == [head] + Fields(rest)
  {
    hide Find;
    FirstComma(head, rest);
  }

  lemma CutAtComma(s: string) returns (head: string, rest: string)
    requires !NoComma(s)
    ensures NoComma(head) && s == head + "," + rest
  {
    var i :| 0 <= i < |s| && s[i] == ',' && forall k | 0 <= k < i :: s[k] != ',' by {
      var n := 0;
      while s[n] != ','
        invariant 0 <= n < |s| && (forall k | 0 <= k < n :: s[k] != ',') && !NoComma(s[n..])
        decreases |s| - n
      {
        assert s[n..] == [s[n]] + s[n + 1..];
        n := n + 1;
      }
    }
    head, rest := s[..i], s[i + 1..];
    assert s == s[..i] + [s[i]] + s[i + 1..];
  }

  /** A further field behind a text that does not end with a comma. */
  lemma {:induction false} FieldsAppend(s: string, t: string)
    requires NoComma(t) && t != [] && s != [] && s[|s| - 1] != ','
    ensures Fields(s + "," + t) == Fields(s) + [t]
    decreases |s|
  {
    hide Fields;
    hide NoComma;
    OneField(t);
    if NoComma(s) {
      OneField(s);
      FieldThenRest(s, t);
    } else {
      var head, rest := CutAtComma(s);
      assert s[|s| - 1] == if rest == [] then ',' else rest[|rest| - 1];
      FieldsAppend(rest, t);
      FieldThenRest(head, rest);
      FieldThenRest(head, rest + "," + t);
      assert head + "," + (rest + "," + t) == s + "," + t;
    }
  }

  lemma {:induction false} FieldsListed(printed: string, runs: seq<Run>)
    requires printed != [] ==> printed[|printed| - 1] != ','
    ensures Fields(Listed(printed, runs)) == Fields(printed) + Texts(runs)
    decreases |runs|
  {
    hide Fields;
    hide RunText;
    if runs == [] {
      assert Fields(printed) + Texts(runs) == Fields(printed);
    } else {
      var t := RunText(runs[0]);
      RunTextPlain(runs[0]);
      OneField(t);
      FieldsEmpty();
      var next := printed + (if printed == [] then [] else ",") + t;
      if printed == [] {
        assert next == t;
      } else {
        FieldsAppend(printed, t);
      }
      assert next[|next| - 1] == t[|t| - 1];
      FieldsListed(next, runs[1..]);
      assert Texts(runs) == [t] + Texts(runs[1..]);
    }
  }

  lemma FieldsEmpty()
    ensures Fields([]) == []
  {
  }

  /** Parsing undoes the printing of a run of numbers that can be counted up to. */
  lemma FieldOfRun(r: Run)
    requires 0 <= r.lo <= r.hi <= INT_MAX
    ensures FieldCpus(RunText(r)) == if r.lo < r.hi == INT_MAX then Overflow else Cpus(Interval(r.lo, r.hi))
  {
    hide Find;
    hide Sto;
    hide Print;
    StoPrint(r.lo, INT_MIN, INT_MAX);
    StoPrint(r.hi, INT_MIN, INT_MAX);
    FirstDash(Print(r.lo), Print(r.hi));
    if r.lo == r.hi {
      assert Interval(r.lo, r.hi) == {r.lo};
    }
  }

  lemma FieldOfNegative(r: Run)
    requires r.lo < 0
    ensures FieldCpus(RunText(r)) == Error
  {
    hide Find;
    hide Sto;
    hide Print;
    hide RunText;
    var rest := if r.lo == r.hi then Print(0 - r.lo) else Print(0 - r.lo) + "-" + ToString(r.hi);
    assert RunText(r) == [] + "-" + rest by { NegativeText(r); }
    FirstDash([], rest);
    StoNothing();
  }

  lemma NegativeText(r: Run)
    requires r.lo < 0
    ensures RunText(r) == [] + "-" + if r.lo == r.hi then Print(0 - r.lo) else Print(0 - r.lo) + "-" + ToString(r.hi)
  {
    hide Print;
  }

  lemma StoNothing()
    ensures Sto([], INT_MIN, INT_MAX) == Throws
  {
  }

  lemma {:induction false} CollectedRuns(cpus: set<int>, runs: seq<Run>)
    requires Maximal(runs) && (runs != [] ==> runs[0].lo >= 0 && runs[|runs| - 1].hi <= INT_MAX)
    ensures Collected(cpus, Texts(runs)) ==
      if runs != [] && runs[|runs| - 1].lo < runs[|runs| - 1].hi == INT_MAX then Overflow
      else Cpus(cpus + Covered(runs))
    decreases |runs|
  {
    hide RunText;
    hide FieldCpus;
    if runs == [] {
      assert cpus + {} == cpus;
    } else {
      var r := runs[0];
      Bounded(runs);
      FieldOfRun(r);
      assert Texts(runs)[0] == RunText(r) && Texts(runs)[1..] == Texts(runs[1..]);
      CollectedRuns(cpus + Interval(r.lo, r.hi), runs[1..]);
      assert cpus + Interval(r.lo, r.hi) + Covered(runs[1..]) == cpus + Covered(runs);
    }
  }

  lemma {:induction false} Bounded(runs: seq<Run>)
    requires Maximal(runs) && runs != []
    ensures forall i | 0 <= i < |runs| :: runs[0].lo <= runs[i].lo && runs[i].hi <= runs[|runs| - 1].hi
    ensures |runs| > 1 ==> runs[0].hi < runs[|runs| - 1].hi
    decreases |runs|
  {
    if |runs| > 1 {
      Bounded(runs[1..]);
      assert runs[1..][0] == runs[1];
      forall i | 0 <= i < |runs| ensures runs[0].lo <= runs[i].lo && runs[i].hi <= runs[|runs| - 1].hi {
        assert i > 0 ==> runs[i] == runs[1..][i - 1];
      }
    }
  }

  /** Parsing the text reads the runs one after the other. */
  lemma ParseOfPrinted(cpus: seq<int>)
    ensures Parse(Listed([], Runs(cpus))) == Collected({}, Texts(Runs(cpus)))
  {
    hide Fields;
    hide Listed;
    hide Texts;
    FieldsListed([], Runs(cpus));
    FieldsEmpty();
    assert [] + Texts(Runs(cpus)) == Texts(Runs(cpus));
  }

  lemma NegativeRejected(cpus: seq<int>)
    requires Increasing(cpus) && cpus != [] && cpus[0] < 0
    ensures Parse(Listed([], Runs(cpus))) == Error
  {
    hide RunText;
    hide FieldCpus;
    hide Listed;
    hide Parse;
    hide Covered;
    var runs := Runs(cpus);
    RunsMaximal(cpus);
    ParseOfPrinted(cpus);
    FieldOfNegative(runs[0]);
    assert Texts(runs)[0] == RunText(runs[0]);
  }

  lemma NonNegativeParsed(cpus: seq<int>)
    requires Increasing(cpus) && cpus != [] && 0 <= cpus[0] && cpus[|cpus| - 1] <= INT_MAX
    ensures Parse(Listed([], Runs(cpus))) ==
      if INT_MAX - 1 in cpus && cpus[|cpus| - 1] == INT_MAX then Overflow else Cpus(SetOf(cpus))
  {
    hide RunsFrom;
    hide RunText;
    hide FieldCpus;
    hide Listed;
    hide Parse;
    hide Texts;
    hide Collected;
    hide Covered;
    var runs := Runs(cpus);
    RunsMaximal(cpus);
    ParseOfPrinted(cpus);
    LastRun(cpus);
    CollectedRuns({}, runs);
    assert {} + Covered(runs) == Covered(runs);
  }

  /**
   Parsing the printed text gives the set back if and only if no number is negative and the two
   largest ints are not both in the set: a run that ends with the largest cannot be counted up to.
   */
  lemma RoundTrip(cpus: seq<int>)
    requires Increasing(cpus) && forall i | 0 <= i < |cpus| :: INT_MIN <= cpus[i] <= INT_MAX
    ensures Parse(Listed([], Runs(cpus))) == Cpus(SetOf(cpus))
      <==> (forall i | 0 <= i < |cpus| :: cpus[i] >= 0) && !(INT_MAX - 1 in cpus && INT_MAX in cpus)
  {
    hide RunsFrom;
    hide Listed;
    hide Parse;
    if cpus == [] {
      EmptyParsed();
    } else if cpus[0] < 0 {
      NegativeRejected(cpus);
    } else {
      NonNegativeParsed(cpus);
    }
  }

  /** The smallest set that is printed but not read back. */
  lemma TopTwoOverflow()
    ensures Parse(Listed([], Runs([INT_MAX - 1, INT_MAX]))) == Overflow
  {
    hide Parse;
    hide Listed;
    hide Runs;
    NonNegativeParsed([INT_MAX - 1, INT_MAX]);
  }

  lemma EmptyParsed()
    ensures Parse(Listed([], Runs([]))) == Cpus(SetOf([]))
  {
    assert Fields([]) == [];
  }

  /** The last run ends with the last number, and has another one before it if that was in the set. */
  lemma LastRun(cpus: seq<int>)
    requires Increasing(cpus) && cpus != []
    ensures var runs := Runs(cpus);
      var last := runs[|runs| - 1];
      last.hi == cpus[|cpus| - 1] && (last.lo < last.hi <==> last.hi - 1 in cpus)
  {
    hide RunsFrom;
    hide Covered;
    RunsMaximal(cpus);
    RunsFromLast(Run(cpus[0], cpus[0]), cpus[1..]);
    LastCovers(Runs(cpus));
    assert forall x :: x in cpus <==> x in SetOf(cpus);
  }

  lemma LastCovers(runs: seq<Run>)
    requires Maximal(runs) && runs != []
    ensures var last := runs[|runs| - 1]; last.lo < last.hi <==> last.hi - 1 in Covered(runs)
  {
    hide Covered;
    var n := |runs| - 1;
    var last := runs[n];
    CoveredBy(runs);
    if last.lo < last.hi {
      assert runs[n].lo <= last.hi - 1 <= runs[n].hi;
    }
    if last.hi - 1 in Covered(runs) {
      var i :| 0 <= i < |runs| && runs[i].lo <= last.hi - 1 <= runs[i].hi;
      if i < n { BoundedBefore(runs, i); }
    }
  }

  lemma {:induction false} CoveredBy(runs: seq<Run>)
    ensures forall x :: x in Covered(runs) <==> exists i :: 0 <= i < |runs| && runs[i].lo <= x <= runs[i].hi
    decreases |runs|
  {
    if runs != [] {
      CoveredBy(runs[1..]);
      forall x ensures x in Covered(runs) <==> exists i :: 0 <= i < |runs| && runs[i].lo <= x <= runs[i].hi {
        if x in Covered(runs[1..]) {
          var i :| 0 <= i < |runs[1..]| && runs[1..][i].lo <= x <= runs[1..][i].hi;
          assert runs[i + 1].lo <= x <= runs[i + 1].hi;
        }
        if i :| 0 <= i < |runs| && runs[i].lo <= x <= runs[i].hi {
          if i > 0 { assert runs[1..][i - 1] == runs[i]; }
        }
      }
    }
  }

  lemma {:induction false} BoundedBefore(runs: seq<Run>, i: nat)
    requires Maximal(runs) && i < |runs| - 1
    ensures runs[i].hi + 1 < runs[|runs| - 1].lo
    decreases |runs| - i
  {
    if i < |runs| - 2 {
      BoundedBefore(runs, i + 1);
    }
  }

  // ---------- Any text ----------

  /** Two numbers and a dash: all from the first to the second, which may be none. */
  lemma RangeFieldIs(a: string, b: string)
    requires a != [] && b != [] && AllDigits(a) && AllDigits(b) && Value(a) <= INT_MAX && Value(b) <= INT_MAX
    ensures FieldCpus(a + "-" + b)
         == if Value(a) <= Value(b) == INT_MAX then Overflow
            else Cpus(Interval(Value(a), Value(b)))
  {
    hide Find;
    hide Value;
    hide Sto;
    FirstDash(a, b);
    StoIs("", "", a, "", INT_MIN, INT_MAX);
    StoIs("", "", b, "", INT_MIN, INT_MAX);
    assert "" + "" + a + "" == a && "" + "" + b + "" == b;
  }

  /** One number, with blanks before and anything behind it that is neither digit, dash nor comma. */
  lemma NumberFieldIs(spaces: string, a: string, rest: string)
    requires AllSpace(spaces) && a != [] && AllDigits(a) && Value(a) <= INT_MAX
    requires (forall i | 0 <= i < |rest| :: rest[i] != '-') && (rest != [] ==> !IsDigit(rest[0]))
    ensures FieldCpus(spaces + a + rest) == Cpus({Value(a)})
  {
    hide Value;
    hide Sto;
    var t := spaces + a + rest;
    forall i | 0 <= i < |t| ensures t[i] != '-' {
      assert i < |spaces| ==> t[i] == spaces[i];
      assert |spaces| <= i < |spaces| + |a| ==> t[i] == a[i - |spaces|] && IsDigit(t[i]);
      assert i >= |spaces| + |a| ==> t[i] == rest[i - |spaces| - |a|];
    }
    FirstOf(t, '-', []);
    StoIs(spaces, "", a, rest, INT_MIN, INT_MAX);
    assert spaces + "" + a + rest == t;
  }

  /** A field in front of a comma adds what it stands for, or makes all of it fail. */
  lemma FieldsCollected(cpus: set<int>, field: string, rest: string)
    requires NoComma(field)
    ensures var f := FieldCpus(field);
      && Collected(cpus, Fields(field + "," + rest)) == (if f.Cpus? then Collected(cpus + f.cpus, Fields(rest)) else f)
      && (field != [] ==> Collected(cpus, Fields(field)) == if f.Cpus? then Cpus(cpus + f.cpus) else f)
    ensures Collected(cpus, Fields([])) == Cpus(cpus)
  {
    hide Fields;
    hide FieldCpus;
    FieldThenRest(field, rest);
    assert ([field] + Fields(rest))[1..] == Fields(rest);
    if field != [] {
      OneField(field);
      assert [field][1..] == [];
    }
    FieldsEmpty();
  }
}
