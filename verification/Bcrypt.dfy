/**
 bcrypt hashes and their verification (Provos and Mazieres, 1999): the base-64 codec with its own
 alphabet, the digest over arbitrary Blowfish tables, and the text that carries both salt and digest.
 */
module Bcrypt {
  import opened Octets
  import Blowfish

  // ---------- Base 64 ----------

  /** The alphabet: dot, slash, upper case, lower case, digits. */
  function Char64(v: nat): char
    requires v < 64
  {
    if v == 0 then '.'
    else if v == 1 then '/'
    else if v < 28 then 'A' + (v - 2) as char
    else if v < 54 then 'a' + (v - 28) as char
    else '0' + (v - 54) as char
  }

  /** The decode table, which has 128 entries; 255 marks a character outside the alphabet. */
  function Value64(c: char): (v: octet)
    requires c < 128 as char
    ensures v < 64 || v == 255
  {
    if c == '.' then 0
    else if c == '/' then 1
    else if 'A' <= c <= 'Z' then c as int - 'A' as int + 2
    else if 'a' <= c <= 'z' then c as int - 'a' as int + 28
    else if '0' <= c <= '9' then c as int - '0' as int + 54
    else 255
  }

  lemma ValueOfChar(v: nat)
    requires v < 64
    ensures Char64(v) < 128 as char && Char64(v) != '\0' && Value64(Char64(v)) == v
  {
  }

  /** Dot and slash, then the upper case, the lower case and the digits, each in order. */
  lemma AlphabetOrder(c: char)
    requires c < 127 as char
    ensures Value64('.') == 0 && Value64('/') == 1 && Value64('A') == 2 && Value64('a') == 28 && Value64('0') == 54
    ensures 'A' <= c < 'Z' || 'a' <= c < 'z' || '0' <= c < '9' ==> Value64((c as int + 1) as char) == Value64(c) + 1
    ensures !('.' <= c <= '9' || 'A' <= c <= 'Z' || 'a' <= c <= 'z') ==> Value64(c) == 255
    ensures Value64(c) != 255 ==> Char64(Value64(c)) == c
  {
  }

  type sextet = x: int | 0 <= x < 64

  function First(b0: octet): sextet { b0 / 4 }

  function Second(b0: octet, b1: octet): sextet { b0 % 4 * 16 + b1 / 16 }

  function Third(b1: octet, b2: octet): sextet { b1 % 16 * 4 + b2 / 64 }

  function Fourth(b2: octet): sextet { b2 % 64 }

  function Join1(c0: sextet, c1: sextet): octet { c0 * 4 + c1 / 16 }

  function Join2(c1: sextet, c2: sextet): octet { c1 % 16 * 16 + c2 / 4 }

  function Join3(c2: sextet, c3: sextet): octet { c2 % 4 * 64 + c3 }

  function Encoded(data: seq<octet>): string
  {
    if data == [] then []
    else if |data| == 1 then [Char64(First(data[0])), Char64(Second(data[0], 0))]
    else if |data| == 2 then
      [Char64(First(data[0])), Char64(Second(data[0], data[1])), Char64(Third(data[1], 0))]
    else
      [Char64(First(data[0])), Char64(Second(data[0], data[1])), Char64(Third(data[1], data[2])), Char64(Fourth(data[2]))]
      + Encoded(data[3..])
  }

  method Base64Encode(data: seq<octet>) returns (out: string)
    ensures out == Encoded(data)
  {
    hide First;
    hide Second;
    hide Third;
    hide Fourth;
    hide Char64;
    hide Encoded;
    var i := 0;
    out := [];
    assert data[0..] == data;
    while i < |data|
      invariant i <= |data| && Encoded(data) == out + Encoded(data[i..])
    {
      ghost var before, rest := out, data[i..];
      var b0 := data[i];
      i := i + 1;
      out := out + [Char64(First(b0))];
      if i < |data| {
        var b1 := data[i];
        i := i + 1;
        out := out + [Char64(Second(b0, b1))];
        if i < |data| {
          var b2 := data[i];
          i := i + 1;
          out := out + [Char64(Third(b1, b2))];
          out := out + [Char64(Fourth(b2))];
          EncodedThree(before, rest);
          assert data[i..] == rest[3..];
        } else {
          out := out + [Char64(Third(b1, 0))];
          EncodedTwo(before, rest);
        }
      } else {
        out := out + [Char64(Second(b0, 0))];
        EncodedOne(before, rest);
      }
      if i == |data| {
        assert data[i..] == [];
        EncodedNone();
      }
    }
    assert data[i..] == [];
    EncodedNone();
  }

  lemma EncodedOne(before: string, data: seq<octet>)
    requires |data| == 1
    ensures before + Encoded(data) == before + [Char64(First(data[0]))] + [Char64(Second(data[0], 0))]
  {
    hide First;
    hide Second;
    hide Third;
    hide Fourth;
    hide Char64;
  }

  lemma EncodedTwo(before: string, data: seq<octet>)
    requires |data| == 2
    ensures before + Encoded(data)
         == before + [Char64(First(data[0]))] + [Char64(Second(data[0], data[1]))] + [Char64(Third(data[1], 0))]
  {
    hide First;
    hide Second;
    hide Third;
    hide Fourth;
    hide Char64;
  }

  lemma EncodedThree(before: string, data: seq<octet>)
    requires |data| >= 3
    ensures before + Encoded(data)
         == before + [Char64(First(data[0]))] + [Char64(Second(data[0], data[1]))] + [Char64(Third(data[1], data[2]))]
            + [Char64(Fourth(data[2]))] + Encoded(data[3..])
  {
    hide First;
    hide Second;
    hide Third;
    hide Fourth;
    hide Char64;
    InOrder(before, Char64(First(data[0])), Char64(Second(data[0], data[1])), Char64(Third(data[1], data[2])),
            Char64(Fourth(data[2])), Encoded(data[3..]));
  }

  lemma InOrder(before: string, a: char, b: char, c: char, d: char, rest: string)
    ensures before + ([a, b, c, d] + rest) == before + [a] + [b] + [c] + [d] + rest
  {
  }

  predicate Ascii(s: string)
  {
    forall i | 0 <= i < |s| :: s[i] < 128 as char
  }

  /** The end of a C string. */
  predicate AtEnd(s: string)
  {
    s == [] || s[0] == '\0'
  }

  /** Up to `max` octets; stops at the end of the text or at a character outside the alphabet. */
  function Decoded(s: string, max: nat): (data: seq<octet>)
    requires Ascii(s)
    ensures |data| <= max
    decreases |s|
  {
    if AtEnd(s) || max == 0 then []
    else if Value64(s[0]) == 255 || AtEnd(s[1..]) || Value64(s[1]) == 255 then []
    else
      var c0, c1 := Value64(s[0]), Value64(s[1]);
      var b0 := Join1(c0, c1);
      if max == 1 || AtEnd(s[2..]) || Value64(s[2]) == 255 then [b0]
      else
        var c2 := Value64(s[2]);
        var b1 := Join2(c1, c2);
        if max == 2 || AtEnd(s[3..]) || Value64(s[3]) == 255 then [b0, b1]
        else [b0, b1, Join3(c2, Value64(s[3]))] + Decoded(s[4..], max - 3)
  }

  method Base64Decode(s: string, max: nat) returns (out: seq<octet>)
    requires Ascii(s)
    ensures out == Decoded(s, max)
  {
    hide Join1;
    hide Join2;
    hide Join3;
    hide Value64;
    hide Decoded;
    var i := 0;
    out := [];
    assert s[0..] == s;
    while !AtEnd(s[i..]) && |out| < max
      invariant i <= |s| && |out| <= max && Decoded(s, max) == out + Decoded(s[i..], max - |out|)
    {
      ghost var before, rest, left := out, s[i..], max - |out|;
      DecodedNext(before, rest, left);
      var c0 := Value64(s[i]);
      i := i + 1;
      if c0 == 255 || AtEnd(s[i..]) {
        return;
      }
      var c1 := Value64(s[i]);
      i := i + 1;
      if c1 == 255 {
        return;
      }
      out := out + [Join1(c0, c1)];
      if |out| >= max || AtEnd(s[i..]) {
        return;
      }
      var c2 := Value64(s[i]);
      i := i + 1;
      if c2 == 255 {
        return;
      }
      out := out + [Join2(c1, c2)];
      if |out| >= max || AtEnd(s[i..]) {
        return;
      }
      var c3 := Value64(s[i]);
      i := i + 1;
      if c3 == 255 {
        return;
      }
      out := out + [Join3(c2, c3)];
      assert s[i..] == rest[4..];
    }
    DecodedStops(s[i..], max - |out|);
  }

  lemma DecodedStops(s: string, max: nat)
    requires Ascii(s) && (AtEnd(s) || max == 0)
    ensures Decoded(s, max) == []
  {
  }

  lemma DecodedNext(before: seq<octet>, s: string, max: nat)
    requires Ascii(s) && !AtEnd(s) && max > 0
    ensures before + Decoded(s, max) ==
      if Value64(s[0]) == 255 || AtEnd(s[1..]) || Value64(s[1]) == 255 then before
      else
        var d1 := before + [Join1(Value64(s[0]), Value64(s[1]))];
        if max == 1 || AtEnd(s[2..]) || Value64(s[2]) == 255 then d1
        else
          var d2 := d1 + [Join2(Value64(s[1]), Value64(s[2]))];
          if max == 2 || AtEnd(s[3..]) || Value64(s[3]) == 255 then d2
          else d2 + [Join3(Value64(s[2]), Value64(s[3]))] + Decoded(s[4..], max - 3)
  {
    hide Join1;
    hide Join2;
    hide Join3;
    hide Value64;
  }

  /** The four digits of a group of three octets. */
  function Group(b0: octet, b1: octet, b2: octet): (g: string)
    ensures |g| == 4
  {
    [Char64(First(b0)), Char64(Second(b0, b1)), Char64(Third(b1, b2)), Char64(Fourth(b2))]
  }

  lemma GroupValues(b0: octet, b1: octet, b2: octet)
    ensures var g := Group(b0, b1, b2);
      && Ascii(g) && (forall i | 0 <= i < 4 :: g[i] != '\0' && Value64(g[i]) != 255)
      && Join1(Value64(g[0]), Value64(g[1])) == b0
      && Join2(Value64(g[1]), Value64(g[2])) == b1
      && Join3(Value64(g[2]), Value64(g[3])) == b2
  {
    hide First;
    hide Second;
    hide Third;
    hide Fourth;
    hide Join1;
    hide Join2;
    hide Join3;
    hide Char64;
    hide Value64;
    ValueOfChar(First(b0));
    ValueOfChar(Second(b0, b1));
    ValueOfChar(Third(b1, b2));
    ValueOfChar(Fourth(b2));
    JoinCut(b0, b1, b2);
  }

  lemma EncodedGroups(data: seq<octet>)
    requires data != []
    ensures Encoded(data) ==
      if |data| == 1 then Group(data[0], 0, 0)[..2]
      else if |data| == 2 then Group(data[0], data[1], 0)[..3]
      else Group(data[0], data[1], data[2]) + Encoded(data[3..])
  {
    hide First;
    hide Second;
    hide Third;
    hide Fourth;
    hide Char64;
  }

  /** Decoding as many octets as were encoded gives them back, whatever text follows. */
  lemma {:induction false} DecodeEncode(data: seq<octet>, suffix: string)
    requires Ascii(suffix)
    ensures Ascii(Encoded(data) + suffix)
    ensures Decoded(Encoded(data) + suffix, |data|) == data
    decreases |data|
  {
    hide Join1;
    hide Join2;
    hide Join3;
    hide Group;
    hide Value64;
    hide Encoded;
    hide Decoded;
    if data == [] {
      EncodedNone();
      assert Encoded(data) + suffix == suffix;
      DecodedStops(suffix, 0);
    } else {
      EncodedGroups(data);
      var b1, b2 := if |data| > 1 then data[1] else 0, if |data| > 2 then data[2] else 0;
      var g := Group(data[0], b1, b2);
      GroupValues(data[0], b1, b2);
      if |data| < 3 {
        DecodeGroup(g, g[..|data| + 1] + suffix, |data|);
      } else {
        DecodeEncode(data[3..], suffix);
        var rest := Encoded(data[3..]) + suffix;
        assert Encoded(data) + suffix == g + rest;
        DecodeGroup(g, g + rest, |data|);
        assert (g + rest)[4..] == rest;
        assert data == [data[0], b1, b2] + data[3..];
      }
    }
  }

  lemma EncodedNone()
    ensures Encoded([]) == []
  {
  }

  /** One turn of the decoder, on a text that begins with what is needed of a group. */
  lemma DecodeGroup(g: string, s: string, max: nat)
    requires |g| == 4 && Ascii(g) && Ascii(s) && forall i | 0 <= i < 4 :: g[i] != '\0' && Value64(g[i]) != 255
    requires max > 0 && var n := if max < 3 then max + 1 else 4; |s| >= n && s[..n] == g[..n]
    ensures Decoded(s, max) ==
      var b0 := Join1(Value64(g[0]), Value64(g[1]));
      var b1 := Join2(Value64(g[1]), Value64(g[2]));
      if max == 1 then [b0]
      else if max == 2 then [b0, b1]
      else [b0, b1, Join3(Value64(g[2]), Value64(g[3]))] + Decoded(s[4..], max - 3)
  {
    hide Join1;
    hide Join2;
    hide Join3;
    hide Value64;
    assert s[0] == s[..2][0] == g[..2][0] && s[1] == s[..2][1] == g[..2][1];
    if max >= 2 { assert s[2] == s[..3][2] == g[..3][2]; }
    if max >= 3 { assert s[3] == s[..4][3] == g[..4][3]; }
  }

  /** Joining undoes cutting three octets into four digits. */
  lemma JoinCut(b0: octet, b1: octet, b2: octet)
    ensures Join1(First(b0), Second(b0, b1)) == b0
    ensures Join2(Second(b0, b1), Third(b1, b2)) == b1
    ensures Join3(Third(b1, b2), Fourth(b2)) == b2
  {
  }

  /** So texts of equally many octets are the same only if the octets are. */
  lemma EncodedInjective(a: seq<octet>, b: seq<octet>)
    requires |a| == |b| && Encoded(a) == Encoded(b)
    ensures a == b
  {
    DecodeEncode(a, []);
    DecodeEncode(b, []);
  }

  lemma {:induction false} EncodedLength(data: seq<octet>)
    ensures |Encoded(data)| == (|data| * 4 + 2) / 3
    ensures forall i | 0 <= i < |Encoded(data)| :: Encoded(data)[i] != '\0' && Encoded(data)[i] < 128 as char
    decreases |data|
  {
    hide First;
    hide Second;
    hide Third;
    hide Fourth;
    hide Char64;
    if data != [] {
      var b0, b1, b2 := data[0], if |data| > 1 then data[1] else 0, if |data| > 2 then data[2] else 0;
      ValueOfChar(First(b0));
      ValueOfChar(Second(b0, b1));
      ValueOfChar(Third(b1, b2));
      ValueOfChar(Fourth(b2));
      if |data| >= 3 {
        EncodedLength(data[3..]);
      }
    }
  }

  // ---------- The digest ----------

  /** The password with its terminator, no more than 72 octets of it. */
  function Key(password: seq<octet>): (key: seq<octet>)
    ensures key != []
  {
    var k := password + [0];
    if |k| > 72 then k[..72] else k
  }

  /** The number of rounds of the expensive setup, two to the power of the work factor. */
  function Rounds(workFactor: nat): nat
  {
    if workFactor == 0 then 1 else 2 * Rounds(workFactor - 1)
  }

  /** The shift that the code counts its rounds with. */
  function Shifted(workFactor: nat): bv32
    requires workFactor <= 31
  {
    (1 as bv32) << workFactor
  }

  lemma Doubled(b: bv32)
    requires b & 0x8000_0000 == 0
    ensures (b << 1) as nat == 2 * (b as nat)
  {
  }

  lemma ShiftedNext(n: nat)
    requires n < 31
    ensures Shifted(n + 1) == Shifted(n) << 1 && Shifted(n) & 0x8000_0000 == 0
  {
    ShiftOneMore(n);
  }

  lemma ShiftOneMore(n: nat)
    requires n < 31
    ensures (1 as bv32) << (n + 1) == ((1 as bv32) << n) << 1 && ((1 as bv32) << n) & 0x8000_0000 == 0
  {
  }

  lemma ShiftedNone()
    ensures Shifted(0) == 1
  {
  }

  lemma {:induction false} RoundsShifted(workFactor: nat)
    requires workFactor <= 31
    ensures Rounds(workFactor) == Shifted(workFactor) as nat
  {
    hide Shifted;
    if workFactor == 0 {
      ShiftedNone();
    } else {
      RoundsShifted(workFactor - 1);
      ShiftedNext(workFactor - 1);
      Doubled(Shifted(workFactor - 1));
    }
  }

  function Stretched(st: Blowfish.State, key: seq<octet>, salt: seq<octet>, n: nat): (r: Blowfish.State)
    requires st.Valid() && key != [] && salt != []
    ensures r.Valid()
    decreases n
  {
    if n == 0 then st
    else
      Stretched(Blowfish.ExpandedNoSalt(Blowfish.ExpandedNoSalt(st, ToBytes(key)), ToBytes(salt)), key, salt, n - 1)
  }

  type Pair = (bv32, bv32)

  function EncryptedTimes(st: Blowfish.State, x: Pair, n: nat): Pair
    requires st.Valid()
    decreases n
  {
    if n == 0 then x else EncryptedTimes(st, Blowfish.Encrypted(st, x), n - 1)
  }

  function WordOctets(w: bv32): seq<octet>
  {
    [((w >> 24) & 0xFF) as bv8 as int, ((w >> 16) & 0xFF) as bv8 as int,
     ((w >> 8) & 0xFF) as bv8 as int, (w & 0xFF) as bv8 as int]
  }

  function PairOctets(x: Pair): (r: seq<octet>)
    ensures |r| == 8
  {
    WordOctets(x.0) + WordOctets(x.1)
  }

  const MAGIC0: Pair := (0x4f72_7068, 0x6561_6e42)
  const MAGIC1: Pair := (0x6568_6f6c, 0x6465_7253)
  const MAGIC2: Pair := (0x6372_7944, 0x6f75_6274)

  /** 24 octets from the password, the salt and the work factor, over the initial tables `init`. */
  function Digest(init: Blowfish.State, password: seq<octet>, salt: seq<octet>, workFactor: nat): (d: seq<octet>)
    requires init.Valid() && salt != []
    ensures |d| == 24
  {
    var key := Key(password);
    var st := Stretched(Blowfish.Expanded(init, ToBytes(key), ToBytes(salt)), key, salt, Rounds(workFactor));
    PairOctets(EncryptedTimes(st, MAGIC0, 64)) + PairOctets(EncryptedTimes(st, MAGIC1, 64))
    + PairOctets(EncryptedTimes(st, MAGIC2, 64))
  }

  lemma StretchedNext(st: Blowfish.State, key: seq<octet>, salt: seq<octet>, n: nat)
    requires st.Valid() && key != [] && salt != [] && n > 0
    ensures Stretched(st, key, salt, n)
         == Stretched(Blowfish.ExpandedNoSalt(Blowfish.ExpandedNoSalt(st, ToBytes(key)), ToBytes(salt)), key, salt, n - 1)
  {
  }

  /** The expensive key setup. */
  method Setup(init: Blowfish.State, key: seq<octet>, salt: seq<octet>, rounds: nat)
    returns (state: Blowfish.BfState, ghost turns: nat)
    requires init.Valid() && key != [] && salt != []
    ensures fresh(state) && fresh(state.P) && fresh(state.S) && state.Valid() && turns == rounds
    ensures state.View() == Stretched(Blowfish.Expanded(init, ToBytes(key), ToBytes(salt)), key, salt, rounds)
  {
    hide Stretched;
    hide ToBytes;
    hide Blowfish.Expanded;
    hide Blowfish.ExpandedNoSalt;
    state := new Blowfish.BfState(init);
    state.ExpandKey(ToBytes(key), ToBytes(salt));
    ghost var expanded := state.View();
    turns := 0;
    var i := 0;
    while i < rounds
      invariant turns == i <= rounds && fresh(state) && state.Valid() && fresh(state.P) && fresh(state.S)
      invariant Stretched(expanded, key, salt, rounds) == Stretched(state.View(), key, salt, rounds - i)
    {
      StretchedNext(state.View(), key, salt, rounds - i);
      state.ExpandKeyNoSalt(ToBytes(key));
      state.ExpandKeyNoSalt(ToBytes(salt));
      turns := turns + 1;
      i := i + 1;
    }
    StretchedDone(state.View(), key, salt);
  }

  lemma StretchedDone(st: Blowfish.State, key: seq<octet>, salt: seq<octet>)
    requires st.Valid() && key != [] && salt != []
    ensures Stretched(st, key, salt, 0) == st
  {
  }

  lemma EncryptedNext(st: Blowfish.State, x: Pair, n: nat)
    requires st.Valid() && n > 0
    ensures EncryptedTimes(st, x, n) == EncryptedTimes(st, Blowfish.Encrypted(st, x), n - 1)
  {
  }

  /** Two turns of the schedule without salt, as in every round of the expensive setup. */
  function Turn(st: Blowfish.State, key: seq<octet>, salt: seq<octet>): (r: Blowfish.State)
    requires st.Valid() && key != [] && salt != []
    ensures r.Valid()
  {
    Blowfish.ExpandedNoSalt(Blowfish.ExpandedNoSalt(st, ToBytes(key)), ToBytes(salt))
  }

  lemma StretchedTurn(st: Blowfish.State, key: seq<octet>, salt: seq<octet>, n: nat)
    requires st.Valid() && key != [] && salt != [] && n > 0
    ensures Stretched(st, key, salt, n) == Stretched(Turn(st, key, salt), key, salt, n - 1)
  {
    hide Blowfish.ExpandedNoSalt;
    hide ToBytes;
  }

  lemma {:induction false} StretchedAdd(st: Blowfish.State, key: seq<octet>, salt: seq<octet>, m: nat, n: nat)
    requires st.Valid() && key != [] && salt != []
    ensures Stretched(st, key, salt, m + n) == Stretched(Stretched(st, key, salt, m), key, salt, n)
    decreases m
  {
    hide Stretched;
    hide Turn;
    if m == 0 {
      StretchedDone(st, key, salt);
    } else {
      StretchedTurn(st, key, salt, m);
      StretchedTurn(st, key, salt, m + n);
      StretchedAdd(Turn(st, key, salt), key, salt, m - 1, n);
    }
  }

  /** One more in the work factor is the whole setup before, twice. */
  lemma NextFactorTwice(st: Blowfish.State, key: seq<octet>, salt: seq<octet>, n: nat)
    requires st.Valid() && key != [] && salt != []
    ensures Stretched(st, key, salt, Rounds(n + 1))
         == Stretched(Stretched(st, key, salt, Rounds(n)), key, salt, Rounds(n))
  {
    hide Stretched;
    StretchedAdd(st, key, salt, Rounds(n), Rounds(n));
  }

  method EncryptMagic(state: Blowfish.BfState) returns (x0: Pair, x1: Pair, x2: Pair)
    requires state.Valid()
    ensures var st := state.View();
      x0 == EncryptedTimes(st, MAGIC0, 64) && x1 == EncryptedTimes(st, MAGIC1, 64) && x2 == EncryptedTimes(st, MAGIC2, 64)
  {
    hide EncryptedTimes;
    hide Blowfish.Encrypted;
    x0, x1, x2 := MAGIC0, MAGIC1, MAGIC2;
    ghost var st := state.View();
    var i := 0;
    while i < 64
      invariant i <= 64
      invariant EncryptedTimes(st, x0, 64 - i) == EncryptedTimes(st, MAGIC0, 64)
      invariant EncryptedTimes(st, x1, 64 - i) == EncryptedTimes(st, MAGIC1, 64)
      invariant EncryptedTimes(st, x2, 64 - i) == EncryptedTimes(st, MAGIC2, 64)
    {
      EncryptedNext(st, x0, 64 - i);
      EncryptedNext(st, x1, 64 - i);
      EncryptedNext(st, x2, 64 - i);
      var l, r := state.Encrypt(x0.0, x0.1);
      x0 := (l, r);
      l, r := state.Encrypt(x1.0, x1.1);
      x1 := (l, r);
      l, r := state.Encrypt(x2.0, x2.1);
      x2 := (l, r);
      i := i + 1;
    }
    EncryptedDone(st, x0);
    EncryptedDone(st, x1);
    EncryptedDone(st, x2);
  }

  lemma EncryptedDone(st: Blowfish.State, x: Pair)
    requires st.Valid()
    ensures EncryptedTimes(st, x, 0) == x
  {
  }

  method ComputeDigest(init: Blowfish.State, password: seq<octet>, salt: seq<octet>, workFactor: nat)
    returns (d: seq<octet>, ghost turns: nat)
    requires init.Valid() && salt != [] && workFactor <= 31
    ensures d == Digest(init, password, salt, workFactor) && turns == Shifted(workFactor) as nat
  {
    hide PairOctets;
    hide EncryptedTimes;
    hide Stretched;
    hide Key;
    hide Rounds;
    RoundsShifted(workFactor);
    var rounds := (1 as bv32) << workFactor;
    var state;
    state, turns := Setup(init, Key(password), salt, rounds as nat);
    var x0, x1, x2 := EncryptMagic(state);
    d := PairOctets(x0) + PairOctets(x1) + PairOctets(x2);
  }

  /** The big-endian octets of a word. */
  lemma WordOctetsAre(b0: octet, b1: octet, b2: octet, b3: octet)
    ensures WordOctets(Blowfish.WordOf(ToByte(b0), ToByte(b1), ToByte(b2), ToByte(b3))) == [b0, b1, b2, b3]
  {
    hide ToByte;
    hide Blowfish.WordOf;
    Blowfish.WordOctetsBack(ToByte(b0), ToByte(b1), ToByte(b2), ToByte(b3));
    ToByteBack(b0);
    ToByteBack(b1);
    ToByteBack(b2);
    ToByteBack(b3);
  }

  function Octets8(s: string): seq<octet>
    requires |s| == 8 && Ascii(s)
  {
    seq(8, i requires 0 <= i < 8 => s[i] as int)
  }

  /** What is encrypted is the text of the bcrypt paper, eight characters in each pair. */
  lemma MagicText()
    ensures PairOctets(MAGIC0) == Octets8("OrpheanB") && PairOctets(MAGIC1) == Octets8("eholderS")
    ensures PairOctets(MAGIC2) == Octets8("cryDoubt")
  {
  }

  /**
   The digest is that of the paper: a salted schedule, then two to the power of the cost times the
   schedules of key and salt, each the salted one with a salt of zeros, and each pair encrypted 64 times.
   */
  lemma DigestIs(init: Blowfish.State, password: seq<octet>, salt: seq<octet>, workFactor: nat)
    requires init.Valid() && |salt| == 16 && workFactor <= 31
    ensures var key := Key(password);
      var st := PaperSetup(Blowfish.Expanded(init, ToBytes(key), ToBytes(salt)), key, salt,
                           Shifted(workFactor) as nat);
      Digest(init, password, salt, workFactor)
      == PairOctets(EncryptedTimes(st, MAGIC0, 64)) + PairOctets(EncryptedTimes(st, MAGIC1, 64))
         + PairOctets(EncryptedTimes(st, MAGIC2, 64))
  {
    hide PairOctets;
    hide EncryptedTimes;
    hide Stretched;
    hide PaperSetup;
    hide Key;
    hide Rounds;
    hide Shifted;
    hide ToBytes;
    hide Blowfish.Expanded;
    RoundsShifted(workFactor);
    var key := Key(password);
    PaperSetupIs(Blowfish.Expanded(init, ToBytes(key), ToBytes(salt)), key, salt, Rounds(workFactor));
  }

  const ZEROS: seq<byte> := [0, 0, 0, 0, 0, 0, 0, 0, 0, 0, 0, 0, 0, 0, 0, 0]

  function PaperSetup(st: Blowfish.State, key: seq<octet>, salt: seq<octet>, n: nat): (r: Blowfish.State)
    requires st.Valid() && key != [] && salt != []
    ensures r.Valid()
    decreases n
  {
    if n == 0 then st
    else
      var before := PaperSetup(st, key, salt, n - 1);
      Blowfish.Expanded(Blowfish.Expanded(before, ToBytes(key), ZEROS), ToBytes(salt), ZEROS)
  }

  lemma PaperTurn(st: Blowfish.State, key: seq<octet>, salt: seq<octet>)
    requires st.Valid() && key != [] && salt != []
    ensures Turn(st, key, salt) == Blowfish.Expanded(Blowfish.Expanded(st, ToBytes(key), ZEROS), ToBytes(salt), ZEROS)
  {
    hide Blowfish.Expanded;
    hide Blowfish.ExpandedNoSalt;
    hide ToBytes;
    Blowfish.NoSaltIsZeroSalt(st, ToBytes(key), ZEROS);
    Blowfish.NoSaltIsZeroSalt(Blowfish.ExpandedNoSalt(st, ToBytes(key)), ToBytes(salt), ZEROS);
  }

  lemma {:induction false} PaperSetupIs(st: Blowfish.State, key: seq<octet>, salt: seq<octet>, n: nat)
    requires st.Valid() && key != [] && salt != []
    ensures PaperSetup(st, key, salt, n) == Stretched(st, key, salt, n)
    decreases n
  {
    hide Stretched;
    hide Turn;
    hide Blowfish.Expanded;
    hide ToBytes;
    if n == 0 {
      StretchedDone(st, key, salt);
    } else {
      var before := Stretched(st, key, salt, n - 1);
      PaperSetupIs(st, key, salt, n - 1);
      StretchedAdd(st, key, salt, n - 1, 1);
      StretchedTurn(before, key, salt, 1);
      StretchedDone(Turn(before, key, salt), key, salt);
      PaperTurn(before, key, salt);
    }
  }

  // ---------- Hashing and checking ----------

  const SALT_OCTETS: nat := 16
  const DIGEST_OCTETS: nat := 23

  function Clamped(workFactor: int): nat
  {
    if workFactor < 4 then 4 else if workFactor > 31 then 31 else workFactor
  }

  function TwoDigits(n: nat): string
    requires n < 100
  {
    ['0' + (n / 10) as char, '0' + (n % 10) as char]
  }

  /** `salt` is what the system's random source delivered. */
  function Hash(init: Blowfish.State, password: seq<octet>, workFactor: int, salt: seq<octet>): string
    requires init.Valid() && |salt| == SALT_OCTETS
  {
    if password == [] then []
    else
      var n := Clamped(workFactor);
      "$2b$" + TwoDigits(n) + "$" + Encoded(salt) + Encoded(Digest(init, password, salt, n)[..DIGEST_OCTETS])
  }

  method BcryptHash(init: Blowfish.State, password: seq<octet>, workFactor: int, salt: seq<octet>)
    returns (result: string)
    requires init.Valid() && |salt| == SALT_OCTETS
    ensures result == Hash(init, password, workFactor, salt)
  {
    hide Digest;
    hide Encoded;
    var n := workFactor;
    if n < 4 { n := 4; }
    if n > 31 { n := 31; }
    if password == [] {
      return [];
    }
    var d, _ := ComputeDigest(init, password, salt, n);
    var saltB64 := Base64Encode(salt);
    var hashB64 := Base64Encode(d[..DIGEST_OCTETS]);
    result := "$2b$" + TwoDigits(n) + "$" + saltB64 + hashB64;
  }

  /** The prefix that both texts have, up to 31 characters and the end of the expected C string. */
  predicate Matches(computed: string, expected: string, n: nat)
    requires n <= |computed|
    decreases n
  {
    n == 0 || AtEnd(expected) || (computed[0] == expected[0] && Matches(computed[1..], expected[1..], n - 1))
  }

  predicate Parsed(hash: string)
  {
    && |hash| >= 59
    && hash[0] == '$' && hash[3] == '$' && hash[6] == '$'
    && hash[1] == '2' && hash[2] in {'b', 'a', 'y'}
    && 4 <= WorkFactorOf(hash) <= 31
  }

  function WorkFactorOf(hash: string): int
    requires |hash| >= 59
  {
    (hash[4] as int - '0' as int) * 10 + (hash[5] as int - '0' as int)
  }

  /** Two digits of a work factor from 4 to 31 between the second and the third dollar sign. */
  lemma ParsedIs(hash: string, tens: nat, ones: nat)
    requires |hash| >= 7 && tens < 10 && ones < 10 && hash[4] == "0123456789"[tens] && hash[5] == "0123456789"[ones]
    ensures Parsed(hash) <==>
      && |hash| >= 59 && hash[0] == '$' && hash[3] == '$' && hash[6] == '$' && hash[1] == '2'
      && (hash[2] == 'a' || hash[2] == 'b' || hash[2] == 'y') && 4 <= 10 * tens + ones <= 31
  {
    assert "0123456789"[tens] == '0' + tens as char && "0123456789"[ones] == '0' + ones as char;
  }

  /** `junk` is what the salt buffer held before; octets that are not decoded keep it. */
  function SaltOf(hash: string, junk: seq<octet>): (salt: seq<octet>)
    requires |hash| >= 59 && Ascii(hash) && |junk| == SALT_OCTETS
    ensures |salt| == SALT_OCTETS
  {
    assert Ascii(hash[7..]);
    var salt := Decoded(hash[7..], SALT_OCTETS);
    salt + junk[|salt|..]
  }

  /** What is not decoded of the salt is what the buffer held before. */
  lemma SaltIs(hash: string, junk: seq<octet>, k: nat)
    requires |hash| >= 59 && Ascii(hash) && |junk| == SALT_OCTETS && k < SALT_OCTETS
    ensures Ascii(hash[7..])
    ensures var decoded := Decoded(hash[7..], 16);
      |decoded| <= 16 && SaltOf(hash, junk)[k] == if k < |decoded| then decoded[k] else junk[k]
  {
    hide Decoded;
    assert Ascii(hash[7..]);
  }

  predicate Check(init: Blowfish.State, password: seq<octet>, hash: string, junk: seq<octet>)
    requires init.Valid() && Ascii(hash) && |junk| == SALT_OCTETS
  {
    Parsed(hash) && password != [] &&
    var computed := Encoded(Digest(init, password, SaltOf(hash, junk), WorkFactorOf(hash))[..DIGEST_OCTETS]);
    |computed| == 31 && Matches(computed, hash[29..], 31)
  }

  method BcryptCheck(init: Blowfish.State, password: seq<octet>, hash: string, junk: seq<octet>) returns (ok: bool)
    requires init.Valid() && Ascii(hash) && |junk| == SALT_OCTETS
    ensures ok == Check(init, password, hash, junk)
  {
    hide Digest;
    hide Encoded;
    hide Decoded;
    if |hash| < 59 {
      return false;
    }
    if hash[0] != '$' || hash[3] != '$' || hash[6] != '$' {
      return false;
    }
    if hash[1] != '2' || (hash[2] != 'b' && hash[2] != 'a' && hash[2] != 'y') {
      return false;
    }
    var workFactor := (hash[4] as int - '0' as int) * 10 + (hash[5] as int - '0' as int);
    if workFactor < 4 || workFactor > 31 {
      return false;
    }
    assert Ascii(hash[7..]);
    var salt := Base64Decode(hash[7..], SALT_OCTETS);
    salt := salt + junk[|salt|..];
    if password == [] {
      return false;
    }
    var d, _ := ComputeDigest(init, password, salt, workFactor);
    var computed := Base64Encode(d[..DIGEST_OCTETS]);
    EncodedLength(d[..DIGEST_OCTETS]);
    ok := Compare(computed, hash[29..]);
  }

  /** Looks at all characters that both have; the difference is only collected. */
  method Compare(computed: string, expected: string) returns (same: bool)
    requires |computed| == 31 && forall i | 0 <= i < 31 :: computed[i] != '\0'
    ensures same == Matches(computed, expected, 31)
  {
    var diff := false;
    var i := 0;
    assert computed[0..] == computed && expected[0..] == expected;
    while i < 31 && !AtEnd(computed[i..]) && !AtEnd(expected[i..])
      invariant i <= 31 && i <= |expected|
      invariant Matches(computed, expected, 31) <==> !diff && Matches(computed[i..], expected[i..], 31 - i)
    {
      assert computed[i..][1..] == computed[i + 1..] && expected[i..][1..] == expected[i + 1..];
      diff := diff || computed[i] != expected[i];
      i := i + 1;
    }
    return !diff;
  }

  /** How long the C string is that starts there. */
  function CLength(s: string): (n: nat)
    ensures n <= |s| && (n == |s| || s[n] == '\0') && forall i | 0 <= i < n :: s[i] != '\0'
  {
    if AtEnd(s) then 0
    else
      assert forall i | 1 <= i < |s| :: s[i] == s[1..][i - 1];
      1 + CLength(s[1..])
  }

  function Least(m: nat, n: nat): nat
  {
    if m < n then m else n
  }

  predicate AgreeUpTo(a: string, b: string, k: nat)
    requires k <= |a| && k <= |b|
  {
    forall i | 0 <= i < k :: a[i] == b[i]
  }

  lemma AgreeNext(a: string, b: string, k: nat)
    requires 0 < k <= |a| && k <= |b|
    ensures AgreeUpTo(a, b, k) <==> a[0] == b[0] && AgreeUpTo(a[1..], b[1..], k - 1)
  {
    if a[0] == b[0] && AgreeUpTo(a[1..], b[1..], k - 1) {
      assert forall i | 1 <= i < k :: a[i] == a[1..][i - 1] && b[i] == b[1..][i - 1];
    }
  }

  /** Only as many characters are compared as there are before the end of the expected C string. */
  lemma {:induction false} MatchesExactly(computed: string, expected: string, n: nat)
    requires n <= |computed|
    ensures Matches(computed, expected, n) <==> AgreeUpTo(computed, expected, Least(n, CLength(expected)))
    decreases n
  {
    hide AgreeUpTo;
    if n == 0 || AtEnd(expected) {
      assert AgreeUpTo(computed, expected, 0) by { AgreeNone(computed, expected); }
    } else {
      MatchesExactly(computed[1..], expected[1..], n - 1);
      AgreeNext(computed, expected, Least(n, CLength(expected)));
    }
  }

  lemma AgreeNone(a: string, b: string)
    ensures AgreeUpTo(a, b, 0)
  {
  }

  /** The digits that a password is given for the salt and the work factor of a text. */
  function DigitsFor(init: Blowfish.State, password: seq<octet>, hash: string, junk: seq<octet>): (x: string)
    requires init.Valid() && Ascii(hash) && |junk| == SALT_OCTETS && Parsed(hash)
    ensures |x| == 31
  {
    var d := Digest(init, password, SaltOf(hash, junk), WorkFactorOf(hash))[..DIGEST_OCTETS];
    EncodedLength(d);
    Encoded(d)
  }

  /** Of the expected digits, those before the first terminator, no more than 31. */
  function Compared(hash: string): (k: nat)
    requires |hash| >= 59
    ensures k <= 31 && 29 + k <= |hash|
  {
    Least(31, CLength(hash[29..]))
  }

  /** Whatever the text is, if it is parsed: its digits are compared up to its first terminator. */
  lemma CheckExactly(init: Blowfish.State, password: seq<octet>, hash: string, junk: seq<octet>)
    requires init.Valid() && Ascii(hash) && |junk| == SALT_OCTETS && Parsed(hash)
    ensures Check(init, password, hash, junk) <==>
      password != [] &&
      forall i | 0 <= i < Compared(hash) :: DigitsFor(init, password, hash, junk)[i] == hash[29 + i]
  {
    hide Digest;
    hide Encoded;
    hide Decoded;
    hide Matches;
    hide CLength;
    hide SaltOf;
    var x, k := DigitsFor(init, password, hash, junk), Compared(hash);
    MatchesExactly(x, hash[29..], 31);
    assert forall i | 0 <= i < k :: hash[29..][i] == hash[29 + i];
  }

  /** A terminator in front of the digits leaves nothing to compare: every password is accepted. */
  lemma NoDigitsAcceptAll(init: Blowfish.State, password: seq<octet>, hash: string, junk: seq<octet>)
    requires init.Valid() && Ascii(hash) && |junk| == SALT_OCTETS && Parsed(hash) && hash[29] == '\0'
    ensures Check(init, password, hash, junk) <==> password != []
  {
    hide Check;
    hide DigitsFor;
    CheckExactly(init, password, hash, junk);
    assert hash[29..][0] == '\0';
  }

  lemma Assembled(head: string, a: string, b: string)
    requires |head| == 7 && |a| == 22 && Ascii(head) && Ascii(a) && Ascii(b)
    ensures var h := head + a + b;
      && |h| == 29 + |b| && Ascii(h) && h[..7] == head && h[7..] == a + b && h[29..] == b
      && forall i | 0 <= i < 7 :: h[i] == head[i]
  {
  }

  lemma HeadIs(n: nat)
    requires 4 <= n <= 31
    ensures var head := "$2b$" + TwoDigits(n) + "$";
      && |head| == 7 && Ascii(head) && head[0] == head[3] == head[6] == '$' && head[1] == '2' && head[2] == 'b'
      && (head[4] as int - '0' as int) * 10 + (head[5] as int - '0' as int) == n
  {
  }

  /** The parts of a hash text: the version, the work factor brought into its limits, salt and digest. */
  lemma HashShape(init: Blowfish.State, password: seq<octet>, workFactor: int, salt: seq<octet>)
    requires init.Valid() && |salt| == SALT_OCTETS
    ensures password == [] ==> Hash(init, password, workFactor, salt) == []
    ensures password != [] ==>
      var h := Hash(init, password, workFactor, salt);
      var n := if workFactor < 4 then 4 else if workFactor > 31 then 31 else workFactor;
      var d := Digest(init, password, salt, n)[..DIGEST_OCTETS];
      && Clamped(workFactor) == n
      && |h| == 60 && Ascii(h) && Parsed(h) && WorkFactorOf(h) == n && h[..4] == "$2b$" && h[6] == '$'
      && h[7..] == Encoded(salt) + Encoded(d) && h[29..] == Encoded(d)
      && |Encoded(d)| == 31 && forall i | 0 <= i < 31 :: Encoded(d)[i] != '\0'
  {
    hide Digest;
    hide Encoded;
    hide TwoDigits;
    hide Ascii;
    if password != [] {
      var n := Clamped(workFactor);
      var d := Digest(init, password, salt, n)[..DIGEST_OCTETS];
      EncodedAscii(salt);
      EncodedAscii(d);
      HeadIs(n);
      var head := "$2b$" + TwoDigits(n) + "$";
      Assembled(head, Encoded(salt), Encoded(d));
      var h := Hash(init, password, workFactor, salt);
      assert h == head + Encoded(salt) + Encoded(d);
      assert h[..4] == "$2b$" by { assert h[..7][..4] == h[..4] && head[..4] == "$2b$"; }
    }
  }

  lemma EncodedAscii(data: seq<octet>)
    ensures Ascii(Encoded(data)) && |Encoded(data)| == (|data| * 4 + 2) / 3
    ensures forall i | 0 <= i < |Encoded(data)| :: Encoded(data)[i] != '\0'
  {
    EncodedLength(data);
  }

  /**
   A password is accepted against the hash of another if and only if the 23 octets of their digests
   are equal; so a hash is always accepted with its own password.
   */
  lemma CheckHash(init: Blowfish.State, password: seq<octet>, other: seq<octet>, workFactor: int, salt: seq<octet>,
                  junk: seq<octet>)
    requires init.Valid() && |salt| == SALT_OCTETS == |junk| && password != []
    ensures var h := Hash(init, password, workFactor, salt);
      && Ascii(h)
      && (Check(init, other, h, junk) <==>
            other != [] &&
            var n := Clamped(workFactor);
            Digest(init, other, salt, n)[..DIGEST_OCTETS] == Digest(init, password, salt, n)[..DIGEST_OCTETS])
  {
    hide Digest;
    hide Encoded;
    hide Decoded;
    hide Hash;
    hide Parsed;
    hide Matches;
    var h, n := Hash(init, password, workFactor, salt), Clamped(workFactor);
    HashShape(init, password, workFactor, salt);
    var d, e := Digest(init, password, salt, n)[..DIGEST_OCTETS], Digest(init, other, salt, n)[..DIGEST_OCTETS];
    EncodedLength(d);
    EncodedLength(e);
    DecodeEncode(salt, Encoded(d));
    assert SaltOf(h, junk) == salt;
    CheckExactly(init, other, h, junk);
    assert Encoded(e) == DigitsFor(init, other, h, junk);
    assert forall i | 0 <= i < 31 :: h[29 + i] == Encoded(d)[i];
    assert Compared(h) == 31;
    if Encoded(e) == Encoded(d) { EncodedInjective(e, d); }
  }

  lemma OwnPasswordAccepted(init: Blowfish.State, password: seq<octet>, workFactor: int, salt: seq<octet>,
                            junk: seq<octet>)
    requires init.Valid() && |salt| == SALT_OCTETS == |junk| && password != []
    ensures var h := Hash(init, password, workFactor, salt); Ascii(h) && |h| == 60 && Check(init, password, h, junk)
  {
    hide Digest;
    hide Hash;
    hide Check;
    HashShape(init, password, workFactor, salt);
    CheckHash(init, password, password, workFactor, salt, junk);
  }

  /**
   The length test lets a hash through that has lost its last character; what is left of the digest
   is then all that is compared.
   */
  lemma ShortenedHash(init: Blowfish.State, password: seq<octet>, other: seq<octet>, workFactor: int,
                      salt: seq<octet>, junk: seq<octet>)
    requires init.Valid() && |salt| == SALT_OCTETS == |junk| && password != []
    ensures var h := Hash(init, password, workFactor, salt);
      && |h| == 60 && Ascii(h[..59])
      && (Check(init, other, h[..59], junk) <==>
            other != [] &&
            var n := Clamped(workFactor);
            var x := Encoded(Digest(init, other, salt, n)[..DIGEST_OCTETS]);
            var y := Encoded(Digest(init, password, salt, n)[..DIGEST_OCTETS]);
            |x| == |y| == 31 && x[..30] == y[..30])
  {
    hide Digest;
    hide Encoded;
    hide Decoded;
    hide Hash;
    hide Matches;
    var h, n := Hash(init, password, workFactor, salt), Clamped(workFactor);
    HashShape(init, password, workFactor, salt);
    var s := h[..59];
    var d, e := Digest(init, password, salt, n)[..DIGEST_OCTETS], Digest(init, other, salt, n)[..DIGEST_OCTETS];
    EncodedLength(d);
    EncodedLength(e);
    assert s[7..] == Encoded(salt) + Encoded(d)[..30] by {
      assert s[7..] == h[7..][..52];
      EncodedLength(salt);
    }
    DecodeEncode(salt, Encoded(d)[..30]);
    assert SaltOf(s, junk) == salt;
    assert s[29..] == Encoded(d)[..30] by { assert s[29..] == h[29..][..30]; }
    CheckExactly(init, other, s, junk);
    assert Encoded(e) == DigitsFor(init, other, s, junk);
    assert forall i | 0 <= i < 30 :: s[29 + i] == Encoded(d)[i];
    assert Compared(s) == 30;
  }
}
