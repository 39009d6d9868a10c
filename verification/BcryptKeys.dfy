/**
 Which passwords bcrypt tells apart. The key is the password with its terminator, cut at 72 octets and
 repeated without end; the eighteen key words read 72 octets of it. The first key schedule keeps two
 passwords apart exactly if these 72 octets differ.
 */
module BcryptKeys {
  import opened Octets
  import Blowfish
  import opened Bcrypt

  type State = Blowfish.State
  type Half = Blowfish.Half

  // ---------- The key stream ----------

  const STREAM: nat := 72

  function StreamOctet(password: seq<octet>, i: nat): octet
  {
    Key(password)[i % |Key(password)|]
  }

  /** The octets that the key words are read from. */
  function Stream(password: seq<octet>): (s: seq<octet>)
    ensures |s| == STREAM
  {
    seq(STREAM, i requires 0 <= i < STREAM => StreamOctet(password, i))
  }

  lemma WordOfInjective(a0: byte, a1: byte, a2: byte, a3: byte, b0: byte, b1: byte, b2: byte, b3: byte)
    requires Blowfish.WordOf(a0, a1, a2, a3) == Blowfish.WordOf(b0, b1, b2, b3)
    ensures a0 == b0 && a1 == b1 && a2 == b2 && a3 == b3
  {
    Blowfish.WordOctetsBack(a0, a1, a2, a3);
    Blowfish.WordOctetsBack(b0, b1, b2, b3);
  }

  lemma WordFromStream(password: seq<octet>, k: nat)
    requires k < Blowfish.SUBKEYS
    ensures var s := Stream(password);
      Blowfish.Word(ToBytes(Key(password)), k)
        == Blowfish.WordOf(ToByte(s[4 * k]), ToByte(s[4 * k + 1]), ToByte(s[4 * k + 2]), ToByte(s[4 * k + 3]))
  {
    hide Blowfish.Append;
    hide Blowfish.Byte;
    hide Key;
    hide ToByte;
    hide ToBytes;
    hide StreamOctet;
    StreamByte(password, 4 * k);
    StreamByte(password, 4 * k + 1);
    StreamByte(password, 4 * k + 2);
    StreamByte(password, 4 * k + 3);
  }

  lemma StreamByte(password: seq<octet>, i: nat)
    ensures Blowfish.Byte(ToBytes(Key(password)), i) == ToByte(StreamOctet(password, i))
  {
    hide ToByte;
    hide Key;
  }

  function KeyWord(password: seq<octet>, k: nat): Half
  {
    Blowfish.Word(ToBytes(Key(password)), k)
  }

  lemma SameWord(a: seq<octet>, b: seq<octet>, k: nat)
    requires k < Blowfish.SUBKEYS
    ensures KeyWord(a, k) == KeyWord(b, k) <==> forall i | 4 * k <= i < 4 * k + 4 :: Stream(a)[i] == Stream(b)[i]
  {
    hide Blowfish.Word;
    hide ToBytes;
    hide Key;
    hide Blowfish.WordOf;
    hide Stream;
    hide ToByte;
    var s, t := Stream(a), Stream(b);
    WordFromStream(a, k);
    WordFromStream(b, k);
    if KeyWord(a, k) == KeyWord(b, k) {
      WordOfInjective(ToByte(s[4 * k]), ToByte(s[4 * k + 1]), ToByte(s[4 * k + 2]), ToByte(s[4 * k + 3]),
                      ToByte(t[4 * k]), ToByte(t[4 * k + 1]), ToByte(t[4 * k + 2]), ToByte(t[4 * k + 3]));
      ToByteInjective(s[4 * k], t[4 * k]);
      ToByteInjective(s[4 * k + 1], t[4 * k + 1]);
      ToByteInjective(s[4 * k + 2], t[4 * k + 2]);
      ToByteInjective(s[4 * k + 3], t[4 * k + 3]);
    }
  }

  /** The eighteen key words are the same exactly if the streams are. */
  lemma SameWords(a: seq<octet>, b: seq<octet>)
    ensures (forall k | 0 <= k < Blowfish.SUBKEYS :: KeyWord(a, k) == KeyWord(b, k)) <==> Stream(a) == Stream(b)
  {
    hide KeyWord;
    hide StreamOctet;
    hide Stream;
    forall k | 0 <= k < Blowfish.SUBKEYS
      ensures KeyWord(a, k) == KeyWord(b, k) <==> forall i | 4 * k <= i < 4 * k + 4 :: Stream(a)[i] == Stream(b)[i]
    {
      SameWord(a, b, k);
    }
    if forall k | 0 <= k < Blowfish.SUBKEYS :: KeyWord(a, k) == KeyWord(b, k) {
      forall i | 0 <= i < STREAM ensures Stream(a)[i] == Stream(b)[i] {
        assert KeyWord(a, i / 4) == KeyWord(b, i / 4);
      }
    }
  }

  lemma XorSame(a: Half, x: Half, y: Half)
    ensures Blowfish.Xor(a, x) == Blowfish.Xor(a, y) <==> x == y
  {
    hide Blowfish.Xor;
    Blowfish.XorCommutes(a, x);
    Blowfish.XorCommutes(a, y);
    Blowfish.XorCancel(x, a);
    Blowfish.XorCancel(y, a);
  }

  /** Mixing two keys into the same subkeys gives the same subkeys exactly if the streams are the same. */
  lemma SameMixed(st: State, a: seq<octet>, b: seq<octet>)
    requires st.Valid()
    ensures Blowfish.Mixed(st, ToBytes(Key(a))) == Blowfish.Mixed(st, ToBytes(Key(b))) <==> Stream(a) == Stream(b)
  {
    hide KeyWord;
    hide Blowfish.Mixed;
    hide Stream;
    SameWords(a, b);
    var p, q := Blowfish.Mixed(st, ToBytes(Key(a))), Blowfish.Mixed(st, ToBytes(Key(b)));
    MixedWords(st, a);
    MixedWords(st, b);
    forall k | 0 <= k < Blowfish.SUBKEYS ensures p.P[k] == q.P[k] <==> KeyWord(a, k) == KeyWord(b, k) {
      XorSame(st.P[k], KeyWord(a, k), KeyWord(b, k));
    }
    assert p == q <==> p.P == q.P;
    assert p.P == q.P <==> forall k | 0 <= k < Blowfish.SUBKEYS :: p.P[k] == q.P[k];
  }

  lemma MixedWords(st: State, a: seq<octet>)
    requires st.Valid()
    ensures var p := Blowfish.Mixed(st, ToBytes(Key(a)));
      p.S == st.S && forall k | 0 <= k < Blowfish.SUBKEYS :: p.P[k] == Blowfish.Xor(st.P[k], KeyWord(a, k))
  {
    hide Blowfish.Word;
    hide Blowfish.Xor;
    hide ToBytes;
    hide Key;
  }

  // ---------- The schedule loses no key word ----------

  lemma RoundInjective(S: seq<Half>, k: Half, x: (Half, Half), y: (Half, Half))
    requires |S| == Blowfish.BOXES && Blowfish.Round(S, k, x) == Blowfish.Round(S, k, y)
    ensures x == y
  {
    hide Blowfish.Xor;
    hide Blowfish.F;
    Blowfish.XorCancel(x.0, k);
    Blowfish.XorCancel(y.0, k);
    var l := Blowfish.Xor(x.0, k);
    Blowfish.XorCancel(x.1, Blowfish.F(S, l));
    Blowfish.XorCancel(y.1, Blowfish.F(S, l));
  }

  /** Rounds with the same subkeys that end in the same place began in the same place. */
  lemma {:induction false} RoundsBack(S: seq<Half>, P: seq<Half>, Q: seq<Half>, x: (Half, Half), y: (Half, Half),
                                      m: nat, n: nat)
    requires |S| == Blowfish.BOXES && m <= n <= |P| == |Q| && P[m..n] == Q[m..n]
    requires Blowfish.Rounds(S, P, x, n) == Blowfish.Rounds(S, Q, y, n)
    ensures Blowfish.Rounds(S, P, x, m) == Blowfish.Rounds(S, Q, y, m)
  {
    hide Blowfish.Round;
    if m < n {
      assert P[n - 1] == P[m..n][n - 1 - m] == Q[n - 1];
      RoundInjective(S, P[n - 1], Blowfish.Rounds(S, P, x, n - 1), Blowfish.Rounds(S, Q, y, n - 1));
      assert P[m..n - 1] == P[m..n][..n - 1 - m] == Q[m..n - 1];
      RoundsBack(S, P, Q, x, y, m, n - 1);
    }
  }

  lemma {:induction false} RoundsAlike(S: seq<Half>, P: seq<Half>, Q: seq<Half>, x: (Half, Half), n: nat)
    requires |S| == Blowfish.BOXES && n <= |P| == |Q| && P[..n] == Q[..n]
    ensures Blowfish.Rounds(S, P, x, n) == Blowfish.Rounds(S, Q, x, n)
  {
    hide Blowfish.Round;
    if n > 0 {
      assert P[..n - 1] == P[..n][..n - 1] == Q[..n - 1] && P[n - 1] == P[..n][n - 1] == Q[n - 1];
      RoundsAlike(S, P, Q, x, n - 1);
    }
  }

  /** Two rounds from the same place to the same place used the same two subkeys. */
  lemma TwoSubkeys(S: seq<Half>, x: (Half, Half), k0: Half, k1: Half, j0: Half, j1: Half)
    requires |S| == Blowfish.BOXES
    requires Blowfish.Round(S, k1, Blowfish.Round(S, k0, x)) == Blowfish.Round(S, j1, Blowfish.Round(S, j0, x))
    ensures k0 == j0 && k1 == j1
  {
    hide Blowfish.Xor;
    hide Blowfish.F;
    var x1, y1 := Blowfish.Round(S, k0, x), Blowfish.Round(S, j0, x);
    var l, m := Blowfish.Xor(x1.0, k1), Blowfish.Xor(y1.0, j1);
    assert l == m;
    Blowfish.XorCancel(x1.1, Blowfish.F(S, l));
    Blowfish.XorCancel(y1.1, Blowfish.F(S, l));
    assert Blowfish.Xor(x.0, k0) == Blowfish.Xor(x.0, j0);
    XorSame(x.0, k0, j0);
    XorSame(x1.0, k1, j1);
  }

  /** The last two subkeys can be read off the encryption if the rounds before ended in the same place. */
  lemma LastSubkeys(S: seq<Half>, P: seq<Half>, Q: seq<Half>, x: (Half, Half))
    requires |S| == Blowfish.BOXES && |P| == |Q| == Blowfish.SUBKEYS
    requires Blowfish.Encrypted(Blowfish.State(P, S), x) == Blowfish.Encrypted(Blowfish.State(Q, S), x)
    ensures Blowfish.Rounds(S, P, x, 16) == Blowfish.Rounds(S, Q, x, 16) <==> P[16] == Q[16] && P[17] == Q[17]
  {
    hide Blowfish.Xor;
    hide Blowfish.Rounds;
    var (r, l) := Blowfish.Rounds(S, P, x, 16);
    var (t, m) := Blowfish.Rounds(S, Q, x, 16);
    XorSame(l, P[17], Q[17]);
    XorSame(r, P[16], Q[16]);
    Blowfish.XorCancel(l, P[17]);
    Blowfish.XorCancel(m, P[17]);
    Blowfish.XorCancel(r, P[16]);
    Blowfish.XorCancel(t, P[16]);
  }

  /** States that differ in one pair of subkeys at most, and encrypt one block alike, do not differ. */
  lemma PairOfSubkeys(S: seq<Half>, P: seq<Half>, Q: seq<Half>, x: (Half, Half), k: nat)
    requires |S| == Blowfish.BOXES && |P| == |Q| == Blowfish.SUBKEYS && k < 9
    requires P[..2 * k] == Q[..2 * k] && P[2 * k + 2..] == Q[2 * k + 2..]
    requires Blowfish.Encrypted(Blowfish.State(P, S), x) == Blowfish.Encrypted(Blowfish.State(Q, S), x)
    ensures P[2 * k] == Q[2 * k] && P[2 * k + 1] == Q[2 * k + 1]
  {
    hide Blowfish.Encrypted;
    hide Blowfish.Round;
    hide Blowfish.Rounds;
    RoundsAlike(S, P, Q, x, 2 * k);
    LastSubkeys(S, P, Q, x);
    if k < 8 {
      assert P[16] == P[2 * k + 2..][14 - 2 * k] == Q[16] && P[17] == P[2 * k + 2..][15 - 2 * k] == Q[17];
      assert P[2 * k + 2..16] == P[2 * k + 2..][..14 - 2 * k] == Q[2 * k + 2..16];
      RoundsBack(S, P, Q, x, x, 2 * k + 2, 16);
      RoundsTwo(S, P, x, 2 * k);
      RoundsTwo(S, Q, x, 2 * k);
      TwoSubkeys(S, Blowfish.Rounds(S, P, x, 2 * k), P[2 * k], P[2 * k + 1], Q[2 * k], Q[2 * k + 1]);
    }
  }

  lemma RoundsTwo(S: seq<Half>, P: seq<Half>, x: (Half, Half), n: nat)
    requires |S| == Blowfish.BOXES && n + 2 <= |P|
    ensures Blowfish.Rounds(S, P, x, n + 2)
         == Blowfish.Round(S, P[n + 1], Blowfish.Round(S, P[n], Blowfish.Rounds(S, P, x, n)))
  {
    hide Blowfish.Round;
  }

  /** Subkeys that have been refilled stay as they are. */
  lemma {:induction false} FilledKeeps(st: State, salt: seq<byte>, x: (Half, Half), k: nat)
    requires st.Valid() && salt != [] && 2 * k <= Blowfish.WORDS
    ensures var n := if k < 9 then 2 * k else Blowfish.SUBKEYS;
      Blowfish.Filled(st, salt, x, k).P[..n] == st.P[..n]
    decreases Blowfish.WORDS - 2 * k
  {
    hide Blowfish.Xor;
    hide Blowfish.Word;
    hide Blowfish.Encrypted;
    if 2 * k < Blowfish.WORDS {
      var y := Blowfish.Encrypted(st, (Blowfish.Xor(x.0, Blowfish.Word(salt, 2 * k)),
                                       Blowfish.Xor(x.1, Blowfish.Word(salt, 2 * k + 1))));
      var next := Blowfish.Store(st, k, y);
      FilledKeeps(next, salt, y, k + 1);
      var n := if k < 9 then 2 * k else Blowfish.SUBKEYS;
      assert Blowfish.Filled(next, salt, y, k + 1).P[..n] == next.P[..n];
    }
  }

  /** What the next pair of subkeys is filled with. */
  function NextPair(st: State, salt: seq<byte>, x: (Half, Half), k: nat): (Half, Half)
    requires st.Valid() && salt != []
  {
    Blowfish.Encrypted(st, (Blowfish.Xor(x.0, Blowfish.Word(salt, 2 * k)), Blowfish.Xor(x.1, Blowfish.Word(salt, 2 * k + 1))))
  }

  /** It can be read off the result. */
  lemma PairFilled(st: State, salt: seq<byte>, x: (Half, Half), k: nat)
    requires st.Valid() && salt != [] && k < 9
    ensures var y, r := NextPair(st, salt, x, k), Blowfish.Filled(st, salt, x, k);
      && r == Blowfish.Filled(Blowfish.Store(st, k, y), salt, y, k + 1)
      && r.P[2 * k] == y.0 && r.P[2 * k + 1] == y.1
  {
    hide Blowfish.Xor;
    hide Blowfish.Word;
    hide Blowfish.Encrypted;
    var y := NextPair(st, salt, x, k);
    var next := Blowfish.Store(st, k, y);
    FilledKeeps(next, salt, y, k + 1);
    var f := Blowfish.Filled(next, salt, y, k + 1).P[..2 * k + 2];
    assert f[2 * k] == next.P[..2 * k + 2][2 * k] && f[2 * k + 1] == next.P[..2 * k + 2][2 * k + 1];
  }

  /**
   From the refilled words the subkeys before the refilling can be found: the last pair first, because
   each pair was encrypted with the pairs in front of it new and those behind it old.
   */
  lemma {:induction false} FilledInjective(p: State, q: State, salt: seq<byte>, x: (Half, Half), k: nat)
    requires p.Valid() && q.Valid() && salt != [] && k <= 9
    requires p.S == q.S && p.P[..2 * k] == q.P[..2 * k]
    requires Blowfish.Filled(p, salt, x, k) == Blowfish.Filled(q, salt, x, k)
    ensures p == q
    decreases 9 - k
  {
    hide Blowfish.Filled;
    hide NextPair;
    hide Blowfish.Store;
    if k == 9 {
      assert p.P == p.P[..18] && q.P == q.P[..18];
    } else {
      PairFilled(p, salt, x, k);
      PairFilled(q, salt, x, k);
      var y := NextPair(p, salt, x, k);
      assert y == NextPair(q, salt, x, k);
      StoredParts(p, k, y);
      StoredParts(q, k, y);
      assert Blowfish.Store(p, k, y).P[..2 * k + 2] == p.P[..2 * k] + [y.0, y.1];
      FilledInjective(Blowfish.Store(p, k, y), Blowfish.Store(q, k, y), salt, y, k + 1);
      SamePair(p, q, salt, x, k);
      Sandwich(p.P, k);
      Sandwich(q.P, k);
    }
  }

  lemma StoredParts(st: State, k: nat, y: (Half, Half))
    requires st.Valid() && k < 9
    ensures var r := Blowfish.Store(st, k, y);
      r.S == st.S && r.P[..2 * k + 2] == st.P[..2 * k] + [y.0, y.1] && r.P[2 * k + 2..] == st.P[2 * k + 2..]
  {
  }

  lemma SamePair(p: State, q: State, salt: seq<byte>, x: (Half, Half), k: nat)
    requires p.Valid() && q.Valid() && salt != [] && k < 9 && p.S == q.S
    requires p.P[..2 * k] == q.P[..2 * k] && p.P[2 * k + 2..] == q.P[2 * k + 2..]
    requires NextPair(p, salt, x, k) == NextPair(q, salt, x, k)
    ensures p.P[2 * k] == q.P[2 * k] && p.P[2 * k + 1] == q.P[2 * k + 1]
  {
    hide Blowfish.Xor;
    hide Blowfish.Word;
    hide Blowfish.Encrypted;
    var z := (Blowfish.Xor(x.0, Blowfish.Word(salt, 2 * k)), Blowfish.Xor(x.1, Blowfish.Word(salt, 2 * k + 1)));
    PairOfSubkeys(p.S, p.P, q.P, z, k);
  }

  lemma Sandwich(P: seq<Half>, k: nat)
    requires 2 * k + 2 <= |P|
    ensures P == P[..2 * k] + [P[2 * k], P[2 * k + 1]] + P[2 * k + 2..]
  {
  }

  /** For all tables and salts: two passwords leave the same state behind exactly if their streams are the same. */
  lemma ScheduleExactlyIf(st: State, salt: seq<byte>, a: seq<octet>, b: seq<octet>)
    requires st.Valid() && salt != []
    ensures Blowfish.Expanded(st, ToBytes(Key(a)), salt) == Blowfish.Expanded(st, ToBytes(Key(b)), salt)
      <==> Stream(a) == Stream(b)
    ensures Blowfish.ExpandedNoSalt(st, ToBytes(Key(a))) == Blowfish.ExpandedNoSalt(st, ToBytes(Key(b)))
      <==> Stream(a) == Stream(b)
  {
    hide Blowfish.Mixed;
    hide Blowfish.Filled;
    hide ToBytes;
    hide Key;
    hide Stream;
    MixedExactlyIf(st, salt, a, b);
    MixedExactlyIf(st, [0], a, b);
    Blowfish.NoSaltIsZeroSalt(st, ToBytes(Key(a)), [0]);
    Blowfish.NoSaltIsZeroSalt(st, ToBytes(Key(b)), [0]);
  }

  lemma MixedExactlyIf(st: State, salt: seq<byte>, a: seq<octet>, b: seq<octet>)
    requires st.Valid() && salt != []
    ensures Blowfish.Expanded(st, ToBytes(Key(a)), salt) == Blowfish.Expanded(st, ToBytes(Key(b)), salt)
      <==> Stream(a) == Stream(b)
  {
    hide Blowfish.Filled;
    hide Blowfish.Word;
    hide ToBytes;
    hide Key;
    hide Stream;
    SameMixed(st, a, b);
    var p, q := Blowfish.Mixed(st, ToBytes(Key(a))), Blowfish.Mixed(st, ToBytes(Key(b)));
    if Blowfish.Expanded(st, ToBytes(Key(a)), salt) == Blowfish.Expanded(st, ToBytes(Key(b)), salt) {
      FilledInjective(p, q, salt, (0, 0), 0);
    }
  }

  // ---------- What that means for passwords ----------

  lemma TurnAlike(st: State, a: seq<octet>, b: seq<octet>, salt: seq<octet>)
    requires st.Valid() && salt != [] && Stream(a) == Stream(b)
    ensures Turn(st, Key(a), salt) == Turn(st, Key(b), salt)
  {
    hide Blowfish.ExpandedNoSalt;
    hide ToBytes;
    hide Key;
    hide Stream;
    ScheduleExactlyIf(st, [0], a, b);
  }

  lemma {:induction false} StretchedAlike(st: State, a: seq<octet>, b: seq<octet>, salt: seq<octet>, n: nat)
    requires st.Valid() && salt != [] && Stream(a) == Stream(b)
    ensures Stretched(st, Key(a), salt, n) == Stretched(st, Key(b), salt, n)
    decreases n
  {
    hide Turn;
    hide Key;
    hide Stream;
    hide Stretched;
    if n == 0 {
      StretchedDone(st, Key(a), salt);
      StretchedDone(st, Key(b), salt);
    } else {
      TurnAlike(st, a, b, salt);
      StretchedTurn(st, Key(a), salt, n);
      StretchedTurn(st, Key(b), salt, n);
      StretchedAlike(Turn(st, Key(a), salt), a, b, salt, n - 1);
    }
  }

  lemma DigestAlike(init: State, a: seq<octet>, b: seq<octet>, salt: seq<octet>, n: nat)
    requires init.Valid() && salt != [] && Stream(a) == Stream(b)
    ensures Digest(init, a, salt, n) == Digest(init, b, salt, n)
  {
    hide Blowfish.Expanded;
    hide Stretched;
    hide ToBytes;
    hide Key;
    hide Stream;
    hide EncryptedTimes;
    hide PairOctets;
    ScheduleExactlyIf(init, ToBytes(salt), a, b);
    StretchedAlike(Blowfish.Expanded(init, ToBytes(Key(a)), ToBytes(salt)), a, b, salt, Rounds(n));
  }

  /** Passwords with the same stream cannot be told apart, by hashing or by checking, whatever the tables. */
  lemma SameStreamSameHash(init: State, a: seq<octet>, b: seq<octet>, workFactor: int, salt: seq<octet>)
    requires init.Valid() && |salt| == SALT_OCTETS && Stream(a) == Stream(b) && (a == [] <==> b == [])
    ensures Hash(init, a, workFactor, salt) == Hash(init, b, workFactor, salt)
    ensures forall hash, junk | Ascii(hash) && |junk| == SALT_OCTETS ::
      Check(init, a, hash, junk) == Check(init, b, hash, junk)
  {
    hide Digest;
    hide Stream;
    hide Encoded;
    hide Matches;
    hide Parsed;
    hide Check;
    DigestAlike(init, a, b, salt, Clamped(workFactor));
    forall hash, junk | Ascii(hash) && |junk| == SALT_OCTETS
      ensures Check(init, a, hash, junk) == Check(init, b, hash, junk)
    {
      SameStreamSameCheck(init, a, b, hash, junk);
    }
  }

  lemma SameStreamSameCheck(init: State, a: seq<octet>, b: seq<octet>, hash: string, junk: seq<octet>)
    requires init.Valid() && Stream(a) == Stream(b) && (a == [] <==> b == []) && Ascii(hash) && |junk| == SALT_OCTETS
    ensures Check(init, a, hash, junk) == Check(init, b, hash, junk)
  {
    hide Digest;
    hide Stream;
    hide Encoded;
    hide Matches;
    hide SaltOf;
    if Parsed(hash) {
      DigestAlike(init, a, b, SaltOf(hash, junk), WorkFactorOf(hash));
    }
  }

  predicate NoZeros(password: seq<octet>)
  {
    forall i | 0 <= i < |password| :: password[i] != 0
  }

  lemma SmallMod(i: nat, n: nat)
    requires i < n
    ensures i % n == i
  {
  }

  lemma StreamAt(a: seq<octet>, i: nat)
    requires i < STREAM && i <= |a|
    ensures Stream(a)[i] == if i < |a| then a[i] else 0
  {
    assert i < |Key(a)| && Key(a)[i] == (a + [0])[i];
    hide Key;
    SmallMod(i, |Key(a)|);
  }

  /** Without zeros in it, all of a password counts, up to 72 octets; nothing else does. */
  lemma StreamsOfText(a: seq<octet>, b: seq<octet>)
    requires NoZeros(a) && NoZeros(b)
    ensures Stream(a) == Stream(b) <==> a == b || (|a| >= STREAM && |b| >= STREAM && a[..STREAM] == b[..STREAM])
  {
    hide Stream;
    if |a| < STREAM && |a| <= |b| {
      StreamAt(a, |a|);
      StreamAt(b, |a|);
    }
    if |b| < STREAM && |b| <= |a| {
      StreamAt(a, |b|);
      StreamAt(b, |b|);
    }
    forall i | 0 <= i < STREAM && i < |a| && i < |b| ensures Stream(a)[i] == a[i] && Stream(b)[i] == b[i] {
      StreamAt(a, i);
      StreamAt(b, i);
    }
    if |a| >= STREAM && |b| >= STREAM {
      assert Stream(a) == a[..STREAM] && Stream(b) == b[..STREAM];
    }
  }

  /** So longer passwords that share 72 octets have the same hash, zeros or not. */
  lemma LongPasswordsCollide(init: State, a: seq<octet>, b: seq<octet>, workFactor: int, salt: seq<octet>)
    requires init.Valid() && |salt| == SALT_OCTETS && |a| >= STREAM && |b| >= STREAM && a[..STREAM] == b[..STREAM]
    ensures Hash(init, a, workFactor, salt) == Hash(init, b, workFactor, salt)
  {
    hide Hash;
    hide Check;
    hide Stream;
    forall i | 0 <= i < STREAM ensures Stream(a)[i] == Stream(b)[i] {
      StreamAt(a, i);
      StreamAt(b, i);
      assert a[i] == a[..STREAM][i] == b[i];
    }
    SameStreamSameHash(init, a, b, workFactor, salt);
  }

  /** With zeros short passwords are confused as well: the terminator of one is an octet of the other. */
  lemma ShortPasswordsCollide(init: State, p: seq<octet>, workFactor: int, salt: seq<octet>)
    requires init.Valid() && |salt| == SALT_OCTETS && p != []
    ensures p != p + [0] + p
    ensures Hash(init, p, workFactor, salt) == Hash(init, p + [0] + p, workFactor, salt)
  {
    hide Hash;
    hide Check;
    RepeatedStream(p);
    SameStreamSameHash(init, p, p + [0] + p, workFactor, salt);
  }

  lemma RepeatedStream(p: seq<octet>)
    ensures Stream(p) == Stream(p + [0] + p)
  {
    hide Key;
    forall i | 0 <= i < STREAM ensures StreamOctet(p, i) == StreamOctet(p + [0] + p, i) {
      UncutStream(p, i);
      UncutStream(p + [0] + p, i);
      var k := p + [0];
      assert p + [0] + p + [0] == k + k;
      Doubled(k, i);
    }
  }

  /** Cutting the key at 72 octets does not change these. */
  lemma UncutStream(p: seq<octet>, i: nat)
    requires i < STREAM
    ensures StreamOctet(p, i) == (p + [0])[i % |p + [0]|]
  {
    if |p + [0]| > 72 {
      assert Key(p) == (p + [0])[..72];
      SmallMod(i, 72);
      SmallMod(i, |p + [0]|);
    } else {
      assert Key(p) == p + [0];
    }
  }

  lemma Doubled(k: seq<octet>, i: nat)
    requires k != []
    ensures (k + k)[i % |k + k|] == k[i % |k|]
  {
    var n, j := |k|, i % |k + k|;
    ModModDouble(i, n);
    assert j < n ==> (k + k)[j] == k[j] && j % n == j by { if j < n { SmallMod(j, n); } }
    assert j >= n ==> (k + k)[j] == k[j - n] && j % n == j - n by { if j >= n { ModIs(j, n, 1, j - n); } }
  }

  lemma ModModDouble(i: nat, n: nat)
    requires n > 0
    ensures i % (n + n) % n == i % n
  {
    var c, j := i / (n + n), i % (n + n);
    var q, r := j / n, j % n;
    TwoDivisions(n, c, q, r);
    ModIs(i, n, 2 * c + q, r);
  }

  lemma TwoDivisions(n: nat, c: nat, q: nat, r: nat)
    ensures (n + n) * c + (n * q + r) == n * (2 * c + q) + r
  {
  }

  lemma ModIs(i: nat, n: nat, q: nat, r: nat)
    requires r < n && i == n * q + r
    ensures i % n == r
  {
    var p := i / n;
    assert i == n * p + i % n;
    if p < q {
      Multiples(n, p, q);
    } else if q < p {
      Multiples(n, q, p);
    }
  }

  lemma Multiples(n: nat, p: nat, q: nat)
    requires p < q
    ensures n * p + n <= n * q
  {
    assert n * q == n * p + n * (q - p);
    assert n * (q - p) == n + n * (q - p - 1);
  }
}
