/**
 The Blowfish cipher and the two key schedules of bcrypt (Provos and Mazieres, 1999), over arbitrary
 tables. The two-rounds-a-turn loop is the textbook network, reversing the subkeys inverts it, and
 the schedule without salt is the salted one with a salt of zeros.

 The operations on words have names, so that the proofs can hide them from the solver.
 */
module Blowfish {
  import opened Octets

  type Half = bv32

  const SUBKEYS: nat := 18
  const BOXES: nat := 1024  // four boxes of 256 words, one after the other
  const WORDS: nat := 1042

  datatype State = State(P: seq<Half>, S: seq<Half>)
  {
    predicate Valid()
    {
      |P| == SUBKEYS && |S| == BOXES
    }
  }

  function Xor(a: Half, b: Half): Half { a ^ b }

  lemma XorCancel(a: Half, b: Half)
    ensures Xor(Xor(a, b), b) == a
  {
  }

  lemma XorZero(a: Half)
    ensures Xor(a, 0) == a
  {
  }

  lemma XorAssociative(a: Half, b: Half, c: Half)
    ensures Xor(Xor(a, b), c) == Xor(a, Xor(b, c))
  {
  }

  lemma XorCommutes(a: Half, b: Half)
    ensures Xor(a, b) == Xor(b, a)
  {
  }

  lemma XorSwap(a: Half, b: Half, c: Half)
    ensures Xor(Xor(a, b), c) == Xor(Xor(a, c), b)
  {
    hide Xor;
    XorAssociative(a, b, c);
    XorCommutes(b, c);
    XorAssociative(a, c, b);
  }

  // ---------- The cipher ----------

  function Octet(x: Half, shift: nat): nat
    requires shift <= 24
    ensures Octet(x, shift) < 256
  {
    ((x >> shift) & 0xFF) as bv8 as nat
  }

  function Add(a: Half, b: Half): Half { a + b }

  function F(S: seq<Half>, x: Half): Half
    requires |S| == BOXES
  {
    Add(Xor(Add(S[Octet(x, 24)], S[256 + Octet(x, 16)]), S[512 + Octet(x, 8)]), S[768 + Octet(x, 0)])
  }

  /** One textbook round: add a subkey on the left, the round function on the right, and swap. */
  function Round(S: seq<Half>, k: Half, x: (Half, Half)): (Half, Half)
    requires |S| == BOXES
  {
    var l := Xor(x.0, k);
    (Xor(x.1, F(S, l)), l)
  }

  function Rounds(S: seq<Half>, P: seq<Half>, x: (Half, Half), n: nat): (Half, Half)
    requires |S| == BOXES && n <= |P|
  {
    if n == 0 then x else Round(S, P[n - 1], Rounds(S, P, x, n - 1))
  }

  /** Sixteen rounds, the last swap undone, and the two last subkeys. */
  function Encrypted(st: State, x: (Half, Half)): (Half, Half)
    requires st.Valid()
  {
    var (r, l) := Rounds(st.S, st.P, x, 16);
    (Xor(l, st.P[17]), Xor(r, st.P[16]))
  }

  function Reversed(st: State): State
    requires st.Valid()
    ensures Reversed(st).Valid()
  {
    State(seq(SUBKEYS, i requires 0 <= i < SUBKEYS => st.P[SUBKEYS - 1 - i]), st.S)
  }

  /** Where decryption stands when i rounds are still to be undone. */
  function Undoing(st: State, x: (Half, Half), i: nat): (Half, Half)
    requires st.Valid() && i <= 16
  {
    var (l, r) := Rounds(st.S, st.P, x, i);
    (Xor(Xor(l, st.P[i]), F(st.S, r)), r)
  }

  lemma UndoRound(st: State, x: (Half, Half), i: nat)
    requires st.Valid() && 1 <= i <= 16
    ensures Round(st.S, st.P[i], Undoing(st, x, i)) == Undoing(st, x, i - 1)
  {
    hide Xor;
    hide F;
    var (l, r) := Rounds(st.S, st.P, x, i);
    var (l0, r0) := Rounds(st.S, st.P, x, i - 1);
    assert r == Xor(l0, st.P[i - 1]) && l == Xor(r0, F(st.S, r));
    XorSwap(Xor(l, st.P[i]), F(st.S, r), st.P[i]);
    XorCancel(l, st.P[i]);
    XorCancel(r0, F(st.S, r));
  }

  lemma {:induction false} UndoRounds(st: State, x: (Half, Half), j: nat)
    requires st.Valid() && 1 <= j <= 16
    ensures Rounds(st.S, Reversed(st).P, Encrypted(st, x), j) == Undoing(st, x, 17 - j)
  {
    hide Xor;
    hide F;
    var y := Encrypted(st, x);
    var (l, r) := Rounds(st.S, st.P, x, 16);
    if j == 1 {
      XorCancel(r, st.P[17]);
      assert Rounds(st.S, Reversed(st).P, y, 0) == y;
    } else {
      UndoRounds(st, x, j - 1);
      UndoRound(st, x, 18 - j);
    }
  }

  /** The cipher with the subkeys in reverse order undoes the cipher. */
  lemma DecryptEncrypt(st: State, x: (Half, Half))
    requires st.Valid()
    ensures Encrypted(Reversed(st), Encrypted(st, x)) == x
  {
    hide Xor;
    hide F;
    UndoRounds(st, x, 16);
    var (l, r) := Rounds(st.S, st.P, x, 1);
    assert Rounds(st.S, st.P, x, 0) == x;
    assert r == Xor(x.0, st.P[0]) && l == Xor(x.1, F(st.S, r));
    XorCancel(x.0, st.P[0]);
    XorSwap(Xor(l, st.P[1]), F(st.S, r), st.P[1]);
    XorCancel(l, st.P[1]);
    XorCancel(x.1, F(st.S, r));
  }

  /** So the cipher is a bijection on pairs of words. */
  lemma Bijection(st: State, x: (Half, Half), y: (Half, Half))
    requires st.Valid()
    ensures Encrypted(st, x) == y <==> x == Encrypted(Reversed(st), y)
  {
    hide Encrypted;
    DecryptEncrypt(st, x);
    DecryptEncrypt(Reversed(st), y);
    assert Reversed(Reversed(st)) == st by {
      assert Reversed(Reversed(st)).P == st.P;
    }
  }

  // ---------- Byte streams ----------

  function Byte(data: seq<byte>, i: nat): byte
    requires data != []
  {
    data[i % |data|]
  }

  function Append(w: Half, b: byte): Half { (w << 8) | (b as bv32) }

  /** Four octets as one word, the first one highest. */
  function WordOf(b0: byte, b1: byte, b2: byte, b3: byte): Half
  {
    Append(Append(Append(Append(0, b0), b1), b2), b3)
  }

  lemma WordOctetsBack(b0: byte, b1: byte, b2: byte, b3: byte)
    ensures var w := WordOf(b0, b1, b2, b3);
      && ((w >> 24) & 0xFF) as byte == b0 && ((w >> 16) & 0xFF) as byte == b1
      && ((w >> 8) & 0xFF) as byte == b2 && (w & 0xFF) as byte == b3
  {
  }

  /** The k-th big-endian word of the data repeated without end. */
  function Word(data: seq<byte>, k: nat): Half
    requires data != []
  {
    WordOf(Byte(data, 4 * k), Byte(data, 4 * k + 1), Byte(data, 4 * k + 2), Byte(data, 4 * k + 3))
  }

  /** The round function on the four octets of a word: one lookup in each box. */
  lemma RoundFunctionIs(S: seq<Half>, b0: byte, b1: byte, b2: byte, b3: byte)
    requires |S| == 4 * 256
    ensures F(S, WordOf(b0, b1, b2, b3))
         == Add(Xor(Add(S[b0 as nat], S[256 + b1 as nat]), S[512 + b2 as nat]), S[768 + b3 as nat])
  {
    hide WordOf;
    hide Octet;
    hide Add;
    hide Xor;
    OctetsAre(b0, b1, b2, b3);
  }

  /** The sum, which wraps around. */
  lemma AddIs(a: Half, b: Half)
    ensures Add(a, b) == b + a && Add(0xFFFF_FFFF, 2) == 1
  {
  }

  lemma OctetsAre(b0: byte, b1: byte, b2: byte, b3: byte)
    ensures var x := WordOf(b0, b1, b2, b3);
      Octet(x, 24) == b0 as nat && Octet(x, 16) == b1 as nat && Octet(x, 8) == b2 as nat && Octet(x, 0) == b3 as nat
  {
    hide WordOf;
    WordOctetsBack(b0, b1, b2, b3);
  }

  /** A sum without carries, as against the wrapping one. */
  lemma XorIs(a: Half, b: Half)
    ensures Xor(a, b) == (a | b) - (a & b)
  {
  }

  method StreamWord(data: seq<byte>, idx: nat, ghost k: nat) returns (w: Half, next: nat)
    requires data != [] && idx == 4 * k
    ensures w == Word(data, k) && next == 4 * (k + 1)
  {
    hide Append;
    w, next := 0, idx;
    var i := 0;
    ghost var done := [0, Append(0, Byte(data, idx)), Append(Append(0, Byte(data, idx)), Byte(data, idx + 1)),
                       Append(Append(Append(0, Byte(data, idx)), Byte(data, idx + 1)), Byte(data, idx + 2)), Word(data, k)];
    while i < 4
      invariant i <= 4 && next == idx + i && w == done[i]
    {
      w := Append(w, data[next % |data|]);
      next := next + 1;
      i := i + 1;
    }
  }

  // ---------- Key schedules ----------

  function Mixed(st: State, key: seq<byte>): (r: State)
    requires st.Valid() && key != []
    ensures r.Valid()
  {
    st.(P := seq(SUBKEYS, i requires 0 <= i < SUBKEYS => Xor(st.P[i], Word(key, i))))
  }

  /** The k-th pair of words, subkeys first, then the boxes. */
  function Store(st: State, k: nat, x: (Half, Half)): (r: State)
    requires st.Valid() && 2 * k + 1 < WORDS
    ensures r.Valid()
  {
    if k < 9 then st.(P := st.P[2 * k := x.0][2 * k + 1 := x.1])
    else st.(S := st.S[2 * k - 18 := x.0][2 * k - 17 := x.1])
  }

  /** The 18 subkeys and the 1024 words of the boxes, one after the other, are refilled in order. */
  lemma StoreInOrder(st: State, k: nat, x: (Half, Half))
    requires st.Valid() && 2 * k + 1 < WORDS
    ensures var r := Store(st, k, x); r.P + r.S == (st.P + st.S)[2 * k := x.0][2 * k + 1 := x.1]
  {
    if k < 9 {
      assert (st.P + st.S)[2 * k := x.0] == st.P[2 * k := x.0] + st.S;
    } else {
      assert (st.P + st.S)[2 * k := x.0] == st.P + st.S[2 * k - 18 := x.0];
    }
  }

  /** Refills all words from the k-th pair on, each pair encrypted from the one before. */
  function Filled(st: State, salt: seq<byte>, x: (Half, Half), k: nat): (r: State)
    requires st.Valid() && salt != [] && 2 * k <= WORDS
    ensures r.Valid()
    decreases WORDS - 2 * k
  {
    if 2 * k == WORDS then st
    else
      var y := Encrypted(st, (Xor(x.0, Word(salt, 2 * k)), Xor(x.1, Word(salt, 2 * k + 1))));
      Filled(Store(st, k, y), salt, y, k + 1)
  }

  function FilledNoSalt(st: State, x: (Half, Half), k: nat): (r: State)
    requires st.Valid() && 2 * k <= WORDS
    ensures r.Valid()
    decreases WORDS - 2 * k
  {
    if 2 * k == WORDS then st
    else
      var y := Encrypted(st, x);
      FilledNoSalt(Store(st, k, y), y, k + 1)
  }

  function Expanded(st: State, key: seq<byte>, salt: seq<byte>): (r: State)
    requires st.Valid() && key != [] && salt != []
    ensures r.Valid()
  {
    Filled(Mixed(st, key), salt, (0, 0), 0)
  }

  function ExpandedNoSalt(st: State, key: seq<byte>): (r: State)
    requires st.Valid() && key != []
    ensures r.Valid()
  {
    FilledNoSalt(Mixed(st, key), (0, 0), 0)
  }

  predicate AllZero(salt: seq<byte>)
  {
    salt != [] && forall i | 0 <= i < |salt| :: salt[i] == 0
  }

  lemma ZeroWord(salt: seq<byte>, k: nat)
    requires AllZero(salt)
    ensures Word(salt, k) == 0
  {
    AppendZero();
    assert Byte(salt, 4 * k) == 0 && Byte(salt, 4 * k + 1) == 0 && Byte(salt, 4 * k + 2) == 0 && Byte(salt, 4 * k + 3) == 0;
  }

  lemma AppendZero()
    ensures Append(0, 0) == 0
  {
  }

  lemma {:induction false} FilledZeroSalt(st: State, salt: seq<byte>, x: (Half, Half), k: nat)
    requires st.Valid() && AllZero(salt) && 2 * k <= WORDS
    ensures Filled(st, salt, x, k) == FilledNoSalt(st, x, k)
    decreases WORDS - 2 * k
  {
    hide Xor;
    hide Word;
    hide Encrypted;
    hide Store;
    if 2 * k < WORDS {
      ZeroWord(salt, 2 * k);
      ZeroWord(salt, 2 * k + 1);
      XorZero(x.0);
      XorZero(x.1);
      var y := Encrypted(st, x);
      FilledZeroSalt(Store(st, k, y), salt, y, k + 1);
    }
  }

  /** The schedule without salt is the salted schedule with a salt of zeros, of any length. */
  lemma NoSaltIsZeroSalt(st: State, key: seq<byte>, salt: seq<byte>)
    requires st.Valid() && key != [] && AllZero(salt)
    ensures ExpandedNoSalt(st, key) == Expanded(st, key, salt)
  {
    FilledZeroSalt(Mixed(st, key), salt, (0, 0), 0);
  }

  // ---------- In place ----------

  class BfState {
    const P: array<Half>
    const S: array<Half>

    ghost predicate Valid()
    {
      P.Length == SUBKEYS && S.Length == BOXES && P != S
    }

    ghost function View(): (st: State)
      requires Valid()
      reads P, S
      ensures st.Valid()
    {
      State(P[..], S[..])
    }

    constructor (init: State)
      requires init.Valid()
      ensures Valid() && View() == init && fresh(P) && fresh(S)
    {
      P := new Half[SUBKEYS](i requires 0 <= i < SUBKEYS => init.P[i]);
      S := new Half[BOXES](i requires 0 <= i < BOXES => init.S[i]);
      new;
      assert P[..] == init.P && S[..] == init.S;
    }

    method Encrypt(l0: Half, r0: Half) returns (l: Half, r: Half)
      requires Valid()
      ensures (l, r) == Encrypted(View(), (l0, r0))
    {
      hide Xor;
      hide F;
      l, r := l0, r0;
      var i := 0;
      ghost var st := View();
      while i < 16
        invariant 0 <= i <= 16 && i % 2 == 0 && (l, r) == Rounds(st.S, st.P, (l0, r0), i)
      {
        assert Rounds(st.S, st.P, (l0, r0), i + 2)
            == Round(st.S, st.P[i + 1], Round(st.S, st.P[i], Rounds(st.S, st.P, (l0, r0), i)));
        l := Xor(l, P[i]);
        r := Xor(r, F(S[..], l));
        r := Xor(r, P[i + 1]);
        l := Xor(l, F(S[..], r));
        i := i + 2;
      }
      l := Xor(l, P[16]);
      r := Xor(r, P[17]);
      l, r := r, l;
    }

    method MixKey(key: seq<byte>)
      requires Valid() && key != []
      modifies P
      ensures View() == Mixed(old(View()), key)
    {
      hide Word;
      hide Xor;
      var idx := 0;
      for i := 0 to 18
        invariant idx == 4 * i
        invariant forall k | 0 <= k < i :: P[k] == Xor(old(P[k]), Word(key, k))
        invariant forall k | i <= k < 18 :: P[k] == old(P[k])
      {
        var w;
        w, idx := StreamWord(key, idx, i);
        P[i] := Xor(P[i], w);
      }
      assert P[..] == Mixed(old(View()), key).P;
      assert S[..] == old(S[..]);
    }

    method StorePair(ghost k: nat, inBoxes: bool, at: nat, l: Half, r: Half)
      requires Valid() && 2 * k + 1 < WORDS && inBoxes == (k >= 9) && at == if inBoxes then 2 * k - 18 else 2 * k
      modifies P, S
      ensures View() == Store(old(View()), k, (l, r))
    {
      ghost var st := View();
      if inBoxes {
        S[at] := l;
        S[at + 1] := r;
        assert S[..] == st.S[at := l][at + 1 := r] && P[..] == st.P;
      } else {
        P[at] := l;
        P[at + 1] := r;
        assert P[..] == st.P[at := l][at + 1 := r] && S[..] == st.S;
      }
    }

    /** One turn of the salted loops. */
    method SaltedTurn(ghost k: nat, inBoxes: bool, at: nat, salt: seq<byte>, l0: Half, r0: Half, idx: nat)
      returns (l: Half, r: Half, next: nat)
      requires Valid() && 2 * k + 1 < WORDS && inBoxes == (k >= 9) && at == if inBoxes then 2 * k - 18 else 2 * k
      requires salt != [] && idx == 8 * k
      modifies P, S
      ensures next == 8 * (k + 1)
      ensures Filled(View(), salt, (l, r), k + 1) == Filled(old(View()), salt, (l0, r0), k)
    {
      hide Word;
      hide Xor;
      hide Encrypted;
      hide Store;
      var w;
      l, r, next := l0, r0, idx;
      w, next := StreamWord(salt, next, 2 * k);
      l := Xor(l, w);
      w, next := StreamWord(salt, next, 2 * k + 1);
      r := Xor(r, w);
      l, r := Encrypt(l, r);
      StorePair(k, inBoxes, at, l, r);
    }

    method ExpandKey(key: seq<byte>, salt: seq<byte>)
      requires Valid() && key != [] && salt != []
      modifies P, S
      ensures View() == Expanded(old(View()), key, salt)
    {
      hide Filled;
      hide Mixed;
      var l: Half, r: Half := 0, 0;
      var saltIdx := 0;
      MixKey(key);
      ghost var mixed := View();
      var i := 0;
      while i < 18
        invariant i <= 18 && i % 2 == 0 && saltIdx == 4 * i
        invariant Filled(View(), salt, (l, r), i / 2) == Filled(mixed, salt, (0, 0), 0)
      {
        l, r, saltIdx := SaltedTurn(i / 2, false, i, salt, l, r, saltIdx);
        i := i + 2;
      }
      i := 0;
      while i < 4
        invariant i <= 4 && saltIdx == 72 + 1024 * i
        invariant Filled(View(), salt, (l, r), 9 + 128 * i) == Filled(mixed, salt, (0, 0), 0)
      {
        var j := 0;
        while j < 256
          invariant j <= 256 && j % 2 == 0 && saltIdx == 72 + 1024 * i + 4 * j
          invariant Filled(View(), salt, (l, r), 9 + 128 * i + j / 2) == Filled(mixed, salt, (0, 0), 0)
        {
          l, r, saltIdx := SaltedTurn(9 + 128 * i + j / 2, true, 256 * i + j, salt, l, r, saltIdx);
          j := j + 2;
        }
        i := i + 1;
      }
      FilledAll(View(), salt, (l, r));
    }

    method ExpandKeyNoSalt(key: seq<byte>)
      requires Valid() && key != []
      modifies P, S
      ensures View() == ExpandedNoSalt(old(View()), key)
    {
      hide FilledNoSalt;
      hide Mixed;
      hide Encrypted;
      hide Store;
      var l: Half, r: Half := 0, 0;
      MixKey(key);
      ghost var mixed := View();
      var i := 0;
      while i < 18
        invariant i <= 18 && i % 2 == 0
        invariant FilledNoSalt(View(), (l, r), i / 2) == FilledNoSalt(mixed, (0, 0), 0)
      {
        FilledNoSaltNext(View(), (l, r), i / 2);
        l, r := Encrypt(l, r);
        StorePair(i / 2, false, i, l, r);
        i := i + 2;
      }
      i := 0;
      while i < 4
        invariant i <= 4
        invariant FilledNoSalt(View(), (l, r), 9 + 128 * i) == FilledNoSalt(mixed, (0, 0), 0)
      {
        var j := 0;
        while j < 256
          invariant j <= 256 && j % 2 == 0
          invariant FilledNoSalt(View(), (l, r), 9 + 128 * i + j / 2) == FilledNoSalt(mixed, (0, 0), 0)
        {
          FilledNoSaltNext(View(), (l, r), 9 + 128 * i + j / 2);
          l, r := Encrypt(l, r);
          StorePair(9 + 128 * i + j / 2, true, 256 * i + j, l, r);
          j := j + 2;
        }
        i := i + 1;
      }
      FilledNoSaltAll(View(), (l, r));
    }
  }

  lemma FilledAll(st: State, salt: seq<byte>, x: (Half, Half))
    requires st.Valid() && salt != []
    ensures Filled(st, salt, x, 521) == st
  {
  }

  lemma FilledNoSaltNext(st: State, x: (Half, Half), k: nat)
    requires st.Valid() && 2 * k + 1 < WORDS
    ensures FilledNoSalt(st, x, k) == FilledNoSalt(Store(st, k, Encrypted(st, x)), Encrypted(st, x), k + 1)
  {
  }

  lemma FilledNoSaltAll(st: State, x: (Half, Half))
    requires st.Valid()
    ensures FilledNoSalt(st, x, 521) == st
  {
  }
}
