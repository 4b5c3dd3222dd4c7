/** The 64-bit FNV-1a hash behind TypeID (draft-eastlake-fnv, section 2).

    A TypeID is a number below two to the 64th and multiplication wraps around.  A `char` is a signed
    byte, so converting it to 64 bits extends its sign.
 */
module TypeHash {

  const MODULUS: nat := 0x1_0000_0000_0000_0000
  const OFFSET: nat := 14695981039346656037
  const PRIME: nat := 1099511628211
  /** The inverse of PRIME modulo MODULUS. */
  const INVERSE: nat := 0xce96_5057_aff6_957b

  type Word = x: nat | x < 0x1_0000_0000_0000_0000
  type Char = c: int | -128 <= c < 128

  function Pow2(n: nat): (p: nat)
    ensures p > 0
  {
    if n == 0 then 1 else 2 * Pow2(n - 1)
  }

  /** Exclusive or of the lowest n bits. */
  function Xor(a: nat, b: nat, n: nat): nat
    decreases n
  {
    if n == 0 then 0 else 2 * Xor(a / 2, b / 2, n - 1) + (a + b) % 2
  }

  lemma Halves(x: nat, bit: nat)
    requires bit < 2
    ensures (2 * x + bit) / 2 == x && (2 * x + bit) % 2 == bit
  {
  }

  lemma HalfBelow(a: nat, n: nat)
    requires n > 0 && a < Pow2(n)
    ensures a / 2 < Pow2(n - 1) && 2 * (a / 2) + a % 2 == a
  {
  }

  lemma BitTwice(a: nat, b: nat, x: nat)
    requires x % 2 == (a + b) % 2
    ensures (x + b) % 2 == a % 2
  {
  }

  lemma BitCancels(a: nat, b: nat, c: nat)
    requires (a + b) % 2 == (a + c) % 2
    ensures b % 2 == c % 2
  {
  }

  /** Exclusive or is undone by doing it again. */
  lemma {:induction false} XorTwice(a: nat, b: nat, n: nat)
    requires a < Pow2(n)
    ensures Xor(a, b, n) < Pow2(n)
    ensures Xor(Xor(a, b, n), b, n) == a
  {
    if n > 0 {
      HalfBelow(a, n);
      XorTwice(a / 2, b / 2, n - 1);
      var x := Xor(a / 2, b / 2, n - 1);
      var bit := (a + b) % 2;
      var y := 2 * x + bit;
      assert Xor(a, b, n) == y;
      Halves(x, bit);
      BitTwice(a, b, y);
      assert Xor(y, b, n) == 2 * Xor(y / 2, b / 2, n - 1) + (y + b) % 2;
    }
  }

  /** Which number was put in shows in the result. */
  lemma {:induction false} XorInjective(a: nat, b: nat, c: nat, n: nat)
    requires b < Pow2(n) && c < Pow2(n) && Xor(a, b, n) == Xor(a, c, n)
    ensures b == c
  {
    if n > 0 {
      HalfBelow(b, n);
      HalfBelow(c, n);
      Halves(Xor(a / 2, b / 2, n - 1), (a + b) % 2);
      Halves(Xor(a / 2, c / 2, n - 1), (a + c) % 2);
      XorInjective(a / 2, b / 2, c / 2, n - 1);
      BitCancels(a, b, c);
    }
  }

  lemma Pow64()
    ensures Pow2(64) == MODULUS
  {
    assert Pow2(8) == 256;
    assert Pow2(16) == 65536;
    assert Pow2(24) == 0x100_0000;
    assert Pow2(32) == 0x1_0000_0000;
    assert Pow2(40) == 0x100_0000_0000;
    assert Pow2(48) == 0x1_0000_0000_0000;
    assert Pow2(56) == 0x100_0000_0000_0000;
  }

  function Widen(c: Char): Word {
    if c >= 0 then c else c + 0x1_0000_0000_0000_0000
  }

  /** `hash ^= c`. */
  function Mix(h: Word, c: Char): Word {
    Pow64();
    XorTwice(h, Widen(c), 64);
    Xor(h, Widen(c), 64)
  }

  /** `hash *= PRIME`. */
  function Multiply(h: Word): Word {
    h * PRIME % MODULUS
  }

  function Divide(h: Word): Word {
    h * INVERSE % MODULUS
  }

  /** Because the multiplier is odd it has an inverse. */
  lemma {:induction false} MultiplyIsUndone(h: Word)
    ensures Divide(Multiply(h)) == h
    ensures Multiply(Divide(h)) == h
  {
    var k := 887285111055;
    assert PRIME * INVERSE == 1 + k * MODULUS;
    var q := h * PRIME / MODULUS;
    Residue(h, h * k - q * INVERSE);
    var p := h * INVERSE / MODULUS;
    Residue(h, h * k - p * PRIME);
  }

  lemma Residue(h: Word, z: int)
    ensures (h + z * MODULUS) % MODULUS == h
  {
  }

  function Turn(h: Word, c: Char): Word {
    Multiply(Mix(h, c))
  }

  function Unturn(h: Word, c: Char): Word {
    Mix(Divide(h), c)
  }

  /** For a fixed character, a turn of the loop is a bijection of the 64-bit states. */
  lemma {:induction false} TurnIsBijective(h: Word, c: Char)
    ensures Unturn(Turn(h, c), c) == h
    ensures Turn(Unturn(h, c), c) == h
  {
    Pow64();
    MultiplyIsUndone(Mix(h, c));
    XorTwice(h, Widen(c), 64);
    MultiplyIsUndone(h);
    XorTwice(Divide(h), Widen(c), 64);
  }

  /** For a fixed state, different characters lead to different states. */
  lemma {:induction false} TurnTellsCharacters(h: Word, c: Char, d: Char)
    requires Turn(h, c) == Turn(h, d)
    ensures c == d
  {
    Pow64();
    MultiplyIsUndone(Mix(h, c));
    MultiplyIsUndone(Mix(h, d));
    XorInjective(h, Widen(c), Widen(d), 64);
  }

  function HashFrom(h: Word, s: seq<Char>): Word
    decreases |s|
  {
    if s == [] then h else HashFrom(Turn(h, s[0]), s[1..])
  }

  method Hash(str: seq<Char>) returns (hash: Word)
    ensures hash == HashFrom(OFFSET, str)
  {
    hide Mix, Multiply;
    hash := OFFSET;
    for i := 0 to |str|
      invariant HashFrom(hash, str[i..]) == HashFrom(OFFSET, str)
    {
      assert str[i..][1..] == str[i + 1..];
      hash := Mix(hash, str[i]);
      hash := Multiply(hash);
    }
    assert str[|str|..] == [];
  }

  lemma {:induction false} HashConcat(h: Word, s: seq<Char>, t: seq<Char>)
    ensures HashFrom(h, s + t) == HashFrom(HashFrom(h, s), t)
    decreases |s|
  {
    hide Turn;
    if s == [] {
      assert s + t == t;
    } else {
      assert (s + t)[1..] == s[1..] + t;
      HashConcat(Turn(h, s[0]), s[1..], t);
    }
  }

  /** Bit i of an exclusive or is set when it is set in one of the two numbers only. */
  lemma XorBits(a: nat, b: nat, n: nat, i: nat)
    requires i < n
    ensures Xor(a, b, n) / Pow2(i) % 2 == (a / Pow2(i) + b / Pow2(i)) % 2
  {
    hide Xor, Bit, Pow2;
    BitIs(Xor(a, b, n), i);
    BitIs(a, i);
    BitIs(b, i);
    BitsOfXor(a, b, n, i);
    SumOfBits(a / Pow2(i), b / Pow2(i));
  }

  lemma SumOfBits(x: nat, y: nat)
    ensures (x + y) % 2 == (x % 2 + y % 2) % 2
  {
  }

  function Bit(a: nat, i: nat): nat
    decreases i
  {
    if i == 0 then a % 2 else Bit(a / 2, i - 1)
  }

  lemma {:induction false} BitIs(a: nat, i: nat)
    ensures Bit(a, i) == a / Pow2(i) % 2
    decreases i
  {
    if i > 0 {
      BitIs(a / 2, i - 1);
      DivideTwice(a, Pow2(i - 1));
    } else {
      assert Pow2(0) == 1;
    }
  }

  lemma {:induction false} BitsOfXor(a: nat, b: nat, n: nat, i: nat)
    requires i < n
    ensures Bit(Xor(a, b, n), i) == (Bit(a, i) + Bit(b, i)) % 2
    decreases n
  {
    Halves(Xor(a / 2, b / 2, n - 1), (a + b) % 2);
    if i > 0 {
      BitsOfXor(a / 2, b / 2, n - 1, i - 1);
    } else {
      SumOfBits(a, b);
    }
  }

  lemma DivideTwice(a: nat, m: nat)
    requires m > 0
    ensures a / (2 * m) == a / 2 / m
  {
    var q := a / 2 / m;
    var r := a / 2 % m;
    assert a == 2 * (q * m + r) + a % 2 == q * (2 * m) + (2 * r + a % 2);
    assert 0 <= 2 * r + a % 2 < 2 * m;
    QuotientIs(a, 2 * m, q, 2 * r + a % 2);
  }

  lemma QuotientIs(a: nat, d: nat, q: nat, r: nat)
    requires r < d && a == q * d + r
    ensures a / d == q
  {
    var q', r' := a / d, a % d;
    assert a == q' * d + r';
    if q' < q {
      NextMultiple(q', q, d);
      assert false;
    } else if q < q' {
      NextMultiple(q, q', d);
      assert false;
    }
  }

  lemma NextMultiple(a: nat, b: nat, d: nat)
    requires a < b
    ensures a * d + d <= b * d
  {
    assert b * d == (a + 1) * d + (b - a - 1) * d;
  }

  /** The empty string has the offset of the algorithm as its hash; one more character, as a sign-extended
      byte, is put in by exclusive or before the multiplication by the prime. */
  lemma {:induction false} HashOneMore(s: seq<Char>, c: Char)
    ensures HashFrom(OFFSET, []) == 0xcbf2_9ce4_8422_2325
    ensures HashFrom(OFFSET, s + [c]) ==
            Xor(HashFrom(OFFSET, s), if c < 0 then 0x1_0000_0000_0000_0000 + c else c, 64)
              * 0x100_0000_01b3 % 0x1_0000_0000_0000_0000
  {
    hide Xor;
    HashConcat(OFFSET, s, [c]);
    assert [c][1..] == [];
    assert HashFrom(HashFrom(OFFSET, s), [c]) == Turn(HashFrom(OFFSET, s), c);
  }

  /** A common suffix neither creates nor removes a collision. */
  lemma {:induction false} SuffixKeepsCollisions(g: Word, h: Word, s: seq<Char>)
    ensures HashFrom(g, s) == HashFrom(h, s) <==> g == h
    decreases |s|
  {
    hide Turn, Unturn;
    if s != [] {
      SuffixKeepsCollisions(Turn(g, s[0]), Turn(h, s[0]), s[1..]);
      TurnIsBijective(g, s[0]);
      TurnIsBijective(h, s[0]);
    }
  }

  /** Strings that differ in exactly one character have different hashes. */
  lemma {:induction false} OneCharacterTells(a: seq<Char>, b: seq<Char>, i: nat)
    requires |a| == |b| && i < |a| && a[i] != b[i]
    requires forall k :: 0 <= k < |a| && k != i ==> a[k] == b[k]
    ensures HashFrom(OFFSET, a) != HashFrom(OFFSET, b)
  {
    hide Turn, HashFrom;
    var p, s := a[..i], a[i + 1..];
    assert a == p + ([a[i]] + s) && b == p + ([b[i]] + s);
    HashConcat(OFFSET, p, [a[i]] + s);
    HashConcat(OFFSET, p, [b[i]] + s);
    var h := HashFrom(OFFSET, p);
    OneTurn(h, a[i], s);
    OneTurn(h, b[i], s);
    SuffixKeepsCollisions(Turn(h, a[i]), Turn(h, b[i]), s);
    if Turn(h, a[i]) == Turn(h, b[i]) {
      TurnTellsCharacters(h, a[i], b[i]);
    }
  }

  lemma OneTurn(h: Word, c: Char, s: seq<Char>)
    ensures HashFrom(h, [c] + s) == HashFrom(Turn(h, c), s)
  {
    assert ([c] + s)[1..] == s;
  }

  /** The state before a string can be computed back from the state behind it. */
  function Rewind(h: Word, s: seq<Char>): Word
    decreases |s|
  {
    if s == [] then h else Unturn(Rewind(h, s[1..]), s[0])
  }

  lemma {:induction false} RewindUndoesHash(h: Word, s: seq<Char>)
    ensures Rewind(HashFrom(h, s), s) == h
    ensures HashFrom(Rewind(h, s), s) == h
    decreases |s|
  {
    hide Turn, Unturn;
    if s != [] {
      RewindUndoesHash(Turn(h, s[0]), s[1..]);
      TurnIsBijective(h, s[0]);
      RewindUndoesHash(h, s[1..]);
      TurnIsBijective(Rewind(h, s[1..]), s[0]);
    }
  }
}
