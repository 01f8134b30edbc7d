/** Bitwise operations on unsigned words, by their binary digits.

    The repository uses a u128 as a set of 128 flags.  A word is a natural number, and
    shifts, masks and truncation are defined digit by digit; each operation comes with
    the lemma that says which flags it sets. */
module Bits {
  function Pow2(n: nat): (p: nat)
    ensures p > 0
  {
    if n == 0 then 1 else 2 * Pow2(n - 1)
  }

  predicate Bit(w: nat, i: nat) {
    if i == 0 then w % 2 == 1 else Bit(w / 2, i - 1)
  }

  /** The low n digits: what a register n bits wide keeps. */
  function Truncate(w: nat, n: nat): nat {
    if n == 0 then 0 else w % 2 + 2 * Truncate(w / 2, n - 1)
  }

  function ShiftLeft(w: nat, k: nat): nat {
    if k == 0 then w else 2 * ShiftLeft(w, k - 1)
  }

  function ShiftRight(w: nat, k: nat): nat {
    if k == 0 then w else ShiftRight(w / 2, k - 1)
  }

  function Or(a: nat, b: nat): nat
    decreases a + b
  {
    if a == 0 && b == 0 then 0
    else (if a % 2 == 1 || b % 2 == 1 then 1 else 0) + 2 * Or(a / 2, b / 2)
  }

  function And(a: nat, b: nat): nat
    decreases a + b
  {
    if a == 0 || b == 0 then 0
    else (if a % 2 == 1 && b % 2 == 1 then 1 else 0) + 2 * And(a / 2, b / 2)
  }

  function Xor(a: nat, b: nat): nat
    decreases a + b
  {
    if a == 0 && b == 0 then 0
    else (if a % 2 != b % 2 then 1 else 0) + 2 * Xor(a / 2, b / 2)
  }

  lemma {:induction false} BitOfZero(i: nat)
    ensures !Bit(0, i)
  {
    if i > 0 { BitOfZero(i - 1); }
  }

  lemma {:induction false} BitOfTruncate(w: nat, n: nat, i: nat)
    ensures Bit(Truncate(w, n), i) <==> i < n && Bit(w, i)
  {
    if n == 0 {
      BitOfZero(i);
    } else {
      assert Truncate(w, n) / 2 == Truncate(w / 2, n - 1);
      if i > 0 { BitOfTruncate(w / 2, n - 1, i - 1); }
    }
  }

  lemma {:induction false} TruncateFits(w: nat, n: nat)
    ensures Truncate(w, n) < Pow2(n)
  {
    if n > 0 { TruncateFits(w / 2, n - 1); }
  }

  lemma {:induction false} TruncateIdentity(w: nat, n: nat)
    requires w < Pow2(n)
    ensures Truncate(w, n) == w
  {
    if n > 0 { TruncateIdentity(w / 2, n - 1); }
  }

  lemma {:induction false} BitOfShiftLeft(w: nat, k: nat, i: nat)
    ensures Bit(ShiftLeft(w, k), i) <==> i >= k && Bit(w, i - k)
  {
    if k > 0 {
      assert ShiftLeft(w, k) / 2 == ShiftLeft(w, k - 1);
      if i > 0 { BitOfShiftLeft(w, k - 1, i - 1); }
    }
  }

  lemma {:induction false} BitOfShiftRight(w: nat, k: nat, i: nat)
    ensures Bit(ShiftRight(w, k), i) <==> Bit(w, i + k)
  {
    if k > 0 { BitOfShiftRight(w / 2, k - 1, i); }
  }

  lemma OrStep(a: nat, b: nat)
    ensures Or(a, b) % 2 == (if a % 2 == 1 || b % 2 == 1 then 1 else 0)
    ensures Or(a, b) / 2 == Or(a / 2, b / 2)
  {
  }

  lemma {:induction false} BitOfOr(a: nat, b: nat, i: nat)
    ensures Bit(Or(a, b), i) <==> Bit(a, i) || Bit(b, i)
    decreases i
  {
    OrStep(a, b);
    if i > 0 { BitOfOr(a / 2, b / 2, i - 1); }
  }

  lemma {:induction false} OrFits(a: nat, b: nat, n: nat)
    requires a < Pow2(n) && b < Pow2(n)
    ensures Or(a, b) < Pow2(n)
  {
    if n > 0 { OrFits(a / 2, b / 2, n - 1); }
  }

  /** A mask `1 << k` holds the single flag k. */
  lemma BitOfMask(k: nat, i: nat)
    ensures Bit(ShiftLeft(1, k), i) <==> i == k
  {
    BitOfShiftLeft(1, k, i);
    if i > k { BitOfZero(i - k - 1); }
  }

  lemma {:induction false} MaskFits(k: nat, n: nat)
    requires k < n
    ensures ShiftLeft(1, k) < Pow2(n)
  {
    if k > 0 { MaskFits(k - 1, n - 1); }
  }

  /** Testing a word against a one-flag mask reads that flag. */
  lemma {:induction false} MaskTest(w: nat, k: nat)
    ensures And(w, ShiftLeft(1, k)) != 0 <==> Bit(w, k)
  {
    if k == 0 {
      if w != 0 { assert And(w, 1) == (if w % 2 == 1 then 1 else 0) + 2 * And(w / 2, 0); }
    } else {
      var m := ShiftLeft(1, k);
      assert m / 2 == ShiftLeft(1, k - 1) && m % 2 == 0;
      MaskTest(w / 2, k - 1);
      if w == 0 { BitOfZero(k); }
    }
  }

  /** `(w >> k) & 1` reads flag k. */
  lemma ShiftTest(w: nat, k: nat)
    ensures And(ShiftRight(w, k), 1) == 0 <==> !Bit(w, k)
  {
    BitOfShiftRight(w, k, 0);
    MaskTest(ShiftRight(w, k), 0);
  }

  lemma {:induction false} OrZero(a: nat)
    ensures Or(a, 0) == a
  {
    if a > 0 { OrZero(a / 2); }
  }

  /** Setting a flag that is clear adds its weight. */
  lemma {:induction false} OrClearFlag(a: nat, k: nat)
    requires !Bit(a, k)
    ensures Or(a, ShiftLeft(1, k)) == a + Pow2(k)
  {
    if k == 0 {
      OrZero(a / 2);
    } else {
      assert ShiftLeft(1, k) / 2 == ShiftLeft(1, k - 1) && ShiftLeft(1, k) % 2 == 0;
      OrClearFlag(a / 2, k - 1);
    }
  }

  /** A mask of n ones keeps the low n digits. */
  lemma {:induction false} AndOnes(w: nat, n: nat)
    ensures And(w, Pow2(n) - 1) == Truncate(w, n)
  {
    if n > 0 {
      AndOnes(w / 2, n - 1);
      if w == 0 { TruncateIdentity(0, n); }
    }
  }

  lemma MultipleOf(d: int, m: int)
    requires m > 0
    ensures d >= 1 ==> d * m >= m
    ensures d <= -1 ==> d * m <= -m
  {
  }

  lemma Division(x: int, m: int, q: int, r: int)
    requires 0 <= r < m && x == q * m + r
    ensures x / m == q && x % m == r
  {
    var d := x / m - q;
    assert x == (x / m) * m + x % m;
    assert d * m == r - x % m;
    MultipleOf(d, m);
  }

  lemma HalfDivision(w: nat, p: nat)
    requires p > 0
    ensures w / (2 * p) == (w / 2) / p
    ensures w % (2 * p) == 2 * ((w / 2) % p) + w % 2
  {
    var q, r := (w / 2) / p, (w / 2) % p;
    assert w / 2 == q * p + r;
    assert q * (2 * p) == 2 * (q * p);
    Division(w, 2 * p, q, 2 * r + w % 2);
  }

  /** Digits and arithmetic agree: truncation is the remainder, and flag k is the parity of
      the quotient. */
  lemma {:induction false} DigitsAreArithmetic(w: nat, n: nat)
    ensures Truncate(w, n) == w % Pow2(n)
    ensures Bit(w, n) <==> (w / Pow2(n)) % 2 == 1
  {
    if n > 0 {
      DigitsAreArithmetic(w / 2, n - 1);
      HalfDivision(w, Pow2(n - 1));
    }
  }

  lemma {:induction false} XorZero(a: nat)
    ensures Xor(a, 0) == a && Xor(0, a) == a
  {
    if a > 0 { XorZero(a / 2); }
  }

  lemma {:induction false} XorAssociative(a: nat, b: nat, c: nat)
    ensures Xor(Xor(a, b), c) == Xor(a, Xor(b, c))
    decreases a + b + c
  {
    if a == 0 && b == 0 {
      XorZero(c);
    } else if b == 0 && c == 0 {
      XorZero(a);
    } else {
      XorAssociative(a / 2, b / 2, c / 2);
      XorStep(a, b);
      XorStep(b, c);
      XorStep(Xor(a, b), c);
      XorStep(a, Xor(b, c));
    }
  }

  lemma XorStep(a: nat, b: nat)
    ensures Xor(a, b) % 2 == (if a % 2 != b % 2 then 1 else 0)
    ensures Xor(a, b) / 2 == Xor(a / 2, b / 2)
  {
  }

  lemma {:induction false} XorCancelsLeft(a: nat, b: nat, c: nat)
    requires b != c
    ensures Xor(a, b) != Xor(a, c)
    decreases a + b + c
  {
    XorStep(a, b);
    XorStep(a, c);
    if b % 2 == c % 2 {
      XorCancelsLeft(a / 2, b / 2, c / 2);
    }
  }

  lemma {:induction false} XorCommutes(a: nat, b: nat)
    ensures Xor(a, b) == Xor(b, a)
    decreases a + b
  {
    if a != 0 || b != 0 { XorCommutes(a / 2, b / 2); }
  }

  lemma XorCancelsRight(a: nat, b: nat, c: nat)
    requires a != b
    ensures Xor(a, c) != Xor(b, c)
  {
    XorCommutes(a, c);
    XorCommutes(b, c);
    XorCancelsLeft(c, a, b);
  }

  lemma {:induction false} XorFits(a: nat, b: nat, n: nat)
    requires a < Pow2(n) && b < Pow2(n)
    ensures Xor(a, b) < Pow2(n)
  {
    if n > 0 { XorFits(a / 2, b / 2, n - 1); }
  }

  lemma {:induction false} Pow2Monotone(m: nat, n: nat)
    requires m <= n
    ensures Pow2(m) <= Pow2(n)
  {
    if m > 0 { Pow2Monotone(m - 1, n - 1); }
  }

  lemma {:induction false} Pow2Add(m: nat, n: nat)
    ensures Pow2(m + n) == Pow2(m) * Pow2(n)
  {
    if m > 0 { Pow2Add(m - 1, n); }
  }
}
