/** Machine words of the session protocol and their serial-number order.

    A u32 on the wire stands for infinitely many message numbers.  `Nearest` picks the
    one within half the number space of a reference; section 3.2 of RFC 1982 with
    SERIAL_BITS = 32 compares words exactly that way. */
module Words {
  const TWO32 := 0x1_0000_0000
  const HALF32 := 0x8000_0000
  const TWO64 := 0x1_0000_0000_0000_0000

  type byte = x: int | 0 <= x < 0x100
  type u8 = byte
  type u16 = x: int | 0 <= x < 0x1_0000
  type u32 = x: int | 0 <= x < 0x1_0000_0000
  type u64 = x: int | 0 <= x < 0x1_0000_0000_0000_0000

  function Min(a: nat, b: nat): nat {
    if a < b then a else b
  }

  /** The word that carries message number n. */
  function Wrap(n: int): u32 {
    n % TWO32
  }

  function WrappingSub(a: u32, b: u32): u32 {
    (a - b) % TWO32
  }

  function WrappingAdd(a: u32, b: u32): u32 {
    (a + b) % TWO32
  }

  /** `a` is at or after `b` in serial-number order. */
  predicate SeqGeq(a: u32, b: u32) {
    WrappingSub(a, b) < HALF32
  }

  /** n lies in the half-open half space around `ref` that a word can tell apart. */
  predicate Near(ref: int, n: int) {
    -HALF32 <= n - ref < HALF32
  }

  /** The message number carried by word w, read next to `ref`. */
  function Nearest(ref: int, w: u32): int {
    var d := WrappingSub(w, Wrap(ref));
    if d < HALF32 then ref + d else ref + d - TWO32
  }

  lemma WrapDifference(a: int, b: int)
    ensures WrappingSub(Wrap(a), Wrap(b)) == (a - b) % TWO32
  {
    var qa, qb := a / TWO32, b / TWO32;
    assert a == qa * TWO32 + Wrap(a) && b == qb * TWO32 + Wrap(b);
    ModuloUnique(a - b, WrappingSub(Wrap(a), Wrap(b)),
                 qa - qb + (Wrap(a) - Wrap(b)) / TWO32);
  }

  lemma ModuloUnique(x: int, r: int, q: int)
    requires 0 <= r < TWO32 && x == q * TWO32 + r
    ensures x % TWO32 == r && x / TWO32 == q
  {
  }

  /** Reading a word next to any reference is the unique inverse of `Wrap` on the half
      space around that reference: no information is lost there, and none outside. */
  lemma NearestIsInverse(ref: int, n: int)
    ensures Near(ref, Nearest(ref, Wrap(n))) && Wrap(Nearest(ref, Wrap(n))) == Wrap(n)
    ensures Nearest(ref, Wrap(n)) == n <==> Near(ref, n)
  {
    WrapDifference(n, ref);
    var d := (n - ref) % TWO32;
    var q := (n - ref) / TWO32;
    assert n == ref + q * TWO32 + d;
    var m := Nearest(ref, Wrap(n));
    assert m == n - q * TWO32 || m == n - (q + 1) * TWO32;
    SameWord(m, n, if m == n - q * TWO32 then -q else -(q + 1));
  }

  lemma SameWord(m: int, n: int, k: int)
    requires m == n + k * TWO32
    ensures Wrap(m) == Wrap(n)
  {
    ModuloUnique(m, n % TWO32, n / TWO32 + k);
  }

  /** Two numbers share a word exactly when they are a whole number of wraps apart. */
  lemma WordsCollide(m: int, n: int)
    ensures Wrap(m) == Wrap(n) <==> (m - n) % TWO32 == 0
  {
    WrapDifference(m, n);
    if Wrap(m) == Wrap(n) {
      assert WrappingSub(Wrap(m), Wrap(n)) == 0;
    } else {
      var d := Wrap(m) - Wrap(n);
      assert -TWO32 < d < TWO32 && d != 0;
      assert d % TWO32 == d || d % TWO32 == d + TWO32;
    }
  }

  /** Serial-number order on words is the order of the numbers they carry, for numbers
      within half the space of each other. */
  lemma SerialOrder(a: int, b: int)
    requires Near(b, a)
    ensures SeqGeq(Wrap(a), Wrap(b)) <==> a >= b
  {
    WrapDifference(a, b);
  }

  /** ... and at distance exactly half the space it is wrong. */
  lemma SerialOrderBreaksAtHalf(b: int)
    ensures !SeqGeq(Wrap(b + HALF32), Wrap(b)) && b + HALF32 >= b
  {
    WrapDifference(b + HALF32, b);
  }
}
