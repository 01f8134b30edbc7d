/** The session's sequence-number generator and its 128-wide dedup window.

    The reference machine keeps every number ever observed and answers by looking at that
    history.  The window keeps two machine words; `DedupWindow.Observe` is proved to give
    the reference's answer, and the delivery theorems are about the reference. */
module Sequence {
  import opened Words
  import Bits

  const WIDTH := 128
  const POW2_128 := 0x1_0000_0000_0000_0000_0000_0000_0000_0000

  type u128 = x: int | 0 <= x < 0x1_0000_0000_0000_0000_0000_0000_0000_0000

  /** Hands out 0, 1, 2, ... as words; `issued` is the number handed out next. */
  class SeqGen {
    var next: u32
    ghost var issued: nat

    ghost predicate Valid()
      reads this
    {
      next == Wrap(issued)
    }

    constructor ()
      ensures Valid() && issued == 0
    {
      next, issued := 0, 0;
    }

    method Next() returns (v: u32)
      requires Valid()
      modifies this
      ensures Valid()
      ensures issued == old(issued) + 1 && v == Wrap(old(issued))
    {
      v := next;
      next := WrappingAdd(next, 1);
      issued := issued + 1;
      WrapSuccessor(issued - 1);
    }
  }

  lemma WrapSuccessor(n: int)
    ensures WrappingAdd(Wrap(n), 1) == Wrap(n + 1)
  {
  }

  /** Two messages stamped by one generator carry the same word exactly when whole wraps
      of the generator lie between them. */
  lemma StampsCollide(m: nat, n: nat)
    ensures Wrap(m) == Wrap(n) <==> (m - n) % TWO32 == 0
    ensures m < n < m + TWO32 ==> Wrap(m) != Wrap(n)
  {
    WordsCollide(m, n);
  }

  // ---- the reference machine ----

  datatype Observation = Accept | Duplicate | Stale

  function Max(h: seq<int>): (m: int)
    requires h != []
    ensures m in h && forall n | n in h :: n <= m
  {
    var init, n := h[..|h| - 1], h[|h| - 1];
    assert forall k | k in h :: k in init || k == n;
    if init == [] then n
    else
      var m := Max(init);
      if n > m then n else m
  }

  /** The reference's answer to n after the numbers h were observed. */
  function Verdict(h: seq<int>, n: int): Observation {
    if h == [] then Accept
    else if n <= Max(h) - WIDTH then Stale
    else if n in h then Duplicate
    else Accept
  }

  lemma MaxOfAppend(h: seq<int>, n: int)
    ensures Max(h + [n]) == if h == [] || n > Max(h) then n else Max(h)
  {
    assert (h + [n])[..|h|] == h;
  }

  // ---- the window of two words ----

  /** last and bits hold the history h: `last` is the word of the largest number, and
      flag i stands for the number i below it. */
  ghost predicate Represents(last: u32, bits: u128, seen: bool, h: seq<int>) {
    && (seen <==> h != [])
    && (if h == [] then last == 0 && bits == 0
        else last == Wrap(Max(h)) && Flags(bits, Max(h), h))
  }

  /** Flag i of the word stands for the number i below m. */
  ghost predicate Flags(bits: nat, m: int, h: seq<int>) {
    forall i: nat | i < WIDTH :: Bits.Bit(bits, i) <==> m - i in h
  }

  class DedupWindow {
    var last: u32
    var bits: u128
    var seen: bool
    /** Every number observed so far, in order of arrival. */
    ghost var history: seq<int>

    ghost predicate Valid()
      reads this
    {
      Represents(last, bits, seen, history)
    }

    constructor ()
      ensures Valid() && history == []
    {
      last, bits, seen := 0, 0, false;
      history := [];
    }

    /** n is the number the sender stamped into s.  Any n carried by s will do for the
        first observation; later ones are read next to the largest number so far. */
    method Observe(s: u32, ghost n: int) returns (o: Observation)
      requires Valid()
      requires Wrap(n) == s && (history != [] ==> Near(Max(history), n))
      modifies this
      ensures Valid()
      ensures history == old(history) + [n]
      ensures o == Verdict(old(history), n)
      // stale: 128 or more below the largest; duplicate: observed, and not stale
      ensures o == Stale <==> old(history) != [] && n <= Max(old(history)) - 128
      ensures o == Duplicate <==> n in old(history) && n > Max(old(history)) - 128
    {
      ghost var h := history;
      history := history + [n];
      if !seen {
        last, bits, seen := s, 1, true;
        FirstFlag(n);
        assert history == [n];
        return Accept;
      }
      Distances(Max(h), n);
      var forward := WrappingSub(s, last);
      if forward != 0 && forward < HALF32 {
        Advance(bits, h, n);
        if forward >= 128 {
          bits := 1;
        } else {
          bits := Bits.Or(Bits.Truncate(Bits.ShiftLeft(bits, forward), WIDTH), 1);
        }
        last := s;
        return Accept;
      }
      LookBack(bits, h, n);
      if forward == 0 {
        return Duplicate;
      }
      var back := WrappingSub(last, s);
      if back >= 128 {
        return Stale;
      }
      var mask := Bits.ShiftLeft(1, back);
      if Bits.And(bits, mask) != 0 {
        return Duplicate;
      }
      bits := Bits.Or(bits, mask);
      return Accept;
    }

    /** The window as sent in an ACK frame. */
    method Snapshot() returns (l: u32, b: u128)
      requires Valid()
      ensures l == last && b == bits
      ensures history == [] ==> l == 0 && b == 0
      ensures history != [] ==> l == Wrap(Max(history))
      ensures history != [] ==> Flags(b, Max(history), history)
    {
      if !seen { return 0, 0; }
      return last, bits;
    }
  }

  /** The half space is the limit.  A new message further ahead, up to a window short of a
      whole wrap, is read as one far behind and dropped ... */
  lemma JumpOfHalfSpaceIsLost(h: seq<int>, n: int)
    requires h != [] && HALF32 <= n - Max(h) <= TWO32 - WIDTH
    ensures Verdict(h, n) == Accept
    ensures Near(Max(h), n - TWO32) && Wrap(n - TWO32) == Wrap(n) && Verdict(h, n - TWO32) == Stale
  {
    SameWord(n - TWO32, n);
  }

  /** ... and an old one further behind, up to a whole wrap, is read as one ahead and taken
      for new. */
  lemma ReplayOfHalfSpaceIsAccepted(h: seq<int>, n: int)
    requires h != [] && HALF32 < Max(h) - n < TWO32
    ensures Verdict(h, n) == Stale
    ensures Near(Max(h), n + TWO32) && Wrap(n + TWO32) == Wrap(n) && Verdict(h, n + TWO32) == Accept
  {
    SameWord(n, n + TWO32);
  }

  lemma SameWord(a: int, b: int)
    requires b == a + TWO32
    ensures Wrap(a) == Wrap(b)
  {
  }

  /** What the window itself answers at either side of the limit. */
  method ObserveBeyondLimit(window: DedupWindow, word: u32, ghost n: int) returns (o: Observation)
    requires window.Valid() && window.history != [] && word == Wrap(n)
    requires HALF32 <= n - Max(window.history) <= TWO32 - WIDTH || HALF32 < Max(window.history) - n < TWO32
    modifies window
    ensures n > Max(old(window.history)) ==> Verdict(old(window.history), n) == Accept && o == Stale
    ensures n < Max(old(window.history)) ==> Verdict(old(window.history), n) == Stale && o == Accept
  {
    ghost var h := window.history;
    if n > Max(h) { JumpOfHalfSpaceIsLost(h, n); } else { ReplayOfHalfSpaceIsAccepted(h, n); }
    o := window.Observe(word, if n > Max(h) then n - TWO32 else n + TWO32);
  }

  lemma Pow2Of64()
    ensures Bits.Pow2(64) == TWO64
  {
    assert Bits.Pow2(8) == 0x100;
    Bits.Pow2Add(8, 8);
    Bits.Pow2Add(16, 16);
    Bits.Pow2Add(32, 32);
  }

  lemma Pow2Of128()
    ensures Bits.Pow2(128) == POW2_128
  {
    Pow2Of64();
    Bits.Pow2Add(64, 64);
  }

  lemma BitOfOne(i: nat)
    ensures Bits.Bit(1, i) <==> i == 0
  {
    if i > 0 { Bits.BitOfZero(i - 1); }
  }

  lemma FirstFlag(n: int)
    ensures Flags(1, n, [n])
  {
    forall i: nat | i < WIDTH ensures Bits.Bit(1, i) <==> n - i in [n] { BitOfOne(i); }
  }

  /** What the two wrapping differences of `observe` measure. */
  lemma Distances(m: int, n: int)
    requires Near(m, n)
    ensures var forward := WrappingSub(Wrap(n), Wrap(m));
            (forward == 0 <==> n == m) && (0 < forward < HALF32 <==> n > m) && (n > m ==> forward == n - m)
    ensures n < m ==> WrappingSub(Wrap(m), Wrap(n)) == m - n
  {
    WrapDifference(n, m);
    WrapDifference(m, n);
  }

  /** The word after a step of k, and the flags it holds. */
  lemma ShiftedFlag(bits: u128, k: nat, i: nat)
    requires k < WIDTH && i < WIDTH
    ensures Bits.Bit(Bits.Or(Bits.Truncate(Bits.ShiftLeft(bits, k), WIDTH), 1), i)
            <==> i == 0 || (i >= k && Bits.Bit(bits, i - k))
  {
    var t := Bits.Truncate(Bits.ShiftLeft(bits, k), WIDTH);
    Bits.BitOfOr(t, 1, i);
    Bits.BitOfTruncate(Bits.ShiftLeft(bits, k), WIDTH, i);
    Bits.BitOfShiftLeft(bits, k, i);
    BitOfOne(i);
  }

  lemma ShiftedFits(bits: u128, k: nat)
    ensures Bits.Or(Bits.Truncate(Bits.ShiftLeft(bits, k), WIDTH), 1) < POW2_128
  {
    Pow2Of128();
    Bits.TruncateFits(Bits.ShiftLeft(bits, k), WIDTH);
    Bits.OrFits(Bits.Truncate(Bits.ShiftLeft(bits, k), WIDTH), 1, WIDTH);
  }

  /** A step forward moves every flag up by the step, dropping those pushed out, and sets
      flag 0; a jump past the whole window leaves flag 0 alone. */
  lemma Advance(bits: u128, h: seq<int>, n: int)
    requires h != [] && Max(h) < n && Flags(bits, Max(h), h)
    ensures var k := n - Max(h);
            var b := if k >= WIDTH then 1 else Bits.Or(Bits.Truncate(Bits.ShiftLeft(bits, k), WIDTH), 1);
            b < POW2_128 && Flags(b, n, h + [n])
    ensures Max(h + [n]) == n && Verdict(h, n) == Accept
  {
    MaxOfAppend(h, n);
    var k := n - Max(h);
    if k >= WIDTH {
      forall i: nat | i < WIDTH ensures Bits.Bit(1, i) <==> n - i in h + [n] { BitOfOne(i); }
    } else {
      ShiftedFits(bits, k);
      forall i: nat | i < WIDTH
        ensures Bits.Bit(Bits.Or(Bits.Truncate(Bits.ShiftLeft(bits, k), WIDTH), 1), i) <==> n - i in h + [n]
      {
        ShiftedFlag(bits, k, i);
        if i >= k { assert Bits.Bit(bits, i - k) <==> Max(h) - (i - k) in h; }
      }
    }
  }

  lemma MaskedFits(bits: u128, back: nat)
    requires back < WIDTH
    ensures Bits.Or(bits, Bits.ShiftLeft(1, back)) < POW2_128
  {
    Pow2Of128();
    Bits.MaskFits(back, WIDTH);
    Bits.OrFits(bits, Bits.ShiftLeft(1, back), WIDTH);
  }

  /** A number at or behind the largest: its flag, if it has one, tells whether it was
      observed, and setting the flag records it. */
  lemma LookBack(bits: u128, h: seq<int>, n: int)
    requires h != [] && n <= Max(h) && Flags(bits, Max(h), h)
    ensures Max(h + [n]) == Max(h)
    ensures n in h || n <= Max(h) - WIDTH ==> Flags(bits, Max(h), h + [n])
    ensures Max(h) - n < WIDTH ==>
      && (Bits.And(bits, Bits.ShiftLeft(1, Max(h) - n)) != 0 <==> n in h)
      && Bits.Or(bits, Bits.ShiftLeft(1, Max(h) - n)) < POW2_128
      && Flags(Bits.Or(bits, Bits.ShiftLeft(1, Max(h) - n)), Max(h), h + [n])
  {
    MaxOfAppend(h, n);
    var back := Max(h) - n;
    if back < WIDTH {
      var mask := Bits.ShiftLeft(1, back);
      Bits.MaskTest(bits, back);
      assert Bits.Bit(bits, back) <==> Max(h) - back in h;
      MaskedFits(bits, back);
      forall i: nat | i < WIDTH
        ensures Bits.Bit(Bits.Or(bits, mask), i) <==> Max(h) - i in h + [n]
      {
        Bits.BitOfOr(bits, mask, i);
        Bits.BitOfMask(back, i);
      }
    }
  }

  // ---- whole runs ----

  /** The arrival at index i of run h is handed to the application. */
  predicate Delivered(h: seq<int>, i: nat)
    requires i < |h|
  {
    Verdict(h[..i], h[i]) == Accept
  }

  /** The arrival at index i is the first copy of its message. */
  predicate FirstCopy(h: seq<int>, i: nat)
    requires i < |h|
  {
    h[i] !in h[..i]
  }

  /** At most once: however arrivals are duplicated, reordered or replayed, no message is
      handed out twice. */
  lemma AtMostOnce(h: seq<int>, i: nat, j: nat)
    requires i < j < |h| && Delivered(h, i) && Delivered(h, j)
    ensures h[i] != h[j]
  {
    assert h[..j][i] == h[i];
  }

  /** Only first copies are handed out, and a first copy is handed out exactly when the
      largest number has not passed it by the window's width. */
  lemma DeliveredIffFirstInTime(h: seq<int>, i: nat)
    requires i < |h|
    ensures Delivered(h, i) <==> FirstCopy(h, i) && (i > 0 ==> h[i] > Max(h[..i]) - WIDTH)
  {
    if i > 0 && h[i] in h[..i] { assert h[..i] != []; }
  }

  /** What happens to a message is settled by its first copy: the message is handed out at
      that copy if it came in time, and otherwise never. */
  lemma FateOfMessage(h: seq<int>, i: nat)
    requires i < |h| && FirstCopy(h, i)
    ensures (exists j: nat :: j < |h| && h[j] == h[i] && Delivered(h, j))
            <==> (i > 0 ==> h[i] > Max(h[..i]) - WIDTH)
    ensures forall j: nat | j < |h| && h[j] == h[i] && Delivered(h, j) :: j == i
  {
    DeliveredIffFirstInTime(h, i);
    forall j: nat | j < |h| && h[j] == h[i] && Delivered(h, j)
      ensures j == i
    {
      DeliveredIffFirstInTime(h, j);
    }
  }

  /** No first copy of the run comes after the largest number passed it by the width. */
  ghost predicate BoundedReordering(h: seq<int>) {
    forall i: nat | 0 < i < |h| && FirstCopy(h, i) :: h[i] > Max(h[..i]) - WIDTH
  }

  function FirstIndex(h: seq<int>, n: int): (i: nat)
    requires n in h
    ensures i < |h| && h[i] == n && n !in h[..i]
  {
    if h[0] == n then 0
    else
      var i := FirstIndex(h[1..], n);
      assert h[..i + 1] == [h[0]] + h[1..][..i];
      i + 1
  }

  /** Exactly once: every message that arrives at all is handed out exactly once, at its
      first copy, if and only if the reordering is bounded by the window. */
  lemma ExactlyOnce(h: seq<int>)
    ensures BoundedReordering(h)
            <==> forall n | n in h :: exists j: nat :: j < |h| && h[j] == n && Delivered(h, j)
    ensures forall i: nat, j: nat | i < |h| && j < |h| && h[i] == h[j] && Delivered(h, i) && Delivered(h, j) :: i == j
  {
    forall i: nat | i < |h| && FirstCopy(h, i)
      ensures (exists j: nat :: j < |h| && h[j] == h[i] && Delivered(h, j)) <==> (i > 0 ==> h[i] > Max(h[..i]) - WIDTH)
    {
      FateOfMessage(h, i);
    }
    if BoundedReordering(h) {
      forall n | n in h
        ensures exists j: nat :: j < |h| && h[j] == n && Delivered(h, j)
      {
        var i := FirstIndex(h, n);
        assert FirstCopy(h, i);
      }
    } else {
      var i: nat :| 0 < i < |h| && FirstCopy(h, i) && h[i] <= Max(h[..i]) - WIDTH;
      var n := h[i];
      assert n in h && !exists j: nat :: j < |h| && h[j] == n && Delivered(h, j);
    }
    forall i: nat, j: nat | i < |h| && j < |h| && h[i] == h[j] && Delivered(h, i) && Delivered(h, j)
      ensures i == j
    {
      if i < j { AtMostOnce(h, i, j); }
      if j < i { AtMostOnce(h, j, i); }
    }
  }

  /** The numbers handed out over the run, in order. */
  function Deliveries(h: seq<int>): seq<int> {
    if h == [] then []
    else
      var init := h[..|h| - 1];
      if Verdict(init, h[|h| - 1]) == Accept then Deliveries(init) + [h[|h| - 1]] else Deliveries(init)
  }

  lemma DeliveriesStep(h: seq<int>, n: int)
    ensures Deliveries(h + [n]) == if Verdict(h, n) == Accept then Deliveries(h) + [n] else Deliveries(h)
  {
    assert (h + [n])[..|h|] == h;
  }

  lemma {:induction false} DeliveriesComeFromRun(h: seq<int>, n: int)
    ensures n in Deliveries(h) <==> exists i: nat :: i < |h| && h[i] == n && Delivered(h, i)
  {
    if h != [] {
      var init := h[..|h| - 1];
      DeliveriesComeFromRun(init, n);
      forall i: nat | i < |init| ensures Delivered(h, i) <==> Delivered(init, i) {
        assert init[..i] == h[..i];
      }
      assert h[..|h| - 1] == init;
      if n == h[|h| - 1] && Verdict(init, n) == Accept { assert Delivered(h, |h| - 1); }
      if i: nat :| i < |init| && init[i] == n && Delivered(init, i) { assert h[i] == n && Delivered(h, i); }
      if i: nat :| i < |h| && h[i] == n && Delivered(h, i) {
        if i < |init| { assert init[i] == n && Delivered(init, i); }
      }
    }
  }

  /** The stream the application sees never repeats a message. */
  lemma {:induction false} DeliveriesDistinct(h: seq<int>)
    ensures forall i, j | 0 <= i < j < |Deliveries(h)| :: Deliveries(h)[i] != Deliveries(h)[j]
  {
    if h != [] {
      var init := h[..|h| - 1];
      var n := h[|h| - 1];
      DeliveriesDistinct(init);
      DeliveriesComeFromRun(init, n);
    }
  }
}
