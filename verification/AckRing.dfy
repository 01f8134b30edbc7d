/** The ring of unacknowledged frames and the ACK frames that empty it.

    The ring stores the word of each frame.  Beside it the model keeps the frame's real
    number, so that what the word comparisons do can be stated on numbers. */
module AckRing {
  import opened Words
  import opened Sequence
  import Bits
  import Seqs

  const CAPACITY := 256
  const SACK_WINDOW := 128

  datatype AckFrame = AckFrame(ack: u32, bitmap: u128)

  /** A pending frame: its number in the session, and its content. */
  datatype Entry<T> = Entry(n: int, item: T)

  // ---- on words, as the wire carries them ----

  /** Flag d-1 of the bitmap, for the word d ahead of the frame's base. */
  predicate Selected(f: AckFrame, s: u32) {
    var d := WrappingSub(s, f.ack);
    0 < d <= SACK_WINDOW && Bits.Bit(f.bitmap, d - 1)
  }

  predicate Covers(f: AckFrame, s: u32) {
    SeqGeq(f.ack, s) || Selected(f, s)
  }

  function NotReached<T>(ack: u32): Entry<T> -> bool {
    (e: Entry<T>) => !SeqGeq(ack, Wrap(e.n))
  }

  function NotSelected<T>(f: AckFrame): Entry<T> -> bool {
    (e: Entry<T>) => !Selected(f, Wrap(e.n))
  }

  function NotCovered<T>(f: AckFrame): Entry<T> -> bool {
    (e: Entry<T>) => !Covers(f, Wrap(e.n))
  }

  function Since<T>(since: u32): Entry<T> -> bool {
    (e: Entry<T>) => SeqGeq(Wrap(e.n), since)
  }

  function AfterAck<T>(ring: seq<Entry<T>>, f: AckFrame): seq<Entry<T>> {
    Seqs.Filter(NotCovered(f), ring)
  }

  function AfterAcks<T>(ring: seq<Entry<T>>, fs: seq<AckFrame>): seq<Entry<T>> {
    if fs == [] then ring else AfterAck(AfterAcks(ring, fs[..|fs| - 1]), fs[|fs| - 1])
  }

  function AfterPush<T>(ring: seq<Entry<T>>, e: Entry<T>): seq<Entry<T>> {
    (if |ring| >= CAPACITY then ring[1..] else ring) + [e]
  }

  function Stamped<T>(ring: seq<Entry<T>>): (r: seq<(u32, T)>)
    ensures |r| == |ring| && forall i | 0 <= i < |ring| :: r[i] == (Wrap(ring[i].n), ring[i].item)
  {
    seq(|ring|, i requires 0 <= i < |ring| => (Wrap(ring[i].n), ring[i].item))
  }

  class UnackedRing<T> {
    var buf: seq<(u32, T)>
    /** The entries with their real numbers. */
    ghost var entries: seq<Entry<T>>

    ghost predicate Valid()
      reads this
    {
      buf == Stamped(entries)
    }

    constructor ()
      ensures Valid() && entries == []
    {
      buf := [];
      entries := [];
    }

    method Push(s: u32, item: T, ghost n: int) returns (evicted: seq<(u32, T)>)
      requires Valid() && Wrap(n) == s
      modifies this
      ensures Valid()
      ensures entries == AfterPush(old(entries), Entry(n, item))
      // the frame is filed last under its number; of the others only the oldest of a full ring goes
      ensures var kept := if |old(entries)| >= 256 then old(entries)[1..] else old(entries);
              && |entries| == |kept| + 1 && entries[..|kept|] == kept
              && entries[|kept|].n == n && entries[|kept|].item == item
      ensures evicted == if |old(entries)| >= CAPACITY then [(Wrap(old(entries)[0].n), old(entries)[0].item)] else []
    {
      evicted := [];
      if |buf| >= CAPACITY {
        evicted := [buf[0]];
        buf := buf[1..];
      }
      buf := buf + [(s, item)];
      entries := AfterPush(entries, Entry(n, item));
    }

    /** Cumulative acknowledgement: `retain` of the entries not at or before `ack`. */
    method AckCum(ack: u32)
      requires Valid()
      modifies this
      ensures Valid()
      ensures entries == Seqs.Filter(NotReached<T>(ack), old(entries))
    {
      ghost var keep := NotReached<T>(ack);
      assert |buf| == |entries|;
      var kept: seq<(u32, T)> := [];
      var i := 0;
      while i < |buf|
        invariant 0 <= i <= |buf|
        invariant kept == Stamped(Seqs.Filter(keep, entries[..i]))
      {
        assert entries[..i + 1][..i] == entries[..i];
        if !SeqGeq(ack, buf[i].0) {
          kept := kept + [buf[i]];
        }
        i := i + 1;
      }
      assert entries[..i] == entries;
      buf := kept;
      entries := Seqs.Filter(keep, entries);
    }

    /** Selective acknowledgement: clears (base, base + 128] where the bitmap says so. */
    method Sack(base: u32, bitmap: u128)
      requires Valid()
      modifies this
      ensures Valid()
      ensures entries == Seqs.Filter(NotSelected<T>(AckFrame(base, bitmap)), old(entries))
    {
      ghost var keep := NotSelected<T>(AckFrame(base, bitmap));
      if bitmap == 0 {
        forall e: Entry<T> ensures keep(e) { EmptyBitmap(base, Wrap(e.n)); }
        Seqs.FilterAll(keep, entries);
        return;
      }
      assert |buf| == |entries|;
      var kept: seq<(u32, T)> := [];
      var i := 0;
      while i < |buf|
        invariant unchanged(this) && Valid() && 0 <= i <= |buf|
        invariant kept == Stamped(Seqs.Filter(keep, entries[..i]))
      {
        assert entries[..i + 1][..i] == entries[..i];
        SelectedByShift(AckFrame(base, bitmap), buf[i].0);
        var d := WrappingSub(buf[i].0, base);
        if d == 0 || d > SACK_WINDOW || Bits.And(Bits.ShiftRight(bitmap, d - 1), 1) == 0 {
          kept := kept + [buf[i]];
        }
        i := i + 1;
      }
      assert entries[..i] == entries;
      buf := kept;
      entries := Seqs.Filter(keep, entries);
    }

    /** A copy of the entries at or after `since`; the ring is left alone. */
    method UnackedSince(since: u32) returns (r: seq<(u32, T)>)
      requires Valid()
      ensures r == Stamped(Seqs.Filter(Since<T>(since), entries))
    {
      ghost var keep := Since<T>(since);
      r := [];
      var i := 0;
      while i < |buf|
        invariant 0 <= i <= |buf|
        invariant r == Stamped(Seqs.Filter(keep, entries[..i]))
      {
        assert entries[..i + 1][..i] == entries[..i];
        if SeqGeq(buf[i].0, since) {
          r := r + [buf[i]];
        }
        i := i + 1;
      }
      assert entries[..i] == entries;
    }
  }

  lemma SelectedByShift(f: AckFrame, s: u32)
    ensures var d := WrappingSub(s, f.ack);
            Selected(f, s) <==> 0 < d <= SACK_WINDOW && Bits.And(Bits.ShiftRight(f.bitmap, d - 1), 1) != 0
  {
    var d := WrappingSub(s, f.ack);
    if 0 < d <= SACK_WINDOW { Bits.ShiftTest(f.bitmap, d - 1); }
  }

  lemma EmptyBitmap(base: u32, s: u32)
    ensures !Selected(AckFrame(base, 0), s)
  {
    var d := WrappingSub(s, base);
    if 0 < d <= SACK_WINDOW { Bits.BitOfZero(d - 1); }
  }

  /** The two passes of `on_ack` drop exactly the entries the frame covers. */
  lemma TwoPassesAreOne<T>(ring: seq<Entry<T>>, f: AckFrame)
    ensures Seqs.Filter(NotSelected<T>(f),
                        Seqs.Filter(NotReached<T>(f.ack), ring))
            == AfterAck(ring, f)
  {
    var p := NotReached<T>(f.ack);
    var q := NotSelected<T>(f);
    Seqs.FilterTwice(p, q, ring);
    Seqs.FilterCongruent(Seqs.Both(p, q), NotCovered<T>(f), ring);
  }

  // ---- on numbers ----

  /** What a frame based at number a acknowledges, on unbounded numbers. */
  predicate Acknowledges(a: int, bitmap: u128, n: int) {
    n <= a || (n - a <= SACK_WINDOW && Bits.Bit(bitmap, n - a - 1))
  }

  function Above<T>(a: int): Entry<T> -> bool {
    (e: Entry<T>) => e.n > a
  }

  function FromOn<T>(a: int): Entry<T> -> bool {
    (e: Entry<T>) => e.n >= a
  }

  function Unflagged<T>(a: int, bitmap: u128): Entry<T> -> bool {
    (e: Entry<T>) => !(0 < e.n - a <= SACK_WINDOW && Bits.Bit(bitmap, e.n - a - 1))
  }

  function Unacknowledged<T>(a: int, bitmap: u128): Entry<T> -> bool {
    (e: Entry<T>) => !Acknowledges(a, bitmap, e.n)
  }

  /** Every live number lies within half the number space of a. */
  ghost predicate Spans<T>(ring: seq<Entry<T>>, a: int) {
    forall e | e in ring :: Near(e.n, a) && Near(a, e.n)
  }

  lemma SelectedOnNumbers(a: int, bitmap: u128, n: int)
    requires Near(a, n)
    ensures Selected(AckFrame(Wrap(a), bitmap), Wrap(n))
            <==> 0 < n - a <= SACK_WINDOW && Bits.Bit(bitmap, n - a - 1)
  {
    WrapDifference(n, a);
  }

  /** Across any wrap, the word comparisons of `ack_cum`, `sack` and `unacked_since` are
      the plain comparisons of numbers, and the order of the entries is kept. */
  lemma RingAcrossWrap<T>(ring: seq<Entry<T>>, a: int, bitmap: u128)
    requires Spans(ring, a)
    ensures Seqs.Filter(NotReached<T>(Wrap(a)), ring)
            == Seqs.Filter(Above<T>(a), ring)
    ensures Seqs.Filter(NotSelected<T>(AckFrame(Wrap(a), bitmap)), ring)
            == Seqs.Filter(Unflagged<T>(a, bitmap), ring)
    ensures Seqs.Filter(Since<T>(Wrap(a)), ring)
            == Seqs.Filter(FromOn<T>(a), ring)
    ensures AfterAck(ring, AckFrame(Wrap(a), bitmap))
            == Seqs.Filter(Unacknowledged<T>(a, bitmap), ring)
  {
    forall e | e in ring
      ensures SeqGeq(Wrap(a), Wrap(e.n)) <==> a >= e.n
      ensures SeqGeq(Wrap(e.n), Wrap(a)) <==> e.n >= a
      ensures Selected(AckFrame(Wrap(a), bitmap), Wrap(e.n))
          <==> 0 < e.n - a <= SACK_WINDOW && Bits.Bit(bitmap, e.n - a - 1)
    {
      SerialOrder(a, e.n);
      SerialOrder(e.n, a);
      SelectedOnNumbers(a, bitmap, e.n);
    }
    Seqs.FilterCongruent(NotReached<T>(Wrap(a)), Above<T>(a), ring);
    Seqs.FilterCongruent(NotSelected<T>(AckFrame(Wrap(a), bitmap)),
                         Unflagged<T>(a, bitmap), ring);
    Seqs.FilterCongruent(Since<T>(Wrap(a)), FromOn<T>(a), ring);
    Seqs.FilterCongruent(NotCovered<T>(AckFrame(Wrap(a), bitmap)),
                         Unacknowledged<T>(a, bitmap), ring);
  }

  /** The replay before a reconnect asks for everything at or after word 0.  It gets the
      whole ring exactly when no pending word has reached the upper half of the space. */
  lemma ReplayIsComplete<T>(ring: seq<Entry<T>>)
    ensures Seqs.Filter(Since<T>(0), ring) == ring
            <==> forall e | e in ring :: Wrap(e.n) < HALF32
  {
    Seqs.FilterAll(Since<T>(0), ring);
  }

  // ---- what an ACK may and must drop ----

  /** The frame says nothing false about the receiver: every message up to a has been
      received -- messages are numbered from 0 -- and flag i is set only if a+1+i has. */
  ghost predicate Truthful(a: int, bitmap: u128, received: iset<int>) {
    && (forall n | 0 <= n <= a :: n in received)
    && (forall i: nat | i < SACK_WINDOW && Bits.Bit(bitmap, i) :: a + 1 + i in received)
  }

  /** The frame says nothing false about the messages that were sent: numbers that were
      never written to a link need not be received. */
  ghost predicate TruthfulAbout(sent: set<int>, a: int, bitmap: u128, received: iset<int>) {
    && (forall n | n in sent && n <= a :: n in received)
    && (forall i: nat | i < SACK_WINDOW && Bits.Bit(bitmap, i) && a + 1 + i in sent :: a + 1 + i in received)
  }

  lemma TruthfulAboutAll(sent: set<int>, a: int, bitmap: u128, received: iset<int>)
    requires Truthful(a, bitmap, received) && forall n | n in sent :: n >= 0
    ensures TruthfulAbout(sent, a, bitmap, received)
  {
  }

  /** A truthful frame drops only frames the peer has, and drops all of them that it covers. */
  lemma AckIsSafe<T>(ring: seq<Entry<T>>, sent: set<int>, a: int, bitmap: u128, received: iset<int>, e: Entry<T>)
    requires Spans(ring, a) && TruthfulAbout(sent, a, bitmap, received) && e in ring
    ensures e in AfterAck(ring, AckFrame(Wrap(a), bitmap)) <==> !Acknowledges(a, bitmap, e.n)
    ensures e !in AfterAck(ring, AckFrame(Wrap(a), bitmap)) && e.n in sent ==> e.n in received
  {
    RingAcrossWrap(ring, a, bitmap);
    Seqs.FilterMember(Unacknowledged<T>(a, bitmap), ring, e);
    if Acknowledges(a, bitmap, e.n) && e.n > a {
      assert e.n == a + 1 + (e.n - a - 1);
    }
  }

  predicate CoveredBy(fs: seq<AckFrame>, s: u32) {
    exists i :: 0 <= i < |fs| && Covers(fs[i], s)
  }

  function NotCoveredBy<T>(fs: seq<AckFrame>): Entry<T> -> bool {
    (e: Entry<T>) => !CoveredBy(fs, Wrap(e.n))
  }

  lemma CoveredByLast(fs: seq<AckFrame>, s: u32)
    requires fs != []
    ensures CoveredBy(fs, s) <==> CoveredBy(fs[..|fs| - 1], s) || Covers(fs[|fs| - 1], s)
  {
    var init := fs[..|fs| - 1];
    if i :| 0 <= i < |init| && Covers(init[i], s) { assert Covers(fs[i], s); }
    if i :| 0 <= i < |fs| && Covers(fs[i], s) {
      if i < |init| { assert Covers(init[i], s); }
    }
  }

  /** A list of ACK frames drops what some frame of the list covers. */
  lemma {:induction false} AcksTogether<T>(ring: seq<Entry<T>>, fs: seq<AckFrame>)
    ensures AfterAcks(ring, fs) == Seqs.Filter(NotCoveredBy<T>(fs), ring)
  {
    if fs == [] {
      Seqs.FilterAll(NotCoveredBy<T>(fs), ring);
    } else {
      var init, f := fs[..|fs| - 1], fs[|fs| - 1];
      assert AfterAcks(ring, fs) == AfterAck(AfterAcks(ring, init), f);
      var p := NotCoveredBy<T>(init);
      var q := NotCovered<T>(f);
      AcksTogether(ring, init);
      Seqs.FilterTwice(p, q, ring);
      forall e | e in ring
        ensures (p(e) && q(e)) == !CoveredBy(fs, Wrap(e.n))
      {
        CoveredByLast(fs, Wrap(e.n));
      }
      Seqs.FilterCongruent(Seqs.Both(p, q), NotCoveredBy<T>(fs), ring);
    }
  }

  /** ACK frames may come in any order and any number of times: lists with the same frames
      leave the same ring. */
  lemma AcksInAnyOrder<T>(ring: seq<Entry<T>>, fs: seq<AckFrame>, gs: seq<AckFrame>)
    requires forall f :: f in fs <==> f in gs
    ensures AfterAcks(ring, fs) == AfterAcks(ring, gs)
  {
    AcksTogether(ring, fs);
    AcksTogether(ring, gs);
    forall s: u32 ensures CoveredBy(fs, s) == CoveredBy(gs, s) {
      if i :| 0 <= i < |fs| && Covers(fs[i], s) {
        assert fs[i] in gs;
        var j :| 0 <= j < |gs| && gs[j] == fs[i];
        assert Covers(gs[j], s);
      }
      if j :| 0 <= j < |gs| && Covers(gs[j], s) {
        assert gs[j] in fs;
        var i :| 0 <= i < |fs| && fs[i] == gs[j];
        assert Covers(fs[i], s);
      }
    }
    Seqs.FilterCongruent(NotCoveredBy<T>(fs), NotCoveredBy<T>(gs), ring);
  }

  // ---- the frame the receiver really sends ----

  /** What a receiver with history h has received. */
  ghost function ReceivedIn(h: seq<int>): iset<int> {
    iset n | n in h
  }

  /** A frame based at the largest number received is truthful exactly if nothing below is
      missing and it sets no flag: there is nothing above for a flag to tell of. */
  lemma TruthfulAtLargest(h: seq<int>, bits: u128)
    requires h != []
    ensures Truthful(Max(h), bits, ReceivedIn(h)) <==> (forall n | 0 <= n <= Max(h) :: n in h) && NoFlag(bits)
  {
    var received := ReceivedIn(h);
    if Truthful(Max(h), bits, received) {
      forall i: nat | i < SACK_WINDOW ensures !Bits.Bit(bits, i) { assert Max(h) + 1 + i !in received; }
      forall n | 0 <= n <= Max(h) ensures n in h { assert n in received; }
    }
  }

  ghost predicate NoFlag(bits: u128) {
    forall i: nat | i < SACK_WINDOW :: !Bits.Bit(bits, i)
  }

  /** The receiver's frame carries its window: the largest number and flags that count
      down from it.  Read as an ACK frame it is never truthful, because flag 0 is the
      largest number itself and reads as the number after it. */
  lemma WindowFrameIsNeverTruthful(h: seq<int>, bits: u128)
    requires h != [] && Flags(bits, Max(h), h)
    ensures Bits.Bit(bits, 0) && Max(h) + 1 !in h
    ensures !Truthful(Max(h), bits, ReceivedIn(h))
  {
    assert Bits.Bit(bits, 0);
    TruthfulAtLargest(h, bits);
  }

  /** The largest number, from a on, up to which nothing is missing. */
  function GapFree(h: seq<int>, a: int): (r: int)
    requires h != [] && a >= -1 && forall n | 0 <= n <= a :: n in h
    ensures r >= a && r + 1 !in h && forall n | 0 <= n <= r :: n in h
    decreases Max(h) - a
  {
    if a + 1 in h then GapFree(h, a + 1) else a
  }

  /** k flags that count up: flag i tells whether a+1+i was received. */
  function FlagsUp(h: seq<int>, a: int, k: nat): nat
    decreases k
  {
    if k == 0 then 0 else (if a + 1 in h then 1 else 0) + 2 * FlagsUp(h, a + 1, k - 1)
  }

  lemma {:induction false} FlagsUpFit(h: seq<int>, a: int, k: nat)
    ensures FlagsUp(h, a, k) < Bits.Pow2(k)
    decreases k
  {
    if k > 0 { FlagsUpFit(h, a + 1, k - 1); }
  }

  lemma {:induction false} BitOfFlagsUp(h: seq<int>, a: int, k: nat, i: nat)
    ensures Bits.Bit(FlagsUp(h, a, k), i) <==> i < k && a + 1 + i in h
    decreases k
  {
    if k == 0 {
      Bits.BitOfZero(i);
    } else {
      DigitInFront(if a + 1 in h then 1 else 0, FlagsUp(h, a + 1, k - 1), i);
      if i > 0 { BitOfFlagsUp(h, a + 1, k - 1, i - 1); }
    }
  }

  lemma DigitInFront(d: nat, w: nat, i: nat)
    requires d < 2
    ensures Bits.Bit(d + 2 * w, i) <==> if i == 0 then d == 1 else Bits.Bit(w, i - 1)
  {
    assert (d + 2 * w) / 2 == w;
  }

  /** The flags count up from a and tell of everything in their reach. */
  ghost predicate FlagsTellUp(bits: nat, a: int, h: seq<int>) {
    forall i: nat :: Bits.Bit(bits, i) <==> i < SACK_WINDOW && a + 1 + i in h
  }

  lemma FlaggedUpIsTruthful(h: seq<int>, a: int, bits: u128)
    requires a >= -1 && a + 1 !in h && (forall n | 0 <= n <= a :: n in h) && FlagsTellUp(bits, a, h)
    ensures Truthful(a, bits, ReceivedIn(h))
    ensures forall n | 0 <= n <= a + SACK_WINDOW :: Acknowledges(a, bits, n) <==> n in h
    ensures forall b, other: u128 | Truthful(b, other, ReceivedIn(h)) :: b <= a
  {
    forall n | a < n <= a + SACK_WINDOW ensures Acknowledges(a, bits, n) <==> n in h {
      assert n == a + 1 + (n - a - 1);
    }
    forall b, other: u128 | Truthful(b, other, ReceivedIn(h)) ensures b <= a {
      assert a + 1 !in ReceivedIn(h);
    }
  }

  lemma FlagsUpTell(h: seq<int>, a: int) returns (bits: u128)
    ensures FlagsTellUp(bits, a, h)
  {
    var w := FlagsUp(h, a, SACK_WINDOW);
    FlagsUpFit(h, a, SACK_WINDOW);
    Pow2Of128();
    forall i: nat ensures Bits.Bit(w, i) <==> i < SACK_WINDOW && a + 1 + i in h { BitOfFlagsUp(h, a, SACK_WINDOW, i); }
    bits := w;
  }

  /** The frame `ack.rs` asks for -- based at the last number before a gap, with flags that
      count up -- is truthful, tells of everything received in its reach, and no truthful
      frame has a larger base. */
  lemma ForwardFrameIsTruthful(h: seq<int>) returns (a: int, bits: u128)
    requires h != []
    ensures Truthful(a, bits, ReceivedIn(h))
    ensures forall n | 0 <= n <= a + SACK_WINDOW :: Acknowledges(a, bits, n) <==> n in h
    ensures forall b, other: u128 | Truthful(b, other, ReceivedIn(h)) :: b <= a
  {
    a := GapFree(h, -1);
    bits := FlagsUpTell(h, a);
    FlaggedUpIsTruthful(h, a, bits);
  }

  /** Exactly which pending frames the receiver's frame drops although the peer never got
      them: those below its largest number that are missing, and those above it whose
      mirror image below was received. */
  lemma WindowFrameDrops<T>(h: seq<int>, bits: u128, ring: seq<Entry<T>>, e: Entry<T>)
    requires h != [] && Flags(bits, Max(h), h) && Spans(ring, Max(h))
    requires e in ring
    ensures e !in AfterAck(ring, AckFrame(Wrap(Max(h)), bits)) && e.n !in h
            <==> (e.n <= Max(h) && e.n !in h) || (Max(h) < e.n <= Max(h) + SACK_WINDOW && 2 * Max(h) + 1 - e.n in h)
  {
    RingAcrossWrap(ring, Max(h), bits);
    Seqs.FilterMember(Unacknowledged<T>(Max(h), bits), ring, e);
    if Max(h) < e.n <= Max(h) + SACK_WINDOW {
      assert Bits.Bit(bits, e.n - Max(h) - 1) <==> Max(h) - (e.n - Max(h) - 1) in h;
    }
  }

  // ---- the sender's ledger over whole runs ----

  /** What became of every number handed out: still pending, acknowledged, or evicted. */
  datatype Ledger<T> = Ledger(sent: nat, confirmed: set<int>, ring: seq<Entry<T>>, acked: set<int>, evicted: seq<int>)

  datatype SenderStep<T> = SendOk(item: T) | SendFailed | GotAck(frame: AckFrame)

  function EmptyLedger<T>(): Ledger<T> {
    Ledger(0, {}, [], {}, [])
  }

  ghost function Numbers<T>(ring: seq<Entry<T>>): set<int> {
    set e | e in ring :: e.n
  }

  /** One completed `send` or `on_ack`.  Every send takes a number, failed ones too. */
  ghost function After<T>(l: Ledger<T>, step: SenderStep<T>): Ledger<T> {
    match step
    case SendFailed => l.(sent := l.sent + 1)
    case SendOk(item) =>
      l.(sent := l.sent + 1,
         confirmed := l.confirmed + {l.sent},
         ring := AfterPush(l.ring, Entry(l.sent, item)),
         evicted := if |l.ring| >= CAPACITY then l.evicted + [l.ring[0].n] else l.evicted)
    case GotAck(f) =>
      l.(ring := AfterAck(l.ring, f),
         acked := l.acked + (Numbers(l.ring) - Numbers(AfterAck(l.ring, f))))
  }

  ghost function Run<T>(steps: seq<SenderStep<T>>): Ledger<T> {
    if steps == [] then EmptyLedger() else After(Run(steps[..|steps| - 1]), steps[|steps| - 1])
  }

  ghost predicate Increasing<T>(ring: seq<Entry<T>>) {
    forall i, j | 0 <= i < j < |ring| :: ring[i].n < ring[j].n
  }

  /** Nothing is lost and nothing is counted twice. */
  ghost predicate Balanced<T>(l: Ledger<T>) {
    && l.confirmed == Numbers(l.ring) + l.acked + (set n | n in l.evicted)
    && Numbers(l.ring) !! l.acked
    && (forall n | n in l.evicted :: n !in Numbers(l.ring) && n !in l.acked)
    && (forall i, j | 0 <= i < j < |l.evicted| :: l.evicted[i] < l.evicted[j])
    && (forall n | n in l.confirmed :: 0 <= n < l.sent)
    && |l.ring| <= CAPACITY
    && Increasing(l.ring)
    && (forall n, e | n in l.evicted && e in l.ring :: n < e.n)
  }

  lemma {:induction false} FilterIncreasing<T>(p: Entry<T> -> bool, ring: seq<Entry<T>>)
    requires Increasing(ring)
    ensures Increasing(Seqs.Filter(p, ring))
  {
    if ring != [] {
      var init := ring[..|ring| - 1];
      FilterIncreasing(p, init);
      var rest := Seqs.Filter(p, init);
      forall i | 0 <= i < |rest| ensures rest[i].n < ring[|ring| - 1].n {
        Seqs.FilterMember(p, init, rest[i]);
      }
    }
  }

  lemma PushBalanced<T>(l: Ledger<T>, item: T)
    requires Balanced(l)
    ensures Balanced(After(l, SendOk(item)))
  {
    var e := Entry(l.sent, item);
    forall x | x in l.ring ensures 0 <= x.n < l.sent { assert x.n in Numbers(l.ring); }
    if |l.ring| >= CAPACITY {
      EvictBalanced(l);
      AppendBalanced(Evict(l), item);
    } else {
      AppendBalanced(l, item);
    }
  }

  /** The first half of a push on a full ring: the oldest frame goes. */
  ghost function Evict<T>(l: Ledger<T>): Ledger<T>
    requires l.ring != []
  {
    l.(ring := l.ring[1..], evicted := l.evicted + [l.ring[0].n])
  }

  lemma EvictBalanced<T>(l: Ledger<T>)
    requires Balanced(l) && l.ring != []
    ensures Balanced(Evict(l))
  {
    NumbersFront(l.ring);
    FrontIsOldest(l);
    assert (set n | n in l.evicted + [l.ring[0].n]) == (set n | n in l.evicted) + {l.ring[0].n};
  }

  lemma FrontIsOldest<T>(l: Ledger<T>)
    requires Balanced(l) && l.ring != []
    ensures Increasing(l.ring[1..])
    ensures forall x | x in l.ring[1..] :: x in l.ring && l.ring[0].n < x.n
    ensures forall i | 0 <= i < |l.evicted| :: l.evicted[i] < l.ring[0].n
  {
    var rest := l.ring[1..];
    forall x | x in rest ensures x in l.ring && l.ring[0].n < x.n {
      var i :| 0 <= i < |rest| && rest[i] == x;
      assert l.ring[i + 1] == x;
    }
    forall i | 0 <= i < |l.evicted| ensures l.evicted[i] < l.ring[0].n {
      assert l.evicted[i] in l.evicted && l.ring[0] in l.ring;
    }
  }

  lemma NumbersFront<T>(ring: seq<Entry<T>>)
    requires ring != [] && Increasing(ring)
    ensures Numbers(ring) == {ring[0].n} + Numbers(ring[1..]) && ring[0].n !in Numbers(ring[1..])
    ensures ring[0] in ring
  {
    assert ring == [ring[0]] + ring[1..];
  }

  lemma AppendBalanced<T>(l: Ledger<T>, item: T)
    requires Balanced(l) && |l.ring| < CAPACITY
    ensures Balanced(After(l, SendOk(item)))
  {
    var e := Entry(l.sent, item);
    forall x | x in l.ring ensures 0 <= x.n < l.sent { assert x.n in Numbers(l.ring); }
    NumbersAppend(l.ring, e);
  }

  lemma NumbersAppend<T>(ring: seq<Entry<T>>, e: Entry<T>)
    ensures Numbers(ring + [e]) == Numbers(ring) + {e.n}
  {
    assert e in ring + [e];
    forall x | x in ring ensures x in ring + [e] {}
  }

  lemma AckBalanced<T>(l: Ledger<T>, f: AckFrame)
    requires Balanced(l)
    ensures Balanced(After(l, GotAck(f)))
  {
    var p := NotCovered<T>(f);
    Seqs.FilterShorter(p, l.ring);
    FilterIncreasing(p, l.ring);
    var kept := AfterAck(l.ring, f);
    forall e | e in kept ensures e in l.ring && e.n in Numbers(l.ring) { Seqs.FilterMember(p, l.ring, e); }
    assert Numbers(kept) <= Numbers(l.ring);
  }

  /** Conservation: after any run of sends and ACKs, every number whose send succeeded is
      pending, acknowledged or evicted, and only one of these; the ring is in order and
      within its bound; and evictions took the oldest pending frame each time. */
  lemma {:induction false} Conservation<T>(steps: seq<SenderStep<T>>)
    ensures Balanced(Run(steps))
  {
    if steps != [] {
      var l := Run(steps[..|steps| - 1]);
      Conservation(steps[..|steps| - 1]);
      match steps[|steps| - 1]
      case SendFailed =>
      case SendOk(item) => PushBalanced(l, item);
      case GotAck(f) => AckBalanced(l, f);
    }
  }

  function SendsIn<T>(steps: seq<SenderStep<T>>): nat {
    if steps == [] then 0 else SendsIn(steps[..|steps| - 1]) + (if steps[|steps| - 1].GotAck? then 0 else 1)
  }

  lemma {:induction false} SentCountsSends<T>(steps: seq<SenderStep<T>>)
    ensures Run(steps).sent == SendsIn(steps)
  {
    if steps != [] { SentCountsSends(steps[..|steps| - 1]); }
  }

  /** Step i of the run sent this frame, after as many sends as its number says. */
  ghost predicate SentAt<T>(steps: seq<SenderStep<T>>, i: nat, e: Entry<T>) {
    i < |steps| && steps[i].SendOk? && steps[i].item == e.item && SendsIn(steps[..i]) == e.n
  }

  /** The ring holds what was sent: every pending entry is the frame of the very send that
      took its number. */
  lemma {:induction false} RingHoldsWhatWasSent<T>(steps: seq<SenderStep<T>>, e: Entry<T>)
    requires e in Run(steps).ring
    ensures exists i: nat :: SentAt(steps, i, e)
  {
    var k := |steps| - 1;
    var init := steps[..k];
    if e in Run(init).ring {
      RingHoldsWhatWasSent(init, e);
      var i: nat :| SentAt(init, i, e);
      assert init[..i] == steps[..i];
      assert SentAt(steps, i, e);
    } else {
      if steps[k].GotAck? { Seqs.FilterMember(NotCovered<T>(steps[k].frame), Run(init).ring, e); }
      SentCountsSends(init);
      assert SentAt(steps, k, e);
    }
  }

  /** Every ACK of the run is truthful about what had been sent by then, bases[i] being the
      number its base word stands for.  A number whose send failed is nobody's claim. */
  ghost predicate TruthfulRun<T>(steps: seq<SenderStep<T>>, bases: seq<int>, received: iset<int>) {
    |bases| == |steps| && forall i | 0 <= i < |steps| && steps[i].GotAck? ::
      && steps[i].frame.ack == Wrap(bases[i])
      && TruthfulAbout(Run(steps[..i]).confirmed, bases[i], steps[i].frame.bitmap, received)
      && Spans(Run(steps[..i]).ring, bases[i])
  }

  /** An ACK truthful about what was sent acknowledges only what was received. */
  lemma AckedIsReceived<T>(l: Ledger<T>, a: int, bitmap: u128, received: iset<int>)
    requires Balanced(l) && Spans(l.ring, a) && TruthfulAbout(l.confirmed, a, bitmap, received)
    requires forall n | n in l.acked :: n in received
    ensures forall n | n in After(l, GotAck(AckFrame(Wrap(a), bitmap))).acked :: n in received
  {
    var f := AckFrame(Wrap(a), bitmap);
    forall e | e in l.ring && e !in AfterAck(l.ring, f) ensures e.n in received {
      assert e.n in Numbers(l.ring);
      AckIsSafe(l.ring, l.confirmed, a, bitmap, received, e);
    }
  }

  /** Under truthful ACKs a frame leaves the sender's books only if the peer has it or the
      full ring pushed it out: what was sent is received, still pending, or evicted. */
  lemma {:induction false} NothingForgotten<T>(steps: seq<SenderStep<T>>, bases: seq<int>, received: iset<int>)
    requires TruthfulRun(steps, bases, received)
    ensures forall n | n in Run(steps).acked :: n in received
    ensures forall n | n in Run(steps).confirmed ::
      n in received || n in Numbers(Run(steps).ring) || n in Run(steps).evicted
  {
    Conservation(steps);
    if steps != [] {
      var init := steps[..|steps| - 1];
      forall i | 0 <= i < |init| ensures init[..i] == steps[..i] {}
      NothingForgotten(init, bases[..|init|], received);
      Conservation(init);
      if steps[|steps| - 1].GotAck? {
        var f := steps[|steps| - 1].frame;
        assert f == AckFrame(Wrap(bases[|init|]), f.bitmap);
        AckedIsReceived(Run(init), bases[|init|], f.bitmap, received);
      }
    }
  }
}
