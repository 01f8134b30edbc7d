/** Health of one physical link: fixed-point averages, the score used to rank links, and
    the verdict that takes a link out of service. */
module LinkHealth {
  import opened Words

  datatype TransportKind = Ble | Tcp | Ipc | Mock

  function AsWire(k: TransportKind): string {
    match k case Ble => "ble" case Tcp => "tcp" case Ipc => "ipc" case Mock => "mock"
  }

  const EMA_DIVISOR := 8
  const ERR_MAX := 1000
  const LINK_STALE_MS := 5000
  const LINK_UNHEALTHY_ERR_MILLI := 500
  const I64_MAX := 0x7FFF_FFFF_FFFF_FFFF
  const I64_MIN := -0x8000_0000_0000_0000

  datatype Health = Health(rttEmaUs: u32, errRateMilli: u16, lastOkAtMs: u64, inflight: u16)

  const FRESH := Health(0, 0, 0, 0)

  function Clamp(x: int, lo: int, hi: int): int
    requires lo <= hi
  {
    if x < lo then lo else if x > hi then hi else x
  }

  /** `diff >> 3` rounds towards minus infinity, as division by 8 does here. */
  function EmaU32(prev: u32, sample: u32): u32 {
    if prev == 0 then sample
    else Clamp(prev + (sample - prev) / EMA_DIVISOR, 0, TWO32 - 1)
  }

  function EmaErr(prev: u16, sample: u16): u16 {
    Clamp(prev + (sample - prev) / EMA_DIVISOR, 0, ERR_MAX)
  }

  function SaturateI64(x: int): int {
    Clamp(x, I64_MIN, I64_MAX)
  }

  /** Division of i64, which truncates towards zero. */
  function TruncatingDiv(x: int, d: int): int
    requires d > 0
  {
    if x >= 0 then x / d else -((-x) / d)
  }

  function ScoreFrom(throughputBps: u64, h: Health): int {
    var tp := if throughputBps < I64_MAX then throughputBps else I64_MAX;
    var base := TruncatingDiv(SaturateI64(tp * (1000 - h.errRateMilli)), 1000);
    SaturateI64(base - h.rttEmaUs / 10)
  }

  predicate HealthyAt(h: Health, nowMs: u64) {
    && h.errRateMilli < LINK_UNHEALTHY_ERR_MILLI
    && !(h.rttEmaUs > 0 && nowMs - h.lastOkAtMs >= LINK_STALE_MS)
  }

  /** What a link records: a round trip of so many microseconds, a success, or an error. */
  datatype Sample = Rtt(us: u32) | Success | Error

  function Recorded(h: Health, s: Sample, nowMs: u64): Health {
    match s
    case Rtt(us) =>
      h.(rttEmaUs := EmaU32(h.rttEmaUs, us), errRateMilli := EmaErr(h.errRateMilli, 0), lastOkAtMs := nowMs)
    case Success => h.(errRateMilli := EmaErr(h.errRateMilli, 0), lastOkAtMs := nowMs)
    case Error => h.(errRateMilli := EmaErr(h.errRateMilli, 1000))
  }

  class Link {
    const id: string
    const kind: TransportKind
    const throughputBps: u64
    const createdAtMs: nat
    var health: Health
    /** Every write tried on the connection, with its outcome. */
    ghost var log: seq<(seq<byte>, bool)>

    constructor (id: string, kind: TransportKind, throughputBps: u64, createdAtMs: nat)
      ensures this.id == id && this.kind == kind && this.throughputBps == throughputBps
      ensures this.createdAtMs == createdAtMs && health == FRESH && log == []
    {
      this.id, this.kind, this.throughputBps, this.createdAtMs := id, kind, throughputBps, createdAtMs;
      health := FRESH;
      log := [];
    }

    function NowMs(clock: nat): u64 {
      if clock < createdAtMs then 0 else (clock - createdAtMs) % TWO64
    }

    /** From the link's creation on its clock runs with the world's, until the milliseconds
        no longer fit 64 bits. */
    lemma ClockRuns(earlier: nat, later: nat)
      requires createdAtMs <= earlier <= later < createdAtMs + TWO64
      ensures NowMs(createdAtMs) == 0 && NowMs(later) - NowMs(earlier) == later - earlier
    {
    }

    function Score(): int
      reads this
    {
      ScoreFrom(throughputBps, health)
    }

    predicate IsHealthy(clock: nat)
      reads this
    {
      HealthyAt(health, NowMs(clock))
    }

    method RecordRtt(us: u32, clock: nat)
      modifies this`health
      ensures health == Recorded(old(health), Rtt(us), NowMs(clock))
    {
      health := health.(rttEmaUs := EmaU32(health.rttEmaUs, us));
      health := health.(errRateMilli := EmaErr(health.errRateMilli, 0));
      health := health.(lastOkAtMs := NowMs(clock));
    }

    method RecordSuccess(clock: nat)
      modifies this`health
      ensures health == Recorded(old(health), Success, NowMs(clock))
    {
      health := health.(errRateMilli := EmaErr(health.errRateMilli, 0));
      health := health.(lastOkAtMs := NowMs(clock));
    }

    method RecordError(clock: nat)
      modifies this`health
      ensures health == Recorded(old(health), Error, NowMs(clock))
    {
      health := health.(errRateMilli := EmaErr(health.errRateMilli, 1000));
    }

    /** One write on the connection; `accepted` is the transport's answer. */
    method Send(bytes: seq<byte>, accepted: bool, clock: nat) returns (ok: bool)
      modifies this
      ensures ok == accepted
      ensures log == old(log) + [(bytes, accepted)]
      ensures health == Recorded(old(health), if accepted then Success else Error, NowMs(clock))
    {
      log := log + [(bytes, accepted)];
      if accepted {
        RecordSuccess(clock);
      } else {
        RecordError(clock);
      }
      return accepted;
    }
  }

  // ---- whole histories of a link ----

  /** A link's health after the samples, each with the link's own clock reading. */
  function HealthAfter(h: Health, samples: seq<(Sample, u64)>): Health {
    if samples == [] then h
    else
      var (s, now) := samples[|samples| - 1];
      Recorded(HealthAfter(h, samples[..|samples| - 1]), s, now)
  }

  /** A link that starts fresh never gets above 993 per mille: the average stalls there. */
  lemma {:induction false} ErrorRateCeiling(samples: seq<(Sample, u64)>)
    ensures HealthAfter(FRESH, samples).errRateMilli <= 993
  {
    if samples != [] { ErrorRateCeiling(samples[..|samples| - 1]); }
  }

  /** Below the ceiling an error always raises the rate, above zero a success always
      lowers it, and at the two ends nothing moves. */
  lemma ErrorRateMoves(e: u16)
    requires e <= 993
    ensures EmaErr(e, 1000) > e <==> e < 993
    ensures EmaErr(e, 1000) <= 993
    ensures EmaErr(e, 0) < e <==> e > 0
  {
  }

  function Repeat(e: u16, sample: u16, k: nat): u16 {
    if k == 0 then e else EmaErr(Repeat(e, sample, k - 1), sample)
  }

  /** More errors seen, or a worse start, never make a better average. */
  lemma {:induction false} RepeatMonotone(e: u16, f: u16, sample: u16, k: nat)
    requires e <= f
    ensures Repeat(e, sample, k) <= Repeat(f, sample, k)
  {
    if k > 0 { RepeatMonotone(e, f, sample, k - 1); }
  }

  lemma SixFromTheEnds()
    ensures Repeat(0, 1000, 5) == 485 && Repeat(0, 1000, 6) == 549
    ensures Repeat(1000, 0, 5) == 511 && Repeat(1000, 0, 6) == 447
  {
    assert Repeat(0, 1000, 1) == 125 && Repeat(0, 1000, 2) == 234 && Repeat(0, 1000, 3) == 329;
    assert Repeat(0, 1000, 4) == 412 && Repeat(0, 1000, 5) == 485;
    assert Repeat(1000, 0, 1) == 875 && Repeat(1000, 0, 2) == 765 && Repeat(1000, 0, 3) == 669;
    assert Repeat(1000, 0, 4) == 585 && Repeat(1000, 0, 5) == 511;
  }

  /** Six errors in a row push any link over the limit and six successes bring any link
      under it; five of either do not always. */
  lemma SixInARow(e: u16)
    requires e <= ERR_MAX
    ensures Repeat(e, 1000, 6) >= LINK_UNHEALTHY_ERR_MILLI
    ensures Repeat(e, 0, 6) < LINK_UNHEALTHY_ERR_MILLI
    ensures Repeat(0, 1000, 5) < LINK_UNHEALTHY_ERR_MILLI <= Repeat(1000, 0, 5)
  {
    SixFromTheEnds();
    RepeatMonotone(0, e, 1000, 6);
    RepeatMonotone(e, 1000, 0, 6);
  }

  /** Enough successes forget every error: the rate falls at least one per success. */
  lemma {:induction false} SuccessesReachZero(e: u16, k: nat)
    requires e <= ERR_MAX
    ensures Repeat(e, 0, k) <= if k < e then e - k else 0
  {
    if k > 0 { SuccessesReachZero(e, k - 1); }
  }

  lemma {:induction false} RunOfOne(h: Health, samples: seq<(Sample, u64)>, sample: Sample)
    requires !sample.Rtt? && forall i | 0 <= i < |samples| :: samples[i].0 == sample
    ensures HealthAfter(h, samples).errRateMilli
        == Repeat(h.errRateMilli, if sample == Error then 1000 else 0, |samples|)
    ensures HealthAfter(h, samples).rttEmaUs == h.rttEmaUs
    ensures sample == Success && samples != [] ==> HealthAfter(h, samples).lastOkAtMs == samples[|samples| - 1].1
  {
    if samples != [] { RunOfOne(h, samples[..|samples| - 1], sample); }
  }

  /** Whatever happened before, six failed operations in a row take a link out of service
      at every later instant until it records something better; six good ones return it to
      service for five seconds after the last. */
  lemma ServiceTurnsInSix(before: seq<(Sample, u64)>, streak: seq<(Sample, u64)>, sample: Sample, now: u64)
    requires |streak| == 6 && !sample.Rtt? && forall i | 0 <= i < 6 :: streak[i].0 == sample
    ensures var h := HealthAfter(FRESH, before + streak);
            && (sample == Error ==> !HealthyAt(h, now))
            && (sample == Success && now < streak[5].1 + LINK_STALE_MS ==> HealthyAt(h, now))
  {
    var mid := HealthAfter(FRESH, before);
    ErrorRateCeiling(before);
    HistoryConcat(FRESH, before, streak);
    RunOfOne(mid, streak, sample);
    SixInARow(mid.errRateMilli);
  }

  lemma {:induction false} HistoryConcat(h: Health, a: seq<(Sample, u64)>, b: seq<(Sample, u64)>)
    ensures HealthAfter(h, a + b) == HealthAfter(HealthAfter(h, a), b)
  {
    if b == [] {
      assert a + b == a;
    } else {
      assert (a + b)[..|a + b| - 1] == a + b[..|b| - 1];
      HistoryConcat(h, a, b[..|b| - 1]);
    }
  }

  /** The round-trip samples of a history. */
  predicate RttsWithin(samples: seq<(Sample, u64)>, lo: u32, hi: u32) {
    forall i | 0 <= i < |samples| && samples[i].0.Rtt? :: lo <= samples[i].0.us <= hi
  }

  predicate HasRtt(samples: seq<(Sample, u64)>) {
    exists i :: 0 <= i < |samples| && samples[i].0.Rtt?
  }

  /** The round-trip average never leaves the range of the samples recorded: it lies within
      every interval that holds them all, and is zero before the first. */
  lemma {:induction false} RttWithinSamples(samples: seq<(Sample, u64)>, lo: u32, hi: u32)
    requires RttsWithin(samples, lo, hi)
    ensures HasRtt(samples) ==> lo <= HealthAfter(FRESH, samples).rttEmaUs <= hi
    ensures !HasRtt(samples) ==> HealthAfter(FRESH, samples).rttEmaUs == 0
  {
    if samples != [] {
      var init := samples[..|samples| - 1];
      RttWithinSamples(init, lo, hi);
      if HasRtt(init) { assert HasRtt(samples); }
      if samples[|samples| - 1].0.Rtt? { assert HasRtt(samples); }
    }
  }

  /** Upward the average is deaf: a sample less than 8 us above it changes nothing, while
      any sample below it lowers it. */
  lemma RttStallsUpwards(prev: u32, sample: u32)
    requires prev > 0
    ensures EmaU32(prev, sample) == prev <==> 0 <= sample - prev < EMA_DIVISOR
    ensures EmaU32(prev, sample) < prev <==> sample < prev
  {
  }

  lemma ProductMonotone(tp: int, a: int, b: int)
    requires tp >= 0 && a <= b
    ensures tp * a <= tp * b
  {
  }

  lemma PerMilleMonotone(a: int, b: int)
    requires a <= b
    ensures TruncatingDiv(a, 1000) <= TruncatingDiv(b, 1000)
  {
  }

  /** The bits per second a link carries in effect, in whole thousandths of the product. */
  function Effective(throughputBps: u64, errRateMilli: u16): int
    requires errRateMilli <= ERR_MAX
  {
    var product := throughputBps * (1000 - errRateMilli);
    (if product < I64_MAX then product else I64_MAX) / 1000
  }

  /** The score is the throughput in effect less a tenth of the round trip: the two clamps
      of the throughput and of the product come to one. */
  lemma ScoreIsEffective(throughputBps: u64, h: Health)
    requires h.errRateMilli <= ERR_MAX
    ensures ScoreFrom(throughputBps, h) == Effective(throughputBps, h.errRateMilli) - h.rttEmaUs / 10
  {
    var tp, f := if throughputBps < I64_MAX then throughputBps else I64_MAX, 1000 - h.errRateMilli;
    if f == 0 {
      assert tp * f == 0 && throughputBps * f == 0;
    } else {
      ProductAtLeast(I64_MAX, f);
      ProductMonotone(f, tp, throughputBps);
      if throughputBps >= I64_MAX { ProductMonotone(f, I64_MAX, throughputBps); }
      ProductAtLeast(tp, f);
    }
  }

  lemma ProductAtLeast(tp: int, f: int)
    requires tp >= 0 && f >= 1
    ensures tp * f >= tp
  {
    ProductMonotone(tp, 1, f);
  }

  /** At equal health more throughput never ranks lower, and it ranks strictly higher exactly
      if more is carried in effect. */
  lemma ThroughputRanks(less: u64, more: u64, h: Health)
    requires less <= more && h.errRateMilli <= ERR_MAX
    ensures ScoreFrom(less, h) <= ScoreFrom(more, h)
    ensures ScoreFrom(less, h) < ScoreFrom(more, h)
            <==> Effective(less, h.errRateMilli) < Effective(more, h.errRateMilli)
  {
    ScoreIsEffective(less, h);
    ScoreIsEffective(more, h);
    EffectiveMonotone(less, more, h.errRateMilli);
  }

  lemma EffectiveMonotone(less: u64, more: u64, errRateMilli: u16)
    requires less <= more && errRateMilli <= ERR_MAX
    ensures Effective(less, errRateMilli) <= Effective(more, errRateMilli)
  {
    ProductMonotone(1000 - errRateMilli, less, more);
  }

  /** For a link in service two bits per second more are enough, short of the saturation of
      an i64. */
  lemma TwoMoreRanksHigher(less: u64, more: u64, h: Health)
    requires h.errRateMilli < LINK_UNHEALTHY_ERR_MILLI && less + 2 <= more
    requires more * (1000 - h.errRateMilli) <= I64_MAX
    ensures ScoreFrom(less, h) < ScoreFrom(more, h)
  {
    ThroughputRanks(less, more, h);
    AThousandMore(less, more, 1000 - h.errRateMilli);
  }

  lemma AThousandMore(less: int, more: int, f: int)
    requires 0 <= less && less + 2 <= more && f >= 501
    ensures less * f >= 0 && less * f + 1000 <= more * f
  {
    ProductMonotone(f, less + 2, more);
    ProductMonotone(f, 0, less);
    Distribute(less, f);
  }

  lemma Distribute(a: int, f: int)
    ensures (a + 2) * f == a * f + 2 * f
  {
  }

  // ---- silence ----

  predicate AllErrors(samples: seq<(Sample, u64)>) {
    forall i | 0 <= i < |samples| :: samples[i].0 == Error
  }

  lemma {:induction false} ErrorsKeepTimes(h: Health, samples: seq<(Sample, u64)>)
    requires AllErrors(samples)
    ensures HealthAfter(h, samples).lastOkAtMs == h.lastOkAtMs && HealthAfter(h, samples).rttEmaUs == h.rttEmaUs
  {
    if samples != [] { ErrorsKeepTimes(h, samples[..|samples| - 1]); }
  }

  /** A link that once measured a round trip goes out of service five seconds after the last
      good thing it recorded, not before; one that never did is judged by its errors alone. */
  lemma SilenceTurnsOff(before: seq<(Sample, u64)>, ok: (Sample, u64), errors: seq<(Sample, u64)>, now: u64)
    requires ok.0 != Error && AllErrors(errors) && RttsWithin(before + [ok], 1, TWO32 - 1)
    ensures var h := HealthAfter(FRESH, before + [ok] + errors);
            HealthyAt(h, now) <==> h.errRateMilli < 500 && (HasRtt(before + [ok]) ==> now < ok.1 + 5000)
  {
    var good := before + [ok];
    HistoryConcat(FRESH, good, errors);
    ErrorsKeepTimes(HealthAfter(FRESH, good), errors);
    RttWithinSamples(good, 1, TWO32 - 1);
    assert good[..|good| - 1] == before;
  }

  /** No link gets a better score by failing more or answering slower. */
  lemma ScoreMonotone(throughputBps: u64, better: Health, worse: Health)
    requires better.errRateMilli <= worse.errRateMilli && better.rttEmaUs <= worse.rttEmaUs
    ensures ScoreFrom(throughputBps, worse) <= ScoreFrom(throughputBps, better)
  {
    var tp := if throughputBps < I64_MAX then throughputBps else I64_MAX;
    var a, b := tp * (1000 - worse.errRateMilli), tp * (1000 - better.errRateMilli);
    ProductMonotone(tp, 1000 - worse.errRateMilli, 1000 - better.errRateMilli);
    PerMilleMonotone(SaturateI64(a), SaturateI64(b));
  }
}
