/** The reconnect policy: five minutes of growing delays, thirty minutes of steady ones,
    then nothing.  Times are milliseconds on a clock that never runs backwards. */
module Reconnect {
  import opened Words
  import opened Wrappers
  import Bits

  const SECOND := 1000
  const FOREGROUND_MAX_DELAY := 60 * SECOND
  const FOREGROUND_DURATION := 300 * SECOND
  const BACKGROUND_INTERVAL := 120 * SECOND
  const BACKGROUND_DURATION := 1800 * SECOND

  datatype Mode = Foreground | Background

  datatype State = State(mode: Mode, attempt: u32, startedAt: nat, lastAttempt: Option<nat>,
      backgroundStartedAt: Option<nat>)

  function Fresh(now: nat): State {
    State(Foreground, 0, now, None, None)
  }

  /** `1 << (attempt - 1)` seconds, capped; a shift of 64 or more gives the cap as well. */
  function ForegroundDelay(attempt: u32): nat {
    if attempt == 0 then 0
    else Min(if attempt - 1 < 64 then Bits.Pow2(attempt - 1) * SECOND else (TWO64 - 1) * SECOND, FOREGROUND_MAX_DELAY)
  }

  function Bumped(attempt: u32): u32 {
    if attempt < TWO32 - 1 then attempt + 1 else attempt
  }

  /** One call: the phase it finds, and the delay it returns if it has not given up. */
  datatype Answer = Retry(mode: Mode, delay: nat) | GiveUp

  /** The phase a call finds: five minutes in, the foreground phase is over. */
  function Switched(s: State, now: nat): State {
    if s.mode == Foreground && now - s.startedAt >= FOREGROUND_DURATION
    then s.(mode := Background, attempt := 0, backgroundStartedAt := Some(now))
    else s
  }

  function BackgroundStart(s: State, now: nat): nat {
    if s.backgroundStartedAt.Some? then s.backgroundStartedAt.value else now
  }

  function Call(s: State, now: nat): (State, Answer) {
    var s := Switched(s, now);
    var a :=
      if s.mode == Foreground then Retry(Foreground, ForegroundDelay(s.attempt))
      else if now - BackgroundStart(s, now) >= BACKGROUND_DURATION then GiveUp
      else Retry(Background, BACKGROUND_INTERVAL);
    (if a.Retry? then s.(attempt := Bumped(s.attempt), lastAttempt := Some(now)) else s, a)
  }

  class ReconnectPolicy {
    var state: State

    constructor (now: nat)
      ensures state == Fresh(now)
    {
      state := Fresh(now);
    }

    method NextDelay(now: nat) returns (delay: Option<nat>)
      modifies this
      ensures state == Call(old(state), now).0
      ensures delay == match Call(old(state), now).1 case Retry(_, d) => Some(d) case GiveUp => None
    {
      if state.mode == Foreground && now - state.startedAt >= FOREGROUND_DURATION {
        state := state.(mode := Background);
        state := state.(attempt := 0);
        state := state.(backgroundStartedAt := Some(now));
      }
      match state.mode {
        case Foreground =>
          delay := Some(ForegroundDelay(state.attempt));
        case Background =>
          if now - BackgroundStart(state, now) >= BACKGROUND_DURATION {
            delay := None;
          } else {
            delay := Some(BACKGROUND_INTERVAL);
          }
      }
      if delay.Some? {
        state := state.(attempt := Bumped(state.attempt));
        state := state.(lastAttempt := Some(now));
      }
    }

    method Reset(now: nat)
      modifies this
      ensures state == Fresh(now)
    {
      state := Fresh(now);
    }
  }

  // ---- whole runs ----

  function Answers(s: State, times: seq<nat>): (r: seq<Answer>)
    ensures |r| == |times|
    decreases |times|
  {
    if times == [] then []
    else
      var (s', a) := Call(s, times[0]);
      [a] + Answers(s', times[1..])
  }

  function Wait(a: Answer): nat {
    match a case Retry(_, d) => d case GiveUp => 0
  }

  /** The caller first calls no earlier than `earliest`, and then waits out every delay it
      is given. */
  predicate Patient(s: State, earliest: nat, times: seq<nat>)
    decreases |times|
  {
    times != [] ==>
      && times[0] >= earliest
      && Patient(Call(s, times[0]).0, times[0] + Wait(Call(s, times[0]).1), times[1..])
  }

  function Count(answers: seq<Answer>, m: Mode): nat {
    if answers == [] then 0
    else (if answers[0].Retry? && answers[0].mode == m then 1 else 0) + Count(answers[1..], m)
  }

  /** The time the first k foreground delays add up to. */
  function Waited(k: nat): nat
    requires k < TWO32
  {
    if k == 0 then 0 else Waited(k - 1) + ForegroundDelay(k - 1)
  }

  lemma SmallPowers()
    ensures Bits.Pow2(0) == 1 && Bits.Pow2(1) == 2 && Bits.Pow2(2) == 4 && Bits.Pow2(3) == 8
    ensures Bits.Pow2(4) == 16 && Bits.Pow2(5) == 32 && Bits.Pow2(6) == 64
  {
  }

  lemma CappedDelay(attempt: u32)
    requires attempt >= 7
    ensures ForegroundDelay(attempt) == FOREGROUND_MAX_DELAY
  {
    SmallPowers();
    if attempt - 1 < 64 { Bits.Pow2Monotone(6, attempt - 1); }
  }

  lemma FirstDelays()
    ensures ForegroundDelay(0) == 0 && ForegroundDelay(1) == 1 * SECOND && ForegroundDelay(2) == 2 * SECOND
    ensures ForegroundDelay(3) == 4 * SECOND && ForegroundDelay(4) == 8 * SECOND
    ensures ForegroundDelay(5) == 16 * SECOND && ForegroundDelay(6) == 32 * SECOND
  {
    SmallPowers();
  }

  /** The eleven foreground delays: 0, 1, 2, 4, 8, 16, 32 seconds and then a minute each;
      before the last they stay within five minutes and with it they exceed them. */
  lemma ElevenDelays()
    ensures Waited(10) == 243 * SECOND && Waited(11) == 303 * SECOND
  {
    FirstDelays();
    CappedDelay(7);
    CappedDelay(8);
    CappedDelay(9);
    CappedDelay(10);
    assert Waited(1) == 0 && Waited(2) == 1 * SECOND && Waited(3) == 3 * SECOND;
    assert Waited(4) == 7 * SECOND && Waited(5) == 15 * SECOND && Waited(6) == 31 * SECOND;
    assert Waited(7) == 63 * SECOND && Waited(8) == 123 * SECOND && Waited(9) == 183 * SECOND;
  }

  lemma {:induction false} WaitedGrows(j: nat, k: nat)
    requires j <= k < TWO32
    ensures Waited(j) <= Waited(k)
  {
    if j < k { WaitedGrows(j, k - 1); }
  }

  /** Where a patient caller can be: `earliest` is the earliest time of its next call. */
  ghost predicate OnSchedule(s: State, earliest: nat) {
    if s.mode == Foreground then
      s.attempt <= 11 && earliest >= s.startedAt + Waited(s.attempt)
    else
      && s.attempt <= 15 && s.backgroundStartedAt.Some?
      && earliest >= s.backgroundStartedAt.value + BACKGROUND_INTERVAL * s.attempt
  }

  lemma ForegroundKept(s: State, earliest: nat, now: nat)
    requires s.mode == Foreground && OnSchedule(s, earliest) && now >= earliest
    ensures var (s', a) := Call(s, now);
            && OnSchedule(s', now + Wait(a))
            && a.Retry? && s'.mode == a.mode
            && s'.attempt == if a.mode == Foreground then s.attempt + 1 else 1
  {
    ElevenDelays();
  }

  lemma BackgroundKept(s: State, earliest: nat, now: nat)
    requires s.mode == Background && OnSchedule(s, earliest) && now >= earliest
    ensures var (s', a) := Call(s, now);
            && OnSchedule(s', now + Wait(a))
            && s'.mode == Background && (a.Retry? ==> a.mode == Background)
            && s'.attempt == s.attempt + (if a.Retry? then 1 else 0)
  {
  }

  lemma ScheduleKept(s: State, earliest: nat, now: nat)
    requires OnSchedule(s, earliest) && now >= earliest
    ensures var (s', a) := Call(s, now);
            && OnSchedule(s', now + Wait(a))
            && (a.Retry? ==> s'.mode == a.mode)
            && (a.Retry? && s.mode == Foreground ==> s'.attempt == if a.mode == Foreground then s.attempt + 1 else 1)
            && (s.mode == Background ==> s'.mode == Background && s'.attempt == s.attempt + (if a.Retry? then 1 else 0))
  {
    if s.mode == Foreground { ForegroundKept(s, earliest, now); } else { BackgroundKept(s, earliest, now); }
  }

  /** A patient caller is given at most eleven foreground delays and fifteen background
      ones -- 26 in all -- from the start. */
  lemma {:induction false} AtMostTwentySix(s: State, earliest: nat, times: seq<nat>)
    requires OnSchedule(s, earliest) && Patient(s, earliest, times)
    ensures var answers := Answers(s, times);
            if s.mode == Foreground
            then Count(answers, Foreground) <= 11 - s.attempt && Count(answers, Background) <= 15
            else Count(answers, Foreground) == 0 && Count(answers, Background) <= 15 - s.attempt
    decreases |times|
  {
    if times != [] {
      var (s', a) := Call(s, times[0]);
      ScheduleKept(s, earliest, times[0]);
      AtMostTwentySix(s', times[0] + Wait(a), times[1..]);
      assert Answers(s, times)[1..] == Answers(s', times[1..]);
    }
  }

  lemma FreshBudget(start: nat, times: seq<nat>)
    requires Patient(Fresh(start), start, times)
    ensures var answers := Answers(Fresh(start), times);
            Count(answers, Foreground) <= 11 && Count(answers, Background) <= 15
  {
    AtMostTwentySix(Fresh(start), start, times);
  }

  predicate Nondecreasing(times: seq<nat>) {
    forall i, j | 0 <= i < j < |times| :: times[i] <= times[j]
  }

  /** Whether or not the caller waits: once the policy has given up it never retries. */
  lemma {:induction false} GivesUpForGood(s: State, times: seq<nat>, i: nat, j: nat)
    requires Nondecreasing(times) && i <= j < |times|
    requires Answers(s, times)[i] == GiveUp
    ensures Answers(s, times)[j] == GiveUp
    decreases |times|
  {
    var (s', a) := Call(s, times[0]);
    if i > 0 {
      GivesUpForGood(s', times[1..], i - 1, j - 1);
    } else if j > 0 {
      GivenUpStays(s', times[0], times[1..], j - 1);
    }
  }

  lemma {:induction false} GivenUpStays(s: State, since: nat, times: seq<nat>, j: nat)
    requires s.mode == Background && s.backgroundStartedAt.Some?
        && since - s.backgroundStartedAt.value >= BACKGROUND_DURATION
    requires Nondecreasing(times) && j < |times| && times[0] >= since
    ensures Answers(s, times)[j] == GiveUp
    decreases |times|
  {
    if j > 0 { GivenUpStays(s, since, times[1..], j - 1); }
  }

  /** The delays a caller on schedule can still be given. */
  function Budget(s: State): int {
    if s.mode == Foreground then 26 - s.attempt else 15 - s.attempt
  }

  lemma {:induction false} PatientIsOrdered(s: State, earliest: nat, times: seq<nat>)
    requires Patient(s, earliest, times)
    ensures Nondecreasing(times) && forall i | 0 <= i < |times| :: earliest <= times[i]
    decreases |times|
  {
    if times != [] {
      var (s', a) := Call(s, times[0]);
      PatientIsOrdered(s', times[0] + Wait(a), times[1..]);
      forall i | 0 < i < |times| ensures times[0] <= times[i] { assert times[i] == times[1..][i - 1]; }
      forall i, j | 0 < i < j < |times| ensures times[i] <= times[j] {
        assert times[i] == times[1..][i - 1] && times[j] == times[1..][j - 1];
      }
    }
  }

  lemma {:induction false} BudgetRunsOut(s: State, earliest: nat, times: seq<nat>, j: nat)
    requires OnSchedule(s, earliest) && Patient(s, earliest, times) && Budget(s) <= j < |times|
    ensures Answers(s, times)[j] == GiveUp
    decreases |times|
  {
    var (s', a) := Call(s, times[0]);
    ScheduleKept(s, earliest, times[0]);
    if a == GiveUp {
      PatientIsOrdered(s, earliest, times);
      GivesUpForGood(s, times, 0, j);
    } else {
      assert 0 <= Budget(s') < Budget(s);
      BudgetRunsOut(s', times[0] + Wait(a), times[1..], j - 1);
    }
  }

  /** The 27th call of a caller that waits out its delays, and every later one, is told to
      give up. */
  lemma TwentySeventhGivesUp(start: nat, times: seq<nat>, j: nat)
    requires Patient(Fresh(start), start, times) && 26 <= j < |times|
    ensures Answers(Fresh(start), times)[j] == GiveUp
  {
    BudgetRunsOut(Fresh(start), start, times, j);
  }

  lemma DelayGrows(a: u32, b: u32)
    requires a <= b
    ensures ForegroundDelay(a) <= ForegroundDelay(b) <= FOREGROUND_MAX_DELAY
  {
    if a > 0 && b - 1 < 64 { Bits.Pow2Monotone(a - 1, b - 1); }
    if a > 0 && a - 1 < 64 <= b - 1 { CappedDelay(b); }
  }

  /** Foreground delays never shrink and never exceed a minute, and none follows a
      background delay. */
  lemma {:induction false} DelaysInOrder(s: State, times: seq<nat>, i: nat, j: nat)
    requires i <= j < |times|
    ensures var answers := Answers(s, times);
            answers[j].Retry? && answers[j].mode == Foreground ==>
              && (s.mode == Foreground && answers[j].delay >= ForegroundDelay(s.attempt))
              && answers[j].delay <= FOREGROUND_MAX_DELAY
              && (answers[i].Retry? ==> answers[i].mode == Foreground && answers[i].delay <= answers[j].delay)
    decreases |times|
  {
    var (s', a) := Call(s, times[0]);
    DelayGrows(s.attempt, Bumped(s.attempt));
    if j > 0 {
      DelaysInOrder(s', times[1..], if i > 0 then i - 1 else 0, j - 1);
    }
  }

  // ---- the bound is reached ----

  /** The times of a caller that comes back the moment each delay ends, k calls in all. */
  function Prompt(s: State, now: nat, k: nat): (times: seq<nat>)
    ensures |times| == k && (k > 0 ==> times[0] == now)
    decreases k
  {
    if k == 0 then []
    else
      var (s', a) := Call(s, now);
      [now] + Prompt(s', now + Wait(a), k - 1)
  }

  lemma {:induction false} PromptIsPatient(s: State, now: nat, k: nat)
    ensures Patient(s, now, Prompt(s, now, k))
    decreases k
  {
    if k > 0 {
      var (s', a) := Call(s, now);
      PromptIsPatient(s', now + Wait(a), k - 1);
      assert Prompt(s, now, k)[1..] == Prompt(s', now + Wait(a), k - 1);
    }
  }

  /** How many delays of a phase a prompt caller gets in k calls. */
  function Taken(s: State, now: nat, k: nat, m: Mode): nat
    decreases k
  {
    if k == 0 then 0
    else
      var (s', a) := Call(s, now);
      (if a.Retry? && a.mode == m then 1 else 0) + Taken(s', now + Wait(a), k - 1, m)
  }

  lemma {:induction false} TakenCounts(s: State, now: nat, k: nat, m: Mode)
    ensures Taken(s, now, k, m) == Count(Answers(s, Prompt(s, now, k)), m)
    decreases k
  {
    if k > 0 {
      var (s', a) := Call(s, now);
      TakenCounts(s', now + Wait(a), k - 1, m);
      assert Prompt(s, now, k)[1..] == Prompt(s', now + Wait(a), k - 1);
      assert Answers(s, Prompt(s, now, k))[1..] == Answers(s', Prompt(s', now + Wait(a), k - 1));
    }
  }

  lemma BackgroundCall(s: State, now: nat)
    requires s.mode == Background && s.attempt < 15 && s.backgroundStartedAt.Some?
    requires now == s.backgroundStartedAt.value + BACKGROUND_INTERVAL * s.attempt
    ensures Call(s, now)
            == (s.(attempt := s.attempt + 1, lastAttempt := Some(now)), Retry(Background, BACKGROUND_INTERVAL))
  {
  }

  lemma {:induction false} PromptBackground(s: State, now: nat, k: nat, m: Mode)
    requires s.mode == Background && s.attempt <= 15 && s.backgroundStartedAt.Some?
    requires now == s.backgroundStartedAt.value + BACKGROUND_INTERVAL * s.attempt && k + s.attempt <= 15
    ensures Taken(s, now, k, m) == if m == Background then k else 0
    decreases k
  {
    if k > 0 {
      BackgroundCall(s, now);
      PromptBackground(s.(attempt := s.attempt + 1, lastAttempt := Some(now)), now + BACKGROUND_INTERVAL, k - 1, m);
    }
  }

  lemma PromptTurnsToBackground(s: State, now: nat, k: nat, m: Mode)
    requires s.mode == Foreground && now - s.startedAt >= FOREGROUND_DURATION && 0 < k <= 15
    ensures Taken(s, now, k, m) == if m == Foreground then 0 else k
  {
    var s' := s.(mode := Background, attempt := 1, lastAttempt := Some(now), backgroundStartedAt := Some(now));
    assert Call(s, now) == (s', Retry(Background, BACKGROUND_INTERVAL));
    PromptBackground(s', now + BACKGROUND_INTERVAL, k - 1, m);
  }

  lemma ForegroundCall(s: State, now: nat)
    requires s.mode == Foreground && s.attempt < TWO32 - 1 && s.startedAt <= now < s.startedAt + FOREGROUND_DURATION
    ensures Call(s, now)
            == (s.(attempt := s.attempt + 1, lastAttempt := Some(now)), Retry(Foreground, ForegroundDelay(s.attempt)))
  {
  }

  lemma StillForeground(j: nat, n: nat)
    requires j < n < TWO32 && Waited(n - 1) < FOREGROUND_DURATION
    ensures Waited(j) < FOREGROUND_DURATION
  {
    WaitedGrows(j, n - 1);
  }

  /** One prompt call in the foreground phase: where it leaves the policy, and when the next
      call is. */
  lemma PromptStep(s: State, now: nat, k: nat, m: Mode)
    requires s.mode == Foreground && s.attempt < TWO32 - 1 && k > 0
    requires now == s.startedAt + Waited(s.attempt) && Waited(s.attempt) < FOREGROUND_DURATION
    ensures var s', next := s.(attempt := s.attempt + 1, lastAttempt := Some(now)), s.startedAt + Waited(s.attempt + 1);
            Taken(s, now, k, m) == (if m == Foreground then 1 else 0) + Taken(s', next, k - 1, m)
  {
    ForegroundCall(s, now);
  }

  /** n foreground delays first fill the foreground phase; a call answered before that is
      answered with the next of them. */
  lemma {:induction false} PromptWithin(s: State, now: nat, k: nat, m: Mode, n: nat)
    requires s.mode == Foreground && s.attempt + k <= n < TWO32 - 1
    requires n > 0 && Waited(n - 1) < FOREGROUND_DURATION && now == s.startedAt + Waited(s.attempt)
    ensures Taken(s, now, k, m) == if m == Foreground then k else 0
    decreases k
  {
    if k > 0 {
      StillForeground(s.attempt, n);
      PromptStep(s, now, k, m);
      var s' := s.(attempt := s.attempt + 1, lastAttempt := Some(now));
      PromptWithin(s', s.startedAt + Waited(s'.attempt), k - 1, m, n);
    }
  }

  /** Of the calls beyond that, up to 15 are answered with a background delay. */
  lemma {:induction false} PromptBeyond(s: State, now: nat, k: nat, m: Mode, n: nat)
    requires s.mode == Foreground && s.attempt <= n < TWO32 - 1 && n < s.attempt + k <= n + 15
    requires n > 0 && Waited(n - 1) < FOREGROUND_DURATION <= Waited(n) && now == s.startedAt + Waited(s.attempt)
    ensures Taken(s, now, k, m) == if m == Foreground then n - s.attempt else s.attempt + k - n
    decreases k
  {
    if s.attempt == n {
      PromptTurnsToBackground(s, now, k, m);
    } else {
      StillForeground(s.attempt, n);
      PromptStep(s, now, k, m);
      var s' := s.(attempt := s.attempt + 1, lastAttempt := Some(now));
      PromptBeyond(s', s.startedAt + Waited(s'.attempt), k - 1, m, n);
    }
  }

  /** A caller that always comes back on time gets all 26: of up to 26 calls, the first
      eleven are answered with a foreground delay and the others with a background one. */
  lemma TwentySixReached(start: nat, calls: nat, m: Mode)
    requires 0 < calls <= 26
    ensures var times := Prompt(Fresh(start), start, calls);
            && Patient(Fresh(start), start, times)
            && Count(Answers(Fresh(start), times), m)
               == if m == Foreground then Min(11, calls) else calls - Min(11, calls)
  {
    PromptIsPatient(Fresh(start), start, calls);
    ElevenDelays();
    if calls <= 11 {
      PromptWithin(Fresh(start), start, calls, m, 11);
    } else {
      PromptBeyond(Fresh(start), start, calls, m, 11);
    }
    TakenCounts(Fresh(start), start, calls, m);
  }
}
