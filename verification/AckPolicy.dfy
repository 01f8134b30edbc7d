/** When the receiver sends an ACK: after eight accepted messages, or fifty milliseconds
    after the first one still waiting. */
module AckPolicy {
  import opened Words
  import opened Wrappers

  const ACK_MAX_DELAY_MS := 50
  const ACK_MAX_PENDING := 8

  datatype AckPending = AckPending(count: u32, firstPendingAt: Option<nat>)

  const IDLE := AckPending(0, None)

  /** What became of an attempt to flush: there was no active link, or its write went
      through, or its write failed. */
  datatype Flush = NoLink | Written | WriteFailed

  predicate ShouldFlush(p: AckPending, clock: nat) {
    || p.count >= ACK_MAX_PENDING
    || (p.firstPendingAt.Some? && clock >= p.firstPendingAt.value + ACK_MAX_DELAY_MS)
  }

  /** Something waits, and the first of it has waited for fifty milliseconds. */
  predicate Overdue(p: AckPending, clock: nat) {
    p.firstPendingAt.Some? && clock - p.firstPendingAt.value >= 50
  }

  /** A flush forgets what was pending; a failed write puts one back. */
  function Flushed(p: AckPending, f: Flush, clock: nat): AckPending {
    if p.count == 0 then p
    else if f == WriteFailed then AckPending(1, Some(clock))
    else IDLE
  }

  function Counted(p: AckPending, clock: nat): AckPending {
    AckPending(if p.count < TWO32 - 1 then p.count + 1 else p.count,
               if p.firstPendingAt == None then Some(clock) else p.firstPendingAt)
  }

  /** After a message was accepted; the eighth flushes at once. */
  function AfterAccept(p: AckPending, f: Flush, clock: nat): AckPending {
    var q := Counted(p, clock);
    if q.count >= ACK_MAX_PENDING then Flushed(q, f, clock) else q
  }

  /** After one turn of the receive loop looked at the clock. */
  function AfterTick(p: AckPending, f: Flush, clock: nat): AckPending {
    if ShouldFlush(p, clock) then Flushed(p, f, clock) else p
  }

  ghost predicate Bounded(p: AckPending) {
    p.count < ACK_MAX_PENDING && (p.count == 0 <==> p.firstPendingAt == None)
  }

  // ---- whole runs ----

  datatype Event = Accepted(f: Flush, clock: nat) | Tick(f: Flush, clock: nat)

  /** The pending count with its history: messages accepted since the last attempt to
      flush, the one a failed attempt put back, and the most ever accepted between two
      attempts. */
  datatype History = History(pending: AckPending, sinceAttempt: nat, putBack: nat, worst: nat)

  predicate Attempts(p: AckPending, e: Event) {
    match e
    case Accepted(_, clock) => Counted(p, clock).count >= ACK_MAX_PENDING
    case Tick(_, clock) => ShouldFlush(p, clock) && p.count > 0
  }

  function Next(h: History, e: Event): History {
    var accepted := h.sinceAttempt + (if e.Accepted? then 1 else 0);
    var pending := if e.Accepted? then AfterAccept(h.pending, e.f, e.clock) else AfterTick(h.pending, e.f, e.clock);
    if Attempts(h.pending, e)
    then History(pending, 0, if e.f == WriteFailed then 1 else 0, if accepted > h.worst then accepted else h.worst)
    else h.(pending := pending, sinceAttempt := accepted)
  }

  function Run(events: seq<Event>): History {
    if events == [] then History(IDLE, 0, 0, 0)
    else Next(Run(events[..|events| - 1]), events[|events| - 1])
  }

  /** After every step at most seven messages are waiting for their ACK, a deadline is set
      exactly while some are, the count is what was accepted since the last attempt plus
      what a failed attempt put back, and no more than eight are ever accepted between two
      attempts, failed ones included. */
  lemma {:induction false} Coalescing(events: seq<Event>)
    ensures var h := Run(events);
            && Bounded(h.pending)
            && h.pending.count == h.sinceAttempt + h.putBack
            && h.putBack <= 1
            && h.worst <= ACK_MAX_PENDING
  {
    if events != [] { Coalescing(events[..|events| - 1]); }
  }

  /** A turn of the loop leaves nothing waiting past its deadline. */
  lemma TickMeetsDeadline(p: AckPending, f: Flush, clock: nat)
    requires Bounded(p)
    ensures var q := AfterTick(p, f, clock);
            Bounded(q) && (q.count > 0 ==> clock < q.firstPendingAt.value + ACK_MAX_DELAY_MS)
  {
  }

  /** Nor does the clock flush anything before that. */
  lemma TickWaitsForDeadline(p: AckPending, f: Flush, clock: nat)
    requires Bounded(p) && !Overdue(p, clock)
    ensures AfterTick(p, f, clock) == p
  {
  }

  /** Event k of the run flushes nothing. */
  predicate QuietAt(events: seq<Event>, k: nat)
    requires k < |events|
  {
    !Attempts(Run(events[..k]).pending, events[k])
  }

  lemma RunStep(events: seq<Event>, k: nat)
    requires k < |events|
    ensures Run(events[..k + 1]) == Next(Run(events[..k]), events[k])
  {
    assert events[..k + 1][..k] == events[..k];
  }

  /** The deadline is that of the first message waiting: whatever is accepted later, until
      the next attempt to flush it stays fifty milliseconds after that one. */
  lemma {:induction false} FirstSetsDeadline(events: seq<Event>, i: nat, j: nat)
    requires i < j <= |events| && events[i].Accepted? && Run(events[..i]).pending.count == 0
    requires forall k: nat | i <= k < j :: QuietAt(events, k)
    ensures Run(events[..j]).pending.count > 0
    ensures Run(events[..j]).pending.firstPendingAt == Some(events[i].clock)
  {
    var h := Run(events[..j - 1]);
    RunStep(events, j - 1);
    assert Bounded(h.pending) by { Coalescing(events[..j - 1]); }
    assert QuietAt(events, j - 1);
    if i < j - 1 {
      FirstSetsDeadline(events, i, j - 1);
      StepKeepsDeadline(h, events[j - 1]);
    } else {
      FirstWaits(h, events[i]);
    }
  }

  lemma FirstWaits(h: History, e: Event)
    requires Bounded(h.pending) && h.pending.count == 0 && e.Accepted?
    ensures Next(h, e).pending == AckPending(1, Some(e.clock))
  {
  }

  lemma StepKeepsDeadline(h: History, e: Event)
    requires Bounded(h.pending) && h.pending.count > 0 && !Attempts(h.pending, e)
    ensures Next(h, e).pending.count > 0 && Next(h, e).pending.firstPendingAt == h.pending.firstPendingAt
  {
  }

  /** With working writes and no timer, ACKs go out after every eighth message. */
  lemma {:induction false} EveryEighth(events: seq<Event>)
    requires forall i | 0 <= i < |events| :: events[i].Accepted? && events[i].f == Written
    ensures Run(events).pending.count == |events| % ACK_MAX_PENDING
  {
    if events != [] { EveryEighth(events[..|events| - 1]); }
  }
}
