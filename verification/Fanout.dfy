/** Backlog and fan-out as a protocol: worker, joins, leaves and disconnects interleave at
    the granularity of their critical sections.

    The worker holds the queue lock and the list of sessions for a whole message, so while
    it is fanning out nobody else drains, removes, connects, deregisters or checks the
    list; a client's own lock is taken only for the moment of one offer, so a leave may
    unsubscribe in between.  What a client is sent goes to `delivered` in socket order. */
module Fanout {
  import opened Words
  import opened Backlog
  import Seqs

  type Id = nat

  /** Where a session task is between critical sections. */
  datatype Phase =
    | Ready
    | Joining(room: Room)      // the daemon joined the room; not yet subscribed
    | Flushing                 // sending the drained backlog
    | Leaving(room: Room)      // unsubscribed; who else wants the room?
    | Retiring(room: Room)     // nobody: the daemon leaves the room
    | Freeing(room: Room)      // and drops its backlog
    | Closing                  // the socket failed or closed
    | Gone                     // deregistered

  datatype Worker =
    | Idle
    | Listed(m: Message, rooms: seq<Room>)
    | Fanning(m: Message, room: Room, rest: seq<Room>, waiting: seq<Id>)

  /** A first join: the history and the last drain or removal before it, and how far into
      the history the client has been served. */
  datatype Join = Join(at: nat, mark: nat, to: nat)

  datatype Client = Client(
    subs: set<Room>,
    outbox: seq<Entry>,
    backlog: seq<Entry>,
    delivered: seq<Entry>,
    phase: Phase,
    // history, read by no step
    joins: map<Room, Join>,    // first joins
    rejoined: set<Room>,       // rooms joined again
    overflowed: bool)          // the channel was full at some offer

  const NEWCOMER := Client({}, [], [], [], Ready, map[], {}, false)

  datatype State = State(
    rooms: set<Room>,
    queues: Queues,
    sessions: seq<Id>,
    clients: map<Id, Client>,
    worker: Worker,
    // history, read by no step
    history: map<Room, seq<Entry>>,      // every push, by room
    marks: map<Room, nat>)               // length of the history at the last drain or removal

  const EMPTY := State({}, map[], [], map[], Idle, map[], map[])

  function History(s: State, room: Room): seq<Entry> {
    if room in s.history then s.history[room] else []
  }

  function Mark(s: State, room: Room): nat {
    if room in s.marks then s.marks[room] else 0
  }

  datatype Step =
    | Connect(id: Id)
    | StartJoin(id: Id, room: Room)
    | SubscribeAndDrain(id: Id)
    | SendBacklog(id: Id)
    | FinishJoin(id: Id)
    | SendLive(id: Id)
    | StartLeave(id: Id, room: Room)
    | CheckUsed(id: Id)
    | Retire(id: Id)
    | Free(id: Id)
    | Close(id: Id)
    | Deregister(id: Id)
    | ListRooms(m: Message, order: seq<Room>)
    | LockAndPush
    | OfferNext(crowded: bool)   // crowded: other frames leave no room in the channel
    | NextRoom
    | Unlock

  predicate Locked(s: State) {
    s.worker.Fanning?
  }

  /** Some listed session wants the room. */
  predicate UsedIn(s: State, room: Room) {
    exists i :: 0 <= i < |s.sessions| && s.sessions[i] in s.clients && room in s.clients[s.sessions[i]].subs
  }

  predicate InPhase(s: State, id: Id, p: Phase) {
    id in s.clients && s.clients[id].phase == p
  }

  predicate Enabled(s: State, step: Step) {
    match step
    case Connect(id) => !Locked(s) && id !in s.clients
    case StartJoin(id, room) => InPhase(s, id, Ready)
    case SubscribeAndDrain(id) => !Locked(s) && id in s.clients && s.clients[id].phase.Joining?
    case SendBacklog(id) => InPhase(s, id, Flushing) && s.clients[id].backlog != []
    case FinishJoin(id) => InPhase(s, id, Flushing) && s.clients[id].backlog == []
    case SendLive(id) => InPhase(s, id, Ready) && s.clients[id].outbox != []
    case StartLeave(id, room) => InPhase(s, id, Ready)
    case CheckUsed(id) => !Locked(s) && id in s.clients && s.clients[id].phase.Leaving?
    case Retire(id) => id in s.clients && s.clients[id].phase.Retiring?
    case Free(id) => !Locked(s) && id in s.clients && s.clients[id].phase.Freeing?
    case Close(id) => id in s.clients && s.clients[id].phase != Gone
    case Deregister(id) => !Locked(s) && InPhase(s, id, Closing)
    case ListRooms(m, order) => s.worker == Idle && (set r | r in order) == s.rooms
    case LockAndPush => s.worker.Listed? && s.worker.rooms != []
    case OfferNext(_) => s.worker.Fanning? && s.worker.waiting != [] && s.worker.waiting[0] in s.clients
    case NextRoom => s.worker.Fanning? && s.worker.waiting == [] && s.worker.rest != []
    case Unlock => s.worker.Fanning? && s.worker.waiting == [] && s.worker.rest == []
  }

  function WithClient(s: State, id: Id, c: Client): State {
    s.(clients := s.clients[id := c])
  }

  /** Queues the message under a room and lines every session up for it. */
  function PushAndLineUp(s: State, m: Message, room: Room, rest: seq<Room>): State {
    s.(queues := Pushed(s.queues, EntryFor(m, room)),
       history := s.history[room := History(s, room) + [EntryFor(m, room)]],
       worker := Fanning(m, room, rest, s.sessions))
  }

  /** A client that subscribes and takes the backlog b, when h messages were ever pushed and
      `mark` of them before the last drain or removal. */
  function Joined(c: Client, room: Room, b: seq<Entry>, h: nat, mark: nat): Client {
    c.(subs := c.subs + {room},
       backlog := b,
       phase := Flushing,
       joins := if room in c.joins then c.joins else c.joins[room := Join(h, mark, h)],
       rejoined := if room in c.joins then c.rejoined + {room} else c.rejoined)
  }

  /** Under the queue lock: subscribe and take the backlog. */
  function AfterJoin(s: State, id: Id): State
    requires id in s.clients && s.clients[id].phase.Joining?
  {
    var c := s.clients[id];
    var room := c.phase.room;
    var h := |History(s, room)|;
    WithClient(s, id, Joined(c, room, Bucket(s.queues, room), h, Mark(s, room))).(
      queues := Drained(s.queues, room),
      marks := s.marks[room := h])
  }

  /** A client that is offered an entry: nothing happens unless it takes the room.  Other
      parts of the daemon put frames of their own into the channel; they are not modelled
      but for this, that they may leave no room in it. */
  function Served(c: Client, e: Entry, crowded: bool): Client {
    if e.room !in c.subs then c
    else if crowded || |c.outbox| >= OUTBOUND_CAPACITY then c.(overflowed := true)
    else c.(outbox := Offered(c.outbox, e),
            joins := if e.room in c.joins then c.joins[e.room := c.joins[e.room].(to := c.joins[e.room].to + 1)]
                else c.joins)
  }

  /** The worker comes to the next session: offer the message if it is subscribed. */
  function AfterOffer(s: State, crowded: bool): State
    requires s.worker.Fanning? && s.worker.waiting != [] && s.worker.waiting[0] in s.clients
  {
    var w, id := s.worker, s.worker.waiting[0];
    WithClient(s, id, Served(s.clients[id], EntryFor(w.m, w.room), crowded)).(worker := w.(waiting := w.waiting[1..]))
  }

  function Apply(s: State, step: Step): State
    requires Enabled(s, step)
  {
    match step
    case Connect(id) =>
      WithClient(s, id, NEWCOMER).(sessions := s.sessions + [id])
    case StartJoin(id, room) =>
      WithClient(s, id, s.clients[id].(phase := Joining(room))).(rooms := s.rooms + {room})
    case SubscribeAndDrain(id) => AfterJoin(s, id)
    case SendBacklog(id) =>
      var c := s.clients[id];
      WithClient(s, id, c.(delivered := c.delivered + [c.backlog[0]], backlog := c.backlog[1..]))
    case FinishJoin(id) => WithClient(s, id, s.clients[id].(phase := Ready))
    case SendLive(id) =>
      var c := s.clients[id];
      WithClient(s, id, c.(delivered := c.delivered + [c.outbox[0]], outbox := c.outbox[1..]))
    case StartLeave(id, room) =>
      var c := s.clients[id];
      if room in c.subs then WithClient(s, id, c.(subs := c.subs - {room}, phase := Leaving(room))) else s
    case CheckUsed(id) =>
      var c := s.clients[id];
      var room := c.phase.room;
      WithClient(s, id, c.(phase := if UsedIn(s, room) then Ready else Retiring(room)))
    case Retire(id) =>
      var c := s.clients[id];
      WithClient(s, id, c.(phase := Freeing(c.phase.room))).(rooms := s.rooms - {c.phase.room})
    case Free(id) =>
      var c := s.clients[id];
      var room := c.phase.room;
      WithClient(s, id, c.(phase := Ready)).(
        queues := s.queues - {room},
        marks := s.marks[room := |History(s, room)|])
    case Close(id) => WithClient(s, id, s.clients[id].(phase := Closing))
    case Deregister(id) =>
      WithClient(s, id, s.clients[id].(phase := Gone)).(sessions := Seqs.Filter((k: Id) => k != id, s.sessions))
    case ListRooms(m, order) => s.(worker := if order == [] then Idle else Listed(m, order))
    case LockAndPush => PushAndLineUp(s, s.worker.m, s.worker.rooms[0], s.worker.rooms[1..])
    case OfferNext(crowded) => AfterOffer(s, crowded)
    case NextRoom => PushAndLineUp(s, s.worker.m, s.worker.rest[0], s.worker.rest[1..])
    case Unlock => s.(worker := Idle)
  }

  ghost predicate StepAt(states: seq<State>, steps: seq<Step>, i: nat)
    requires |states| == |steps| + 1 && i < |steps|
  {
    Enabled(states[i], steps[i]) && states[i + 1] == Apply(states[i], steps[i])
  }

  ghost predicate IsRun(states: seq<State>, steps: seq<Step>) {
    |states| == |steps| + 1 && states[0] == EMPTY && forall i: nat | i < |steps| :: StepAt(states, steps, i)
  }

  // ---- what a client gets of one room ----

  function OfRoom(room: Room): Entry -> bool {
    (e: Entry) => e.room == room
  }

  function RoomOnly(room: Room, es: seq<Entry>): seq<Entry> {
    Seqs.Filter(OfRoom(room), es)
  }

  /** What a client was sent, is being sent, and has queued of a room, in socket order. */
  function Stream(c: Client, room: Room): seq<Entry> {
    RoomOnly(room, c.delivered) + RoomOnly(room, c.backlog) + RoomOnly(room, c.outbox)
  }

  /** Where in the history the client's stream begins: at the last min(k, 500) of the k
      messages pushed since the drain or removal before its join. */
  function From(j: Join): nat
    requires j.mark <= j.at
  {
    j.at - Min(j.at - j.mark, MAX_MESSAGES_PER_ROOM)
  }

  /** The worker has pushed the last entry of the room but not come to this client yet. */
  predicate AboutToOffer(s: State, id: Id, room: Room) {
    s.worker.Fanning? && s.worker.room == room && id in s.worker.waiting
  }

  // ---- the invariant ----

  ghost predicate QueueOk(s: State, room: Room) {
    && Mark(s, room) <= |History(s, room)|
    && Bucket(s.queues, room) == LastOf(History(s, room)[Mark(s, room)..], MAX_MESSAGES_PER_ROOM)
    && forall e | e in History(s, room) :: e.room == room
  }

  ghost predicate SessionsOk(s: State) {
    && (forall i, j | 0 <= i < j < |s.sessions| :: s.sessions[i] != s.sessions[j])
    && (forall id :: id in s.sessions <==> id in s.clients && s.clients[id].phase != Gone)
  }

  ghost predicate WorkerOk(s: State) {
    s.worker.Fanning? ==>
      && |s.worker.waiting| <= |s.sessions|
      && s.worker.waiting == s.sessions[|s.sessions| - |s.worker.waiting|..]
      && History(s, s.worker.room) != []
      && History(s, s.worker.room)[|History(s, s.worker.room)| - 1] == EntryFor(s.worker.m, s.worker.room)
  }

  ghost predicate ClientOk(s: State, id: Id) {
    id in s.clients && (s.clients[id].backlog == [] || s.clients[id].phase in {Flushing, Closing, Gone})
  }

  /** Before its first join a client has nothing of the room; after it, as long as it never
      joins again and its channel never fills, it has one segment of the history h, reaching
      to the end while it is subscribed and registered. */
  ghost predicate Standing(c: Client, room: Room, h: seq<Entry>, mark: nat, registered: bool, behind: bool) {
    if room !in c.joins then room !in c.subs && Stream(c, room) == [] && room !in c.rejoined
    else
      && c.joins[room].at <= mark
      && (room in c.rejoined || c.overflowed || Segment(c, room, h, registered, behind))
  }

  ghost predicate PairOk(s: State, id: Id, room: Room)
    requires id in s.clients
  {
    Standing(s.clients[id], room, History(s, room), Mark(s, room), id in s.sessions, AboutToOffer(s, id, room))
  }

  /** The client's stream of the room is a segment of the history. */
  ghost predicate Segment(c: Client, room: Room, h: seq<Entry>, registered: bool, behind: bool)
    requires room in c.joins
  {
    var j := c.joins[room];
    && j.mark <= j.at <= j.to <= |h|
    && Stream(c, room) == h[From(j)..j.to]
    && (room in c.subs && registered ==> j.to == |h| - (if behind then 1 else 0))
  }

  ghost predicate Inv(s: State) {
    && (forall room: Room :: QueueOk(s, room))
    && SessionsOk(s)
    && WorkerOk(s)
    && (forall id | id in s.clients :: ClientOk(s, id))
    && (forall id, room | id in s.clients :: PairOk(s, id, room))
  }

  // ---- each step keeps it ----

  /** A client's fields that its standing in a room depends on. */
  predicate SameStanding(c: Client, d: Client, room: Room) {
    && Stream(d, room) == Stream(c, room)
    && (room in d.joins <==> room in c.joins) && (room in c.joins ==> d.joins[room] == c.joins[room])
    && (room in d.rejoined <==> room in c.rejoined) && (c.overflowed ==> d.overflowed)
    && (room in d.subs ==> room in c.subs)
  }

  lemma PairFrame(s: State, t: State, id: Id, room: Room)
    requires id in s.clients && id in t.clients && PairOk(s, id, room)
    requires History(t, room) == History(s, room) && Mark(t, room) >= Mark(s, room)
    requires SameStanding(s.clients[id], t.clients[id], room)
    requires id in t.sessions ==> id in s.sessions
    requires room in t.clients[id].subs ==> (AboutToOffer(t, id, room) <==> AboutToOffer(s, id, room))
    ensures PairOk(t, id, room)
  {
  }

  /** Steps that only move a session task along, or let it send, change nothing a pair
      depends on. */
  lemma LocalStep(s: State, t: State, id: Id, rooms: set<Room>, queues: Queues, marks: map<Room, nat>)
    requires Inv(s) && id in s.clients && id in t.clients
    requires t == WithClient(s, id, t.clients[id]).(rooms := rooms, queues := queues, marks := marks)
    requires forall room: Room :: QueueOk(t, room) && Mark(t, room) >= Mark(s, room)
    requires ClientOk(t, id) && (t.clients[id].phase == Gone <==> s.clients[id].phase == Gone)
    requires forall room: Room :: SameStanding(s.clients[id], t.clients[id], room)
    ensures Inv(t)
  {
    forall k, room | k in t.clients ensures PairOk(t, k, room) {
      assert PairOk(s, k, room);
      PairFrame(s, t, k, room);
    }
    forall k | k in t.clients ensures ClientOk(t, k) { assert k in s.clients && ClientOk(s, k); }
    forall room: Room ensures History(t, room) == History(s, room) {}
  }

  lemma QueueFrame(s: State, t: State)
    requires forall room: Room :: QueueOk(s, room)
    requires t.history == s.history && t.queues == s.queues && t.marks == s.marks
    ensures forall room: Room :: QueueOk(t, room)
  {
    forall room: Room ensures QueueOk(t, room) { assert QueueOk(s, room); }
  }

  lemma SentBacklog(c: Client, room: Room)
    requires c.backlog != []
    ensures Stream(c.(delivered := c.delivered + [c.backlog[0]], backlog := c.backlog[1..]), room) == Stream(c, room)
  {
    assert c.backlog == [c.backlog[0]] + c.backlog[1..];
    Seqs.FilterConcat(OfRoom(room), c.delivered, [c.backlog[0]]);
    Seqs.FilterConcat(OfRoom(room), [c.backlog[0]], c.backlog[1..]);
  }

  lemma SentLive(c: Client, room: Room)
    requires c.backlog == [] && c.outbox != []
    ensures Stream(c.(delivered := c.delivered + [c.outbox[0]], outbox := c.outbox[1..]), room) == Stream(c, room)
  {
    assert c.outbox == [c.outbox[0]] + c.outbox[1..];
    Seqs.FilterConcat(OfRoom(room), c.delivered, [c.outbox[0]]);
    Seqs.FilterConcat(OfRoom(room), [c.outbox[0]], c.outbox[1..]);
  }

  predicate IsLocal(step: Step) {
    step.StartJoin? || step.SendBacklog? || step.FinishJoin? || step.SendLive? || step.StartLeave?
    || step.CheckUsed? || step.Retire? || step.Close?
  }

  lemma LocalStanding(s: State, step: Step, room: Room)
    requires Enabled(s, step) && IsLocal(step) && ClientOk(s, step.id)
    ensures step.id in Apply(s, step).clients
    ensures SameStanding(s.clients[step.id], Apply(s, step).clients[step.id], room)
  {
    match step
    case SendBacklog(id) => SentBacklog(s.clients[id], room);
    case SendLive(id) => SentLive(s.clients[id], room);
    case _ =>
  }

  lemma LocalKeeps(s: State, step: Step)
    requires Inv(s) && Enabled(s, step) && IsLocal(step)
    ensures Inv(Apply(s, step))
  {
    var t := Apply(s, step);
    var id := step.id;
    assert ClientOk(s, id);
    QueueFrame(s, t);
    forall room: Room ensures SameStanding(s.clients[id], t.clients[id], room) {
      LocalStanding(s, step, room);
    }
    assert t == WithClient(s, id, t.clients[id]).(rooms := t.rooms, queues := t.queues, marks := t.marks);
    LocalStep(s, t, id, t.rooms, t.queues, t.marks);
  }

  /** A room whose backlog was just taken or dropped starts counting anew. */
  lemma EmptiedQueue(s: State, t: State, room: Room)
    requires QueueOk(s, room) && History(t, room) == History(s, room)
    requires Mark(t, room) == |History(s, room)| && Bucket(t.queues, room) == []
    ensures QueueOk(t, room)
  {
    assert History(s, room)[|History(s, room)|..] == [];
  }

  lemma FreeKeepsQueue(s: State, id: Id, room: Room)
    requires Enabled(s, Free(id)) && QueueOk(s, room)
    ensures QueueOk(Apply(s, Free(id)), room) && Mark(Apply(s, Free(id)), room) >= Mark(s, room)
  {
    if room == s.clients[id].phase.room { EmptiedQueue(s, Apply(s, Free(id)), room); }
  }

  lemma FreeKeeps(s: State, id: Id)
    requires Inv(s) && Enabled(s, Free(id))
    ensures Inv(Apply(s, Free(id)))
  {
    var t := Apply(s, Free(id));
    assert ClientOk(s, id);
    forall room: Room ensures QueueOk(t, room) && Mark(t, room) >= Mark(s, room) {
      assert QueueOk(s, room);
      FreeKeepsQueue(s, id, room);
    }
    LocalStep(s, t, id, t.rooms, t.queues, t.marks);
  }

  lemma ConnectKeeps(s: State, id: Id)
    requires Inv(s) && Enabled(s, Connect(id))
    ensures Inv(Apply(s, Connect(id)))
  {
    var t := Apply(s, Connect(id));
    QueueFrame(s, t);
    forall k, room | k in t.clients ensures PairOk(t, k, room) {
      if k != id {
        assert PairOk(s, k, room);
        PairFrame(s, t, k, room);
      }
    }
    forall k | k in t.clients ensures ClientOk(t, k) { if k != id { assert ClientOk(s, k); } }
  }

  lemma DeregisterKeeps(s: State, id: Id)
    requires Inv(s) && Enabled(s, Deregister(id))
    ensures Inv(Apply(s, Deregister(id)))
  {
    var t := Apply(s, Deregister(id));
    var p := (k: Id) => k != id;
    QueueFrame(s, t);
    Seqs.FilterDistinct(p, s.sessions);
    forall k ensures k in t.sessions <==> k in s.sessions && k != id { Seqs.FilterMember(p, s.sessions, k); }
    forall k, room | k in t.clients ensures PairOk(t, k, room) {
      assert PairOk(s, k, room);
      PairFrame(s, t, k, room);
    }
    forall k | k in t.clients ensures ClientOk(t, k) { assert ClientOk(s, k); }
  }

  lemma WorkerKeeps(s: State, step: Step)
    requires Inv(s) && Enabled(s, step) && (step.ListRooms? || step.Unlock?)
    ensures Inv(Apply(s, step))
  {
    var t := Apply(s, step);
    QueueFrame(s, t);
    forall k, room | k in t.clients ensures PairOk(t, k, room) {
      assert PairOk(s, k, room);
      PairFrame(s, t, k, room);
    }
    forall k | k in t.clients ensures ClientOk(t, k) { assert ClientOk(s, k); }
  }

  lemma PushKeepsQueue(s: State, m: Message, room: Room, rest: seq<Room>, r: Room)
    requires QueueOk(s, r)
    ensures QueueOk(PushAndLineUp(s, m, room, rest), r)
  {
    if r == room {
      var h, e := History(s, room), EntryFor(m, room);
      PushKeepsLast(s.queues, e, h[Mark(s, room)..]);
      assert (h + [e])[Mark(s, room)..] == h[Mark(s, room)..] + [e];
    }
  }

  /** A longer history leaves a segment where it was, one behind if it reached the end. */
  lemma LongerHistory(c: Client, room: Room, h: seq<Entry>, e: Entry, mark: nat, registered: bool)
    requires Standing(c, room, h, mark, registered, false)
    ensures Standing(c, room, h + [e], mark, registered, registered)
  {
    if room in c.joins && room !in c.rejoined && !c.overflowed {
      var j := c.joins[room];
      assert (h + [e])[From(j)..j.to] == h[From(j)..j.to];
    }
  }

  lemma PushKeepsPair(s: State, m: Message, room: Room, rest: seq<Room>, k: Id, r: Room)
    requires (s.worker.Fanning? ==> s.worker.waiting == []) && k in s.clients && PairOk(s, k, r)
    ensures PairOk(PushAndLineUp(s, m, room, rest), k, r)
  {
    if r == room {
      LongerHistory(s.clients[k], room, History(s, room), EntryFor(m, room), Mark(s, room), k in s.sessions);
    } else {
      PairFrame(s, PushAndLineUp(s, m, room, rest), k, r);
    }
  }

  /** A push under the lock: everyone subscribed is one message behind until offered it. */
  lemma PushKeeps(s: State, m: Message, room: Room, rest: seq<Room>)
    requires Inv(s) && (s.worker.Fanning? ==> s.worker.waiting == [])
    ensures Inv(PushAndLineUp(s, m, room, rest))
  {
    var t := PushAndLineUp(s, m, room, rest);
    forall r: Room ensures QueueOk(t, r) {
      assert QueueOk(s, r);
      PushKeepsQueue(s, m, room, rest, r);
    }
    forall k, r | k in t.clients ensures PairOk(t, k, r) {
      assert PairOk(s, k, r);
      PushKeepsPair(s, m, room, rest, k, r);
    }
    forall k | k in t.clients ensures ClientOk(t, k) { assert ClientOk(s, k); }
  }

  lemma StreamOfOffer(c: Client, e: Entry, room: Room)
    ensures Stream(c.(outbox := c.outbox + [e]), room)
            == if e.room == room then Stream(c, room) + [e] else Stream(c, room)
  {
    var x, y := RoomOnly(room, c.delivered) + RoomOnly(room, c.backlog), RoomOnly(room, c.outbox);
    RoomOfLast(c.outbox, e, room);
    assert x + (y + [e]) == x + y + [e];
  }

  lemma RoomOfLast(es: seq<Entry>, e: Entry, room: Room)
    ensures RoomOnly(room, es + [e]) == if e.room == room then RoomOnly(room, es) + [e] else RoomOnly(room, es)
  {
    assert (es + [e])[..|es|] == es;
  }

  predicate CanOffer(s: State) {
    s.worker.Fanning? && s.worker.waiting != [] && s.worker.waiting[0] in s.clients
  }

  lemma NotWaitingTwice(s: State)
    requires CanOffer(s) && SessionsOk(s) && WorkerOk(s)
    ensures s.worker.waiting[0] in s.sessions && s.worker.waiting[0] !in s.worker.waiting[1..]
  {
    var w, n := s.worker.waiting, |s.sessions| - |s.worker.waiting|;
    assert w[0] == s.sessions[n];
    forall i | 0 <= i < |w[1..]| ensures w[1..][i] != w[0] { assert w[1..][i] == s.sessions[n + 1 + i]; }
  }

  /** The end of a segment that reaches to the end of the history. */
  lemma TailOfSegment(h: seq<Entry>, from: nat, n: nat)
    requires from + n <= |h|
    ensures h[from..|h|][|h| - from - n..] == h[|h| - n..]
  {
  }

  lemma SegmentGrows(h: seq<Entry>, from: nat, to: nat)
    requires from <= to < |h|
    ensures h[from..to + 1] == h[from..to] + [h[to]]
  {
  }

  /** Taking the last entry of the history extends a segment that was one short of it. */
  lemma ServedSegment(c: Client, e: Entry, h: seq<Entry>)
    requires e.room in c.subs && e.room in c.joins && |c.outbox| < OUTBOUND_CAPACITY
    requires h != [] && h[|h| - 1] == e && Segment(c, e.room, h, true, true)
    ensures e.room in Served(c, e, false).joins && Segment(Served(c, e, false), e.room, h, true, false)
  {
    var j := c.joins[e.room];
    StreamOfOffer(c, e, e.room);
    SegmentGrows(h, From(j), j.to);
    assert Stream(Served(c, e, false), e.room) == Stream(c.(outbox := c.outbox + [e]), e.room);
  }

  /** A client that takes the offer catches up with the history of that room, and stands as
      before in every other. */
  lemma ServedStanding(c: Client, e: Entry, h: seq<Entry>, mark: nat)
    requires e.room in c.subs && |c.outbox| < OUTBOUND_CAPACITY && h != [] && h[|h| - 1] == e
    requires Standing(c, e.room, h, mark, true, true)
    ensures Standing(Served(c, e, false), e.room, h, mark, true, false)
  {
    if e.room !in c.rejoined && !c.overflowed { ServedSegment(c, e, h); }
  }

  lemma ServedElsewhere(c: Client, e: Entry, crowded: bool, room: Room)
    requires e.room != room
    ensures SameStanding(c, Served(c, e, crowded), room)
  {
    StreamOfOffer(c, e, room);
  }

  lemma OfferServes(s: State, room: Room)
    requires CanOffer(s) && SessionsOk(s) && WorkerOk(s) && PairOk(s, s.worker.waiting[0], room)
    requires s.worker.room in s.clients[s.worker.waiting[0]].subs
    requires |s.clients[s.worker.waiting[0]].outbox| < OUTBOUND_CAPACITY
    ensures PairOk(AfterOffer(s, false), s.worker.waiting[0], room)
  {
    var id, e := s.worker.waiting[0], EntryFor(s.worker.m, s.worker.room);
    NotWaitingTwice(s);
    if room != s.worker.room {
      ServedElsewhere(s.clients[id], e, false, room);
      PairFrame(s, AfterOffer(s, false), id, room);
    } else {
      ServedStanding(s.clients[id], e, History(s, room), Mark(s, room));
    }
  }

  /** A client the worker passes by, or whose channel is full, keeps what it has. */
  lemma OfferPassesBy(s: State, crowded: bool, room: Room)
    requires CanOffer(s) && PairOk(s, s.worker.waiting[0], room)
    requires s.worker.room !in s.clients[s.worker.waiting[0]].subs
             || crowded || |s.clients[s.worker.waiting[0]].outbox| >= OUTBOUND_CAPACITY
    ensures PairOk(AfterOffer(s, crowded), s.worker.waiting[0], room)
  {
  }

  lemma OfferLeavesOthers(s: State, crowded: bool, k: Id, room: Room)
    requires CanOffer(s) && k in s.clients && k != s.worker.waiting[0] && PairOk(s, k, room)
    ensures PairOk(AfterOffer(s, crowded), k, room)
  {
    var w := s.worker.waiting;
    assert w == [w[0]] + w[1..];
    PairFrame(s, AfterOffer(s, crowded), k, room);
  }

  lemma OfferKeepsPair(s: State, crowded: bool, k: Id, room: Room)
    requires CanOffer(s) && SessionsOk(s) && WorkerOk(s) && k in s.clients && PairOk(s, k, room)
    ensures k in AfterOffer(s, crowded).clients && PairOk(AfterOffer(s, crowded), k, room)
  {
    var id := s.worker.waiting[0];
    if k != id {
      OfferLeavesOthers(s, crowded, k, room);
    } else if s.worker.room in s.clients[id].subs && !crowded && |s.clients[id].outbox| < OUTBOUND_CAPACITY {
      OfferServes(s, room);
    } else {
      OfferPassesBy(s, crowded, room);
    }
  }

  lemma OfferKeepsRest(s: State, crowded: bool)
    requires CanOffer(s) && SessionsOk(s) && WorkerOk(s)
    ensures var t := AfterOffer(s, crowded);
            && SessionsOk(t) && WorkerOk(t)
            && t.clients.Keys == s.clients.Keys
            && t.history == s.history && t.queues == s.queues && t.marks == s.marks
            && forall k | k in s.clients ::
              t.clients[k].backlog == s.clients[k].backlog && t.clients[k].phase == s.clients[k].phase
  {
    var t := AfterOffer(s, crowded);
    assert t.clients.Keys == s.clients.Keys;
  }

  lemma OfferKeeps(s: State, crowded: bool)
    requires Inv(s) && CanOffer(s)
    ensures Inv(AfterOffer(s, crowded))
  {
    var t := AfterOffer(s, crowded);
    OfferKeepsRest(s, crowded);
    QueueFrame(s, t);
    forall k, room | k in t.clients ensures PairOk(t, k, room) {
      assert PairOk(s, k, room);
      OfferKeepsPair(s, crowded, k, room);
    }
    forall k | k in t.clients ensures ClientOk(t, k) { assert ClientOk(s, k); }
  }

  /** The drained backlog of a first join is the segment the client's stream starts with. */
  lemma DrainedSegment(s: State, room: Room)
    requires QueueOk(s, room)
    ensures var h, b := History(s, room), Bucket(s.queues, room);
            && |b| == Min(|h| - Mark(s, room), MAX_MESSAGES_PER_ROOM)
            && b == h[|h| - |b|..]
            && RoomOnly(room, b) == b
  {
    var h, b := History(s, room), Bucket(s.queues, room);
    LastOfTail(h, Mark(s, room));
    TailInRoom(h, |h| - |b|, room);
    Seqs.FilterAll(OfRoom(room), b);
  }

  lemma LastOfTail(h: seq<Entry>, m: nat)
    requires m <= |h|
    ensures var b := LastOf(h[m..], MAX_MESSAGES_PER_ROOM);
            |b| == Min(|h| - m, MAX_MESSAGES_PER_ROOM) && b == h[|h| - |b|..]
  {
  }

  lemma TailInRoom(h: seq<Entry>, k: nat, room: Room)
    requires k <= |h| && forall e | e in h :: e.room == room
    ensures forall e | e in h[k..] :: OfRoom(room)(e)
    ensures forall other, e | other != room && e in h[k..] :: !OfRoom(other)(e)
  {
    forall e | e in h[k..] ensures e.room == room {
      var i :| 0 <= i < |h[k..]| && h[k..][i] == e;
      assert h[k + i] == e;
    }
  }

  lemma DrainedIsForeign(s: State, room: Room, other: Room)
    requires QueueOk(s, room) && other != room
    ensures RoomOnly(other, Bucket(s.queues, room)) == []
  {
    var h, b := History(s, room), Bucket(s.queues, room);
    LastOfTail(h, Mark(s, room));
    TailInRoom(h, |h| - |b|, room);
    Seqs.FilterNone(OfRoom(other), b);
  }

  predicate CanJoin(s: State, id: Id) {
    !Locked(s) && id in s.clients && s.clients[id].phase.Joining?
  }

  /** A stream that is just the end of the history is the segment of a join made now. */
  lemma FreshSegment(d: Client, room: Room, h: seq<Entry>, mark: nat, b: seq<Entry>)
    requires room in d.joins && d.joins[room] == Join(|h|, mark, |h|) && mark <= |h|
    requires |b| == Min(|h| - mark, MAX_MESSAGES_PER_ROOM) && b == h[|h| - |b|..]
    requires RoomOnly(room, d.delivered) == [] && RoomOnly(room, d.backlog) == b && RoomOnly(room, d.outbox) == []
    ensures Segment(d, room, h, true, false)
  {
    assert Stream(d, room) == [] + b + [] == b;
    assert From(d.joins[room]) == |h| - |b|;
    assert h[|h| - |b|..|h|] == h[|h| - |b|..];
  }

  lemma EmptyStream(c: Client, room: Room)
    requires Stream(c, room) == []
    ensures RoomOnly(room, c.delivered) == [] && RoomOnly(room, c.backlog) == [] && RoomOnly(room, c.outbox) == []
  {
    assert |Stream(c, room)| == |RoomOnly(room, c.delivered)| + |RoomOnly(room, c.backlog)|
        + |RoomOnly(room, c.outbox)|;
  }

  /** A first join starts the stream with the drained backlog. */
  lemma JoinedStanding(c: Client, room: Room, h: seq<Entry>, mark: nat, b: seq<Entry>, registered: bool)
    requires c.backlog == [] && Standing(c, room, h, mark, registered, false) && mark <= |h|
    requires |b| == Min(|h| - mark, MAX_MESSAGES_PER_ROOM) && b == h[|h| - |b|..] && RoomOnly(room, b) == b
    ensures Standing(Joined(c, room, b, |h|, mark), room, h, |h|, registered, false)
  {
    if room !in c.joins {
      EmptyStream(c, room);
      FreshSegment(Joined(c, room, b, |h|, mark), room, h, mark, b);
    }
  }

  /** The pair that joins, given what was drained. */
  lemma JoinServes(s: State, id: Id, h: seq<Entry>, b: seq<Entry>)
    requires CanJoin(s, id) && ClientOk(s, id) && PairOk(s, id, s.clients[id].phase.room)
    requires h == History(s, s.clients[id].phase.room) && b == Bucket(s.queues, s.clients[id].phase.room)
    requires Mark(s, s.clients[id].phase.room) <= |h|
    requires |b| == Min(|h| - Mark(s, s.clients[id].phase.room), MAX_MESSAGES_PER_ROOM) && b == h[|h| - |b|..]
    requires RoomOnly(s.clients[id].phase.room, b) == b
    ensures PairOk(AfterJoin(s, id), id, s.clients[id].phase.room)
  {
    var room := s.clients[id].phase.room;
    var t := AfterJoin(s, id);
    JoinedStanding(s.clients[id], room, h, Mark(s, room), b, id in s.sessions);
    assert t.clients[id] == Joined(s.clients[id], room, b, |h|, Mark(s, room));
    assert History(t, room) == h && Mark(t, room) == |h| && !AboutToOffer(t, id, room);
  }

  lemma JoinLeavesOthers(s: State, id: Id, k: Id, room: Room)
    requires CanJoin(s, id) && ClientOk(s, id) && QueueOk(s, s.clients[id].phase.room)
    requires k in s.clients && PairOk(s, k, room) && (k != id || room != s.clients[id].phase.room)
    ensures PairOk(AfterJoin(s, id), k, room)
  {
    var c, t := s.clients[id], AfterJoin(s, id);
    if k == id {
      DrainedIsForeign(s, c.phase.room, room);
      assert c.backlog == [];
      assert SameStanding(c, t.clients[id], room);
    }
    PairFrame(s, t, k, room);
  }

  lemma JoinKeepsQueue(s: State, id: Id, room: Room)
    requires CanJoin(s, id) && QueueOk(s, room)
    ensures QueueOk(AfterJoin(s, id), room)
  {
    if room == s.clients[id].phase.room { EmptiedQueue(s, AfterJoin(s, id), room); }
  }

  lemma JoinKeepsPair(s: State, id: Id, k: Id, r: Room)
    requires CanJoin(s, id) && ClientOk(s, id) && QueueOk(s, s.clients[id].phase.room)
    requires k in s.clients && PairOk(s, k, r)
    ensures k in AfterJoin(s, id).clients && PairOk(AfterJoin(s, id), k, r)
  {
    if k == id && r == s.clients[id].phase.room {
      DrainedSegment(s, r);
      JoinServes(s, id, History(s, r), Bucket(s.queues, r));
    } else {
      JoinLeavesOthers(s, id, k, r);
    }
  }

  lemma JoinKeepsRest(s: State, id: Id)
    requires CanJoin(s, id) && SessionsOk(s) && forall k | k in s.clients :: ClientOk(s, k)
    ensures var t := AfterJoin(s, id);
            && t.clients.Keys == s.clients.Keys && SessionsOk(t) && WorkerOk(t)
            && forall k | k in t.clients :: ClientOk(t, k)
  {
    var t := AfterJoin(s, id);
    assert t.clients.Keys == s.clients.Keys;
    forall k | k in t.clients ensures ClientOk(t, k) { assert ClientOk(s, k); }
  }

  lemma JoinKeeps(s: State, id: Id)
    requires Inv(s) && CanJoin(s, id)
    ensures Inv(AfterJoin(s, id))
  {
    var t := AfterJoin(s, id);
    JoinKeepsRest(s, id);
    assert ClientOk(s, id) && QueueOk(s, s.clients[id].phase.room);
    forall r: Room ensures QueueOk(t, r) {
      assert QueueOk(s, r);
      JoinKeepsQueue(s, id, r);
    }
    forall k, r | k in t.clients ensures PairOk(t, k, r) {
      assert PairOk(s, k, r);
      JoinKeepsPair(s, id, k, r);
    }
  }

  lemma StepKeeps(s: State, step: Step)
    requires Inv(s) && Enabled(s, step)
    ensures Inv(Apply(s, step))
  {
    if IsLocal(step) {
      LocalKeeps(s, step);
    } else {
      match step
      case Connect(id) => ConnectKeeps(s, id);
      case SubscribeAndDrain(id) => JoinKeeps(s, id);
      case Free(id) => FreeKeeps(s, id);
      case Deregister(id) => DeregisterKeeps(s, id);
      case ListRooms(_, _) => WorkerKeeps(s, step);
      case Unlock => WorkerKeeps(s, step);
      case LockAndPush => PushKeeps(s, s.worker.m, s.worker.rooms[0], s.worker.rooms[1..]);
      case NextRoom => PushKeeps(s, s.worker.m, s.worker.rest[0], s.worker.rest[1..]);
      case OfferNext(crowded) => OfferKeeps(s, crowded);
    }
  }

  lemma {:induction false} InvOverRuns(states: seq<State>, steps: seq<Step>, i: nat)
    requires IsRun(states, steps) && i < |states|
    ensures Inv(states[i])
  {
    if i > 0 {
      InvOverRuns(states, steps, i - 1);
      assert StepAt(states, steps, i - 1);
      StepKeeps(states[i - 1], steps[i - 1]);
    }
  }

  // ---- where the history comes from ----

  /** Step k brought this message for at least these rooms. */
  ghost predicate Lists(steps: seq<Step>, k: nat, m: Message, rooms: seq<Room>) {
    k < |steps| && steps[k].ListRooms? && steps[k].m == m && forall r | r in rooms :: r in steps[k].order
  }

  ghost predicate WasListed(steps: seq<Step>, i: nat, m: Message, rooms: seq<Room>) {
    exists k: nat :: k < i && Lists(steps, k, m, rooms)
  }

  ghost predicate WorkerListed(w: Worker, steps: seq<Step>, i: nat) {
    match w
    case Idle => true
    case Listed(m, rooms) => WasListed(steps, i, m, rooms)
    case Fanning(m, room, rest, _) => WasListed(steps, i, m, [room] + rest)
  }

  lemma LaterListed(steps: seq<Step>, i: nat, m: Message, rooms: seq<Room>, fewer: seq<Room>)
    requires WasListed(steps, i, m, rooms) && forall r | r in fewer :: r in rooms
    ensures WasListed(steps, i + 1, m, fewer)
  {
    var k: nat :| k < i && Lists(steps, k, m, rooms);
    assert Lists(steps, k, m, fewer);
  }

  lemma SameRoomsListed(w: Worker, steps: seq<Step>, i: nat, waiting: seq<Id>)
    requires WorkerListed(w, steps, i)
    ensures WorkerListed(w, steps, i + 1)
    ensures w.Fanning? ==> WorkerListed(w.(waiting := waiting), steps, i + 1)
  {
    match w
    case Idle =>
    case Listed(m, rooms) => LaterListed(steps, i, m, rooms, rooms);
    case Fanning(m, room, rest, _) => LaterListed(steps, i, m, [room] + rest, [room] + rest);
  }

  /** Going on to the next of the rooms leaves the others. */
  lemma NextRoomListed(steps: seq<Step>, i: nat, m: Message, done: seq<Room>, rooms: seq<Room>, waiting: seq<Id>)
    requires WasListed(steps, i, m, done + rooms) && rooms != []
    ensures WorkerListed(Fanning(m, rooms[0], rooms[1..], waiting), steps, i + 1)
  {
    assert [rooms[0]] + rooms[1..] == rooms;
    LaterListed(steps, i, m, done + rooms, [rooms[0]] + rooms[1..]);
  }

  /** What a step makes of the worker. */
  lemma WorkerAfter(s: State, step: Step)
    requires Enabled(s, step)
    ensures var w := Apply(s, step).worker;
            match step
            case ListRooms(m, order) => w == if order == [] then Idle else Listed(m, order)
            case LockAndPush => w == Fanning(s.worker.m, s.worker.rooms[0], s.worker.rooms[1..], s.sessions)
            case NextRoom => w == Fanning(s.worker.m, s.worker.rest[0], s.worker.rest[1..], s.sessions)
            case OfferNext(_) => w == s.worker.(waiting := s.worker.waiting[1..])
            case Unlock => w == Idle
            case _ => w == s.worker
  {
  }

  lemma StepKeepsListed(s: State, steps: seq<Step>, i: nat)
    requires i < |steps| && Enabled(s, steps[i]) && WorkerListed(s.worker, steps, i)
    ensures WorkerListed(Apply(s, steps[i]).worker, steps, i + 1)
  {
    var w := s.worker;
    WorkerAfter(s, steps[i]);
    match steps[i]
    case ListRooms(m, order) => assert Lists(steps, i, m, order);
    case LockAndPush =>
      assert [] + w.rooms == w.rooms;
      NextRoomListed(steps, i, w.m, [], w.rooms, s.sessions);
    case NextRoom => NextRoomListed(steps, i, w.m, [w.room], w.rest, s.sessions);
    case OfferNext(_) => SameRoomsListed(w, steps, i, w.waiting[1..]);
    case Unlock =>
    case _ => SameRoomsListed(w, steps, i, []);
  }

  lemma {:induction false} WorkerIsListed(states: seq<State>, steps: seq<Step>, i: nat)
    requires IsRun(states, steps) && i < |states|
    ensures WorkerListed(states[i].worker, steps, i)
  {
    if i > 0 {
      WorkerIsListed(states, steps, i - 1);
      assert StepAt(states, steps, i - 1);
      StepKeepsListed(states[i - 1], steps, i - 1);
    }
  }

  /** Some step before the i-th brought the message this entry carries, for this room. */
  ghost predicate Brought(steps: seq<Step>, i: nat, room: Room, e: Entry) {
    exists k: nat, m :: k < i && Lists(steps, k, m, [room]) && Carries(e, m, room)
  }

  lemma PushedIsBrought(s: State, step: Step, steps: seq<Step>, i: nat, room: Room, e: Entry)
    requires Enabled(s, step) && WorkerListed(s.worker, steps, i)
    requires e in History(Apply(s, step), room) && e !in History(s, room)
    ensures Brought(steps, i, room, e)
  {
    assert step.LockAndPush? || step.NextRoom?;
    var m := s.worker.m;
    assert e == EntryFor(m, room);
    var rooms := if step.LockAndPush? then s.worker.rooms else [s.worker.room] + s.worker.rest;
    var k: nat :| k < i && Lists(steps, k, m, rooms);
    assert room in rooms;
    assert Lists(steps, k, m, [room]) && Carries(e, m, room);
  }

  /** Every entry of a room's history carries, unaltered, a message that a peer sent and that
      was listed for that room.  With the segment theorem: so does all a client is sent. */
  lemma {:induction false} HistoryIsBrought(states: seq<State>, steps: seq<Step>, i: nat, room: Room, e: Entry)
    requires IsRun(states, steps) && i < |states| && e in History(states[i], room)
    ensures Brought(steps, i, room, e)
  {
    var s, step := states[i - 1], steps[i - 1];
    assert StepAt(states, steps, i - 1);
    if e in History(s, room) {
      HistoryIsBrought(states, steps, i - 1, room, e);
      var k: nat, m :| k < i - 1 && Lists(steps, k, m, [room]) && Carries(e, m, room);
      assert k < i && Lists(steps, k, m, [room]) && Carries(e, m, room);
    } else {
      WorkerIsListed(states, steps, i - 1);
      PushedIsBrought(s, step, steps, i - 1, room, e);
      var k: nat, m :| k < i - 1 && Lists(steps, k, m, [room]) && Carries(e, m, room);
      assert k < i && Lists(steps, k, m, [room]) && Carries(e, m, room);
    }
  }

  // ---- a leave that nothing interrupts ----

  /** The critical sections of a leave, one after another. */
  function LeaveAlone(s: State, id: Id, room: Room): State
    requires Enabled(s, StartLeave(id, room)) && !Locked(s)
  {
    var left := Apply(s, StartLeave(id, room));
    if !left.clients[id].phase.Leaving? then left
    else
      var checked := Apply(left, CheckUsed(id));
      if !checked.clients[id].phase.Retiring? then checked
      else Apply(Apply(checked, Retire(id)), Free(id))
  }

  /** A session was the last to want the room: the room and its backlog go. */
  lemma RetireAndFree(s: State, id: Id, room: Room)
    requires InPhase(s, id, Retiring(room)) && !Locked(s)
    ensures Enabled(s, Retire(id)) && Enabled(Apply(s, Retire(id)), Free(id))
    ensures var t := Apply(Apply(s, Retire(id)), Free(id));
            t == WithClient(s, id, s.clients[id].(phase := Ready)).(
                   rooms := s.rooms - {room}, queues := s.queues - {room}, marks := s.marks[room := |History(s, room)|])
  {
    var r := Apply(s, Retire(id));
    assert r.clients[id := r.clients[id].(phase := Ready)] == s.clients[id := s.clients[id].(phase := Ready)];
  }

  lemma StartAndCheck(s: State, id: Id, room: Room)
    requires Enabled(s, StartLeave(id, room)) && !Locked(s) && room in s.clients[id].subs
    ensures var left := Apply(s, StartLeave(id, room));
            && Enabled(left, CheckUsed(id))
            && Apply(left, CheckUsed(id)) == WithClient(s, id, s.clients[id].(
                 subs := s.clients[id].subs - {room},
                 phase := if WantedByOthers(s, id, room) then Ready else Retiring(room)))
  {
    var left := Apply(s, StartLeave(id, room));
    UsedMeans(left, room);
    if WantedByOthers(s, id, room) {
      var k :| k in s.sessions && k in s.clients && k != id && room in s.clients[k].subs;
      assert room in left.clients[k].subs;
    }
  }

  predicate WantedByOthers(s: State, id: Id, room: Room) {
    exists k :: k in s.sessions && k in s.clients && k != id && room in s.clients[k].subs
  }

  lemma LeaveStillWanted(s: State, id: Id, room: Room)
    requires Enabled(s, StartLeave(id, room)) && !Locked(s)
    requires room in s.clients[id].subs && WantedByOthers(s, id, room)
    ensures LeaveAlone(s, id, room) == WithClient(s, id, s.clients[id].(subs := s.clients[id].subs - {room}))
  {
    StartAndCheck(s, id, room);
  }

  lemma LeaveAsLast(s: State, id: Id, room: Room)
    requires Enabled(s, StartLeave(id, room)) && !Locked(s)
    requires room in s.clients[id].subs && !WantedByOthers(s, id, room)
    ensures LeaveAlone(s, id, room)
            == WithClient(s, id, s.clients[id].(subs := s.clients[id].subs - {room})).(
                 rooms := s.rooms - {room}, queues := s.queues - {room}, marks := s.marks[room := |History(s, room)|])
  {
    StartAndCheck(s, id, room);
    var left := s.clients[id].(subs := s.clients[id].subs - {room});
    var checked := WithClient(s, id, left.(phase := Retiring(room)));
    assert checked.clients[id := left] == s.clients[id := left];
    RetireAndFree(checked, id, room);
  }

  /** Uninterrupted they come to `Daemon.Leave`: the client is unsubscribed, and the room and
      its backlog go if and only if it was subscribed and no other listed session wants it. */
  lemma LeaveAloneIsLeave(s: State, id: Id, room: Room)
    requires Enabled(s, StartLeave(id, room)) && !Locked(s)
    ensures var t, c := LeaveAlone(s, id, room), s.clients[id];
            var retired := room in c.subs && !WantedByOthers(s, id, room);
            && t.clients == s.clients[id := c.(subs := c.subs - {room})]
            && t.queues == (if retired then s.queues - {room} else s.queues)
            && t.rooms == (if retired then s.rooms - {room} else s.rooms)
            && t.sessions == s.sessions && t.worker == s.worker && t.history == s.history
  {
    var c := s.clients[id];
    if room !in c.subs {
      assert c.subs - {room} == c.subs;
    } else if WantedByOthers(s, id, room) {
      LeaveStillWanted(s, id, room);
    } else {
      LeaveAsLast(s, id, room);
    }
  }

  lemma UsedMeans(s: State, room: Room)
    ensures UsedIn(s, room) <==> exists k :: k in s.sessions && k in s.clients && room in s.clients[k].subs
  {
    if k :| k in s.sessions && k in s.clients && room in s.clients[k].subs {
      var i :| 0 <= i < |s.sessions| && s.sessions[i] == k;
    }
  }

  // ---- what a subscriber sees ----

  /** The session joined the room, and never again since. */
  predicate JoinedOnce(s: State, id: Id, room: Room) {
    id in s.clients && room in s.clients[id].joins && room !in s.clients[id].rejoined
  }

  /** At every point of every interleaving: what a session that joined a room once and never
      had a full channel has been sent of the room is one gap-free, repeat-free, in-order
      segment of the room's pushes.  It starts at the last min(k, 500) of the k pushes
      between the previous drain or removal and the join; and when nothing is on its way to
      a subscribed session, it reaches to the latest push. */
  lemma SubscriberSeesSegment(states: seq<State>, steps: seq<Step>, i: nat, id: Id, room: Room)
    requires IsRun(states, steps) && i < |states|
    requires JoinedOnce(states[i], id, room) && !states[i].clients[id].overflowed
    ensures var s := states[i];
            s.clients[id].joins[room].mark <= s.clients[id].joins[room].at <= |History(s, room)|
    ensures var s := states[i];
            var got := RoomOnly(room, s.clients[id].delivered);
            var from := From(s.clients[id].joins[room]);
            && from + |got| <= |History(s, room)|
            && got == History(s, room)[from..from + |got|]
            && (room in s.clients[id].subs && id in s.sessions && !AboutToOffer(s, id, room)
                && RoomOnly(room, s.clients[id].backlog) == [] && RoomOnly(room, s.clients[id].outbox) == []
                ==> got == History(s, room)[from..])
  {
    InvOverRuns(states, steps, i);
    var s := states[i];
    assert PairOk(s, id, room);
    var got, all := RoomOnly(room, s.clients[id].delivered), Stream(s.clients[id], room);
    assert got == all[..|got|];
  }

  lemma ServedKeepsJoin(c: Client, e: Entry, crowded: bool, room: Room)
    requires room in c.joins
    ensures room in Served(c, e, crowded).joins
    ensures Served(c, e, crowded).joins[room].at == c.joins[room].at
        && Served(c, e, crowded).joins[room].mark == c.joins[room].mark
  {
  }

  predicate SameJoin(s: State, t: State, id: Id, room: Room) {
    && id in s.clients && room in s.clients[id].joins && id in t.clients && room in t.clients[id].joins
    && t.clients[id].joins[room].at == s.clients[id].joins[room].at
    && t.clients[id].joins[room].mark == s.clients[id].joins[room].mark
  }

  lemma StepKeepsJoin(s: State, step: Step, id: Id, room: Room)
    requires Enabled(s, step) && id in s.clients && room in s.clients[id].joins
    ensures SameJoin(s, Apply(s, step), id, room)
  {
    match step
    case OfferNext(crowded) =>
      if id == s.worker.waiting[0] {
        ServedKeepsJoin(s.clients[id], EntryFor(s.worker.m, s.worker.room), crowded, room);
      }
    case _ =>
  }

  /** The start of the segment is settled by the first join and never moves. */
  lemma {:induction false} JoinIsSettled(states: seq<State>, steps: seq<Step>, i: nat, k: nat, id: Id, room: Room)
    requires IsRun(states, steps) && i <= k < |states|
    requires id in states[i].clients && room in states[i].clients[id].joins
    ensures SameJoin(states[i], states[k], id, room)
  {
    if i < k {
      var s, step := states[k - 1], steps[k - 1];
      JoinIsSettled(states, steps, i, k - 1, id, room);
      assert StepAt(states, steps, k - 1);
      StepKeepsJoin(s, step, id, room);
    }
  }

  /** What a client still subscribed drains when it joins again. */
  lemma BacklogOfRejoin(s: State, id: Id, room: Room)
    requires CanJoin(s, id) && s.clients[id].phase.room == room && PairOk(s, id, room) && QueueOk(s, room)
    requires room in s.clients[id].subs && JoinedOnce(s, id, room) && !s.clients[id].overflowed && id in s.sessions
    ensures var all, again := Stream(s.clients[id], room), Bucket(s.queues, room);
            && |again| == Min(|History(s, room)| - Mark(s, room), MAX_MESSAGES_PER_ROOM) <= |all|
            && again == all[|all| - |again|..]
  {
    LastOfTail(History(s, room), Mark(s, room));
    EndOfSegment(s.clients[id], room, History(s, room), Bucket(s.queues, room), Mark(s, room));
  }

  lemma JoinStep(states: seq<State>, steps: seq<Step>, i: nat, id: Id)
    requires IsRun(states, steps) && i < |steps| && steps[i] == SubscribeAndDrain(id)
    ensures CanJoin(states[i], id) && states[i + 1] == AfterJoin(states[i], id)
  {
    assert StepAt(states, steps, i);
  }

  /** A second join by a session still subscribed drains exactly the last min(k, 500) of the
      k pushes since the previous drain or removal, and all of them are the end of what the
      session has been given already.  So it repeats something if and only if something was
      pushed since, which is if and only if the room's queue is not empty. */
  lemma RejoinRepeats(states: seq<State>, steps: seq<Step>, i: nat, id: Id, room: Room)
    requires IsRun(states, steps) && i < |steps| && steps[i] == SubscribeAndDrain(id)
    requires JoinedOnce(states[i], id, room) && !states[i].clients[id].overflowed && id in states[i].sessions
    requires states[i].clients[id].phase == Joining(room) && room in states[i].clients[id].subs
    ensures id in states[i + 1].clients
    ensures var s, all, again := states[i], Stream(states[i].clients[id], room), states[i + 1].clients[id].backlog;
            && Mark(s, room) <= |History(s, room)|
            && |again| == Min(|History(s, room)| - Mark(s, room), MAX_MESSAGES_PER_ROOM) <= |all|
            && again == all[|all| - |again|..]
            && (again != [] <==> Mark(s, room) < |History(s, room)|)
            && (again != [] <==> Bucket(s.queues, room) != [])
  {
    JoinStep(states, steps, i, id);
    assert PairOk(states[i], id, room) && QueueOk(states[i], room) by { InvOverRuns(states, steps, i); }
    BacklogOfRejoin(states[i], id, room);
  }

  /** What a client drains when it joins again, whether or not it left in between. */
  lemma OverlapOfRejoin(c: Client, room: Room, h: seq<Entry>, b: seq<Entry>)
    requires room in c.joins && c.joins[room].mark <= c.joins[room].at <= c.joins[room].to <= |h|
    requires Stream(c, room) == h[From(c.joins[room])..c.joins[room].to]
    requires |b| <= |h| - c.joins[room].at && b == h[|h| - |b|..]
    ensures var k, all := Overlap(c.joins[room], |h|, |b|), Stream(c, room);
            && k <= |b| && k <= |all| && b[..k] == all[|all| - k..]
            && b[k..] == h[|h| - |b| + k..] && |h| - |b| + k >= c.joins[room].to
  {
    var k, j, all := Overlap(c.joins[room], |h|, |b|), c.joins[room], Stream(c, room);
    if k > 0 {
      TailOfSlice(h, From(j), j.to, k);
      assert b[..k] == h[|h| - |b|..][..k] == h[j.to - k..j.to];
    }
  }

  lemma TailOfSlice(h: seq<Entry>, from: nat, to: nat, k: nat)
    requires from <= to <= |h| && k <= to - from
    ensures h[from..to][to - from - k..] == h[to - k..to]
  {
  }

  /** How many of the last n of `pushed` messages the client has been offered. */
  function Overlap(j: Join, pushed: nat, n: nat): nat
    requires n <= pushed
  {
    if pushed - n < j.to then j.to - (pushed - n) else 0
  }

  /** Every second join, also after a leave: of what it drains, exactly the first k entries
      repeat the end of what the session was given, and the rest come after all of that.
      Something is repeated if and only if a message offered to the session was pushed since
      the last drain or removal and is among the last 500. */
  lemma SecondJoinRepeats(states: seq<State>, steps: seq<Step>, i: nat, id: Id, room: Room)
    requires IsRun(states, steps) && i < |steps| && steps[i] == SubscribeAndDrain(id)
    requires JoinedOnce(states[i], id, room) && !states[i].clients[id].overflowed
    requires states[i].clients[id].phase == Joining(room)
    ensures id in states[i + 1].clients
    ensures var s, all, again := states[i], Stream(states[i].clients[id], room), states[i + 1].clients[id].backlog;
            var h, j := History(s, room), s.clients[id].joins[room];
            && Mark(s, room) <= |h| && j.to <= |h|
            && |again| == Min(|h| - Mark(s, room), MAX_MESSAGES_PER_ROOM) && again == h[|h| - |again|..]
            && var k := Overlap(j, |h|, |again|);
            && k <= |again| && k <= |all| && again[..k] == all[|all| - k..]
            && |h| - |again| + k >= j.to
            && (k > 0 <==> Mark(s, room) < j.to && |h| - MAX_MESSAGES_PER_ROOM < j.to)
  {
    JoinStep(states, steps, i, id);
    assert PairOk(states[i], id, room) && QueueOk(states[i], room) by { InvOverRuns(states, steps, i); }
    DrainedSegment(states[i], room);
    OverlapOfRejoin(states[i].clients[id], room, History(states[i], room), Bucket(states[i].queues, room));
  }

  // ---- a repeat ----

  /** A run can be continued by a step that leads from its last state to t. */
  lemma Continue(states: seq<State>, steps: seq<Step>, step: Step, t: State)
    returns (longer: seq<State>, all: seq<Step>)
    requires IsRun(states, steps) && Leads(states[|steps|], step, t)
    ensures IsRun(longer, all) && longer[|all|] == t && |all| == |steps| + 1
  {
    longer, all := states + [t], steps + [step];
    forall i: nat | i < |all| ensures StepAt(longer, all, i) {
      if i < |steps| { assert StepAt(states, steps, i); }
    }
  }

  predicate Leads(s: State, step: Step, t: State) {
    Enabled(s, step) && Apply(s, step) == t
  }

  /** A daemon in one room, with the one client 0. */
  function Solo(room: Room, queue: seq<Entry>, c: Client, worker: Worker, pushed: seq<Entry>, mark: nat): State {
    State({room}, map[room := queue], [0], map[0 := c], worker, map[room := pushed], map[room := mark])
  }

  /** A client that joined the room before anything was pushed, when `to` messages of it
      have been offered. */
  function Newly(room: Room, to: nat, outbox: seq<Entry>, delivered: seq<Entry>): Client {
    Client({room}, outbox, [], delivered, Ready, map[room := Join(0, 0, to)], {}, false)
  }

  /** The first join of the only client, up to the end of the drain. */
  lemma AloneInRoom(room: Room) returns (states: seq<State>, steps: seq<Step>)
    ensures IsRun(states, steps)
    ensures states[|steps|] == State({room}, map[], [0], map[0 := Newly(room, 0, [], [])], Idle, map[], map[room := 0])
  {
    var c := Newly(room, 0, [], []);
    var s1 := EMPTY.(sessions := [0], clients := map[0 := NEWCOMER]);
    var s2 := s1.(rooms := {room}, clients := map[0 := NEWCOMER.(phase := Joining(room))]);
    var s3 := s2.(clients := map[0 := c.(phase := Flushing)], marks := map[room := 0]);
    assert Leads(EMPTY, Connect(0), s1);
    assert Leads(s1, StartJoin(0, room), s2);
    assert Leads(s2, SubscribeAndDrain(0), s3);
    assert Leads(s3, FinishJoin(0), s3.(clients := map[0 := c]));
    states, steps := [EMPTY], [];
    states, steps := Continue(states, steps, Connect(0), s1);
    states, steps := Continue(states, steps, StartJoin(0, room), s2);
    states, steps := Continue(states, steps, SubscribeAndDrain(0), s3);
    states, steps := Continue(states, steps, FinishJoin(0), s3.(clients := map[0 := c]));
  }

  lemma PushOne(room: Room, m: Message, c: Client)
    ensures Leads(State({room}, map[], [0], map[0 := c], Listed(m, [room]), map[], map[room := 0]), LockAndPush,
                  Solo(room, [EntryFor(m, room)], c, Fanning(m, room, [], [0]), [EntryFor(m, room)], 0))
  {
    var e := EntryFor(m, room);
    assert [] + [e] == [e] && [room][1..] == [];
  }

  lemma OfferOne(room: Room, m: Message)
    ensures var e := EntryFor(m, room);
            Leads(Solo(room, [e], Newly(room, 0, [], []), Fanning(m, room, [], [0]), [e], 0), OfferNext(false),
                  Solo(room, [e], Newly(room, 1, [e], []), Fanning(m, room, [], []), [e], 0))
  {
    var e := EntryFor(m, room);
    assert [] + [e] == [e] && [0][1..] == [];
    assert Served(Newly(room, 0, [], []), e, false) == Newly(room, 1, [e], []);
  }

  lemma ListOne(room: Room, m: Message, c: Client)
    ensures var s := State({room}, map[], [0], map[0 := c], Idle, map[], map[room := 0]);
            Leads(s, ListRooms(m, [room]), s.(worker := Listed(m, [room])))
  {
  }

  lemma UnlockOne(room: Room, m: Message, e: Entry, c: Client)
    ensures var s := Solo(room, [e], c, Fanning(m, room, [], []), [e], 0);
            Leads(s, Unlock, s.(worker := Idle))
  {
  }

  /** Then one message, which the worker pushes ... */
  lemma OnePush(room: Room, m: Message) returns (states: seq<State>, steps: seq<Step>)
    ensures IsRun(states, steps)
    ensures var e := EntryFor(m, room);
            states[|steps|] == Solo(room, [e], Newly(room, 0, [], []), Fanning(m, room, [], [0]), [e], 0)
  {
    var e, c := EntryFor(m, room), Newly(room, 0, [], []);
    states, steps := AloneInRoom(room);
    ListOne(room, m, c);
    states, steps := Continue(states, steps, ListRooms(m, [room]), states[|steps|].(worker := Listed(m, [room])));
    PushOne(room, m, c);
    states, steps := Continue(states, steps, LockAndPush, Solo(room, [e], c, Fanning(m, room, [], [0]), [e], 0));
  }

  /** ... and offers to the client. */
  lemma OneMessage(room: Room, m: Message) returns (states: seq<State>, steps: seq<Step>)
    ensures IsRun(states, steps)
    ensures var e := EntryFor(m, room); states[|steps|] == Solo(room, [e], Newly(room, 1, [e], []), Idle, [e], 0)
  {
    var e := EntryFor(m, room);
    var c := Newly(room, 1, [e], []);
    states, steps := OnePush(room, m);
    OfferOne(room, m);
    states, steps := Continue(states, steps, OfferNext(false), Solo(room, [e], c, Fanning(m, room, [], []), [e], 0));
    UnlockOne(room, m, e, c);
    states, steps := Continue(states, steps, Unlock, Solo(room, [e], c, Idle, [e], 0));
  }

  /** The client of that run, at its second join with the backlog still to come. */
  function JoinedAgain(room: Room, backlog: seq<Entry>, delivered: seq<Entry>): Client {
    Client({room}, [], backlog, delivered, Flushing, map[room := Join(0, 0, 1)], {room}, false)
  }

  lemma SendOne(room: Room, e: Entry)
    ensures Leads(Solo(room, [e], Newly(room, 1, [e], []), Idle, [e], 0), SendLive(0),
                  Solo(room, [e], Newly(room, 1, [], [e]), Idle, [e], 0))
  {
    assert [] + [e] == [e] && [e][1..] == [];
  }

  lemma StartAgain(room: Room, e: Entry)
    ensures Leads(Solo(room, [e], Newly(room, 1, [], [e]), Idle, [e], 0), StartJoin(0, room),
                  Solo(room, [e], Newly(room, 1, [], [e]).(phase := Joining(room)), Idle, [e], 0))
  {
    assert {room} + {room} == {room};
  }

  lemma DrainAgain(room: Room, e: Entry)
    ensures Leads(Solo(room, [e], Newly(room, 1, [], [e]).(phase := Joining(room)), Idle, [e], 0), SubscribeAndDrain(0),
                  Solo(room, [], JoinedAgain(room, [e], [e]), Idle, [e], 1))
  {
    assert {room} + {room} == {room} && {} + {room} == {room};
  }

  lemma SendAgain(room: Room, e: Entry)
    ensures Leads(Solo(room, [], JoinedAgain(room, [e], [e]), Idle, [e], 1), SendBacklog(0),
                  Solo(room, [], JoinedAgain(room, [], [e, e]), Idle, [e], 1))
  {
    assert [e] + [e] == [e, e] && [e][1..] == [];
  }

  lemma RejoinRun(room: Room, m: Message) returns (states: seq<State>, steps: seq<Step>)
    ensures IsRun(states, steps)
    ensures var e := EntryFor(m, room); states[|steps|] == Solo(room, [], JoinedAgain(room, [], [e, e]), Idle, [e], 1)
  {
    var e := EntryFor(m, room);
    states, steps := OneMessage(room, m);
    SendOne(room, e);
    states, steps := Continue(states, steps, SendLive(0), Solo(room, [e], Newly(room, 1, [], [e]), Idle, [e], 0));
    StartAgain(room, e);
    states, steps := Continue(states, steps, StartJoin(0, room),
                              Solo(room, [e], Newly(room, 1, [], [e]).(phase := Joining(room)), Idle, [e], 0));
    DrainAgain(room, e);
    states, steps := Continue(states, steps, SubscribeAndDrain(0),
                              Solo(room, [], JoinedAgain(room, [e], [e]), Idle, [e], 1));
    SendAgain(room, e);
    states, steps := Continue(states, steps, SendBacklog(0),
                              Solo(room, [], JoinedAgain(room, [], [e, e]), Idle, [e], 1));
  }

  /** A run in which the repeat happens: join, one message, join again -- and the client is
      sent the message twice, though it was pushed once. */
  lemma RejoinSendsTwice(room: Room, m: Message) returns (states: seq<State>, steps: seq<Step>)
    ensures IsRun(states, steps) && 0 in states[|steps|].clients
    ensures History(states[|steps|], room) == [EntryFor(m, room)]
    ensures states[|steps|].clients[0].delivered == [EntryFor(m, room), EntryFor(m, room)]
  {
    states, steps := RejoinRun(room, m);
  }

  lemma EndOfSegment(c: Client, room: Room, h: seq<Entry>, b: seq<Entry>, mark: nat)
    requires room in c.joins && room in c.subs && Segment(c, room, h, true, false)
    requires c.joins[room].at <= mark <= |h| && |b| <= |h| - mark && b == h[|h| - |b|..]
    ensures var all := Stream(c, room);
            |b| <= |all| && b == all[|all| - |b|..]
  {
    var from := From(c.joins[room]);
    assert Stream(c, room) == h[from..|h|];
    TailOfSegment(h, from, |b|);
  }

  // ---- the worker's loop as one step ----

  /** What a pass of the worker over all rooms does to one client, if nothing intervenes. */
  function ServedAll(c: Client, m: Message, rooms: seq<Room>): Client {
    if rooms == [] then c
    else Served(ServedAll(c, m, rooms[..|rooms| - 1]), EntryFor(m, rooms[|rooms| - 1]), false)
  }

  /** The protocol's offers, taken together, are the worker's loop: the channel ends up as
      `Daemon.FanOut` leaves it. */
  lemma {:induction false} OffersAreFanOut(c: Client, m: Message, rooms: seq<Room>)
    ensures ServedAll(c, m, rooms).subs == c.subs
    ensures ServedAll(c, m, rooms).outbox == OfferedAll(c.outbox, c.subs, m, rooms)
  {
    if rooms != [] { OffersAreFanOut(c, m, rooms[..|rooms| - 1]); }
  }
}
