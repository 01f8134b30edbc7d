/** The daemon's backlog: one bounded queue per room, and the two critical sections that
    move messages from it and past it to the clients. */
module Backlog {
  import Seqs

  const MAX_MESSAGES_PER_ROOM := 500
  const OUTBOUND_CAPACITY := 1024

  /** A room, by its code. */
  datatype Room = Room(code: string)

  /** A queued message; the payload is passed through unread. */
  datatype Entry = Entry(room: Room, from: string, payload: string, ts: nat)

  /** A peer's message before it is filed under a room. */
  datatype Message = Message(from: string, payload: string, ts: nat)

  /** The entry carries the message, filed under the room. */
  predicate Carries(e: Entry, m: Message, room: Room) {
    e.room == room && e.from == m.from && e.payload == m.payload && e.ts == m.ts
  }

  function EntryFor(m: Message, room: Room): Entry {
    Entry(room, m.from, m.payload, m.ts)
  }

  function LastOf(s: seq<Entry>, n: nat): (r: seq<Entry>)
    ensures |r| == if |s| <= n then |s| else n
  {
    if |s| <= n then s else s[|s| - n..]
  }

  type Queues = map<Room, seq<Entry>>

  function Bucket(q: Queues, room: Room): seq<Entry> {
    if room in q then q[room] else []
  }

  function Pushed(q: Queues, e: Entry): Queues {
    var b := Bucket(q, e.room);
    q[e.room := (if |b| >= MAX_MESSAGES_PER_ROOM then b[1..] else b) + [e]]
  }

  function Drained(q: Queues, room: Room): Queues {
    if room in q then q[room := []] else q
  }

  function SinceIn(since: map<Room, seq<Entry>>, room: Room): seq<Entry> {
    if room in since then since[room] else []
  }

  function PushedSince(since: map<Room, seq<Entry>>, e: Entry): map<Room, seq<Entry>> {
    since[e.room := SinceIn(since, e.room) + [e]]
  }

  /** The bucket is what the bound leaves of everything since. */
  ghost predicate Bounded(q: Queues, since: map<Room, seq<Entry>>, room: Room) {
    Bucket(q, room) == LastOf(SinceIn(since, room), MAX_MESSAGES_PER_ROOM)
  }

  /** The bound evicts the oldest: after a push the bucket is the last 500 of what it would
      have been without a bound. */
  lemma PushKeepsLast(q: Queues, e: Entry, all: seq<Entry>)
    requires Bucket(q, e.room) == LastOf(all, MAX_MESSAGES_PER_ROOM)
    ensures Bucket(Pushed(q, e), e.room) == LastOf(all + [e], MAX_MESSAGES_PER_ROOM)
  {
  }

  class MessageQueue {
    var queues: Queues
    /** For each room, everything pushed since its queue was last drained or removed. */
    ghost var since: map<Room, seq<Entry>>

    ghost function Since(room: Room): seq<Entry>
      reads this
    {
      SinceIn(since, room)
    }

    ghost predicate Valid()
      reads this
    {
      forall room: Room :: Bounded(queues, since, room)
    }

    constructor ()
      ensures Valid() && queues == map[] && since == map[]
    {
      queues, since := map[], map[];
    }

    method Push(e: Entry)
      requires Valid()
      modifies this
      ensures Valid()
      ensures since == PushedSince(old(since), e)
      ensures queues == Pushed(old(queues), e)
    {
      assert Bounded(queues, since, e.room);
      PushKeepsLast(queues, e, Since(e.room));
      if e.room !in queues {
        queues := queues[e.room := []];
      }
      if |queues[e.room]| >= MAX_MESSAGES_PER_ROOM {
        queues := queues[e.room := queues[e.room][1..]];
      }
      queues := queues[e.room := queues[e.room] + [e]];
      since := since[e.room := Since(e.room) + [e]];
      assert queues == Pushed(old(queues), e);
      forall room: Room ensures Bounded(queues, since, room) {
        assert Bounded(old(queues), old(since), room);
      }
    }

    /** Takes the backlog of a room: the last 500 of everything pushed since the previous
        drain or removal, oldest first. */
    method Drain(room: Room) returns (drained: seq<Entry>)
      requires Valid()
      modifies this
      ensures Valid()
      ensures drained == LastOf(old(Since(room)), MAX_MESSAGES_PER_ROOM)
      ensures since == old(since)[room := []] && queues == Drained(old(queues), room)
    {
      drained := [];
      assert Bounded(queues, since, room);
      if room in queues {
        drained := queues[room];
        queues := queues[room := []];
      }
      since := since[room := []];
      forall r: Room ensures Bounded(queues, since, r) {
        assert Bounded(old(queues), old(since), r);
      }
    }

    method RemoveRoom(room: Room)
      requires Valid()
      modifies this
      ensures Valid()
      ensures since == old(since)[room := []] && queues == old(queues) - {room}
    {
      queues := queues - {room};
      since := since[room := []];
      forall r: Room ensures Bounded(queues, since, r) {
        assert Bounded(old(queues), old(since), r);
      }
    }

    method Len(room: Room) returns (n: nat)
      requires Valid()
      ensures n == |LastOf(Since(room), MAX_MESSAGES_PER_ROOM)|
    {
      assert Bounded(queues, since, room);
      if room in queues { return |queues[room]|; }
      return 0;
    }
  }

  /** One WebSocket client: the rooms it takes messages from, and its outbound channel. */
  class SessionEntry {
    var subs: set<Room>
    var outbox: seq<Entry>

    constructor ()
      ensures subs == {} && outbox == []
    {
      subs, outbox := {}, [];
    }

    /** `try_send`: a full channel drops the message. */
    method TrySend(e: Entry) returns (ok: bool)
      modifies this`outbox
      ensures ok <==> |old(outbox)| < OUTBOUND_CAPACITY
      ensures outbox == Offered(old(outbox), e)
    {
      if |outbox| >= OUTBOUND_CAPACITY { return false; }
      outbox := outbox + [e];
      return true;
    }
  }

  function Offered(outbox: seq<Entry>, e: Entry): seq<Entry> {
    if |outbox| < OUTBOUND_CAPACITY then outbox + [e] else outbox
  }

  /** What a client's channel holds after the message went out under each of the rooms. */
  function OfferedAll(outbox: seq<Entry>, subs: set<Room>, m: Message, rooms: seq<Room>): seq<Entry> {
    if rooms == [] then outbox
    else
      var before := OfferedAll(outbox, subs, m, rooms[..|rooms| - 1]);
      var room := rooms[|rooms| - 1];
      if room in subs then Offered(before, EntryFor(m, room)) else before
  }

  function PushedAll(q: Queues, m: Message, rooms: seq<Room>): Queues {
    if rooms == [] then q else Pushed(PushedAll(q, m, rooms[..|rooms| - 1]), EntryFor(m, rooms[|rooms| - 1]))
  }

  function PushedSinceAll(since: map<Room, seq<Entry>>, m: Message, rooms: seq<Room>): map<Room, seq<Entry>> {
    if rooms == [] then since
    else PushedSince(PushedSinceAll(since, m, rooms[..|rooms| - 1]), EntryFor(m, rooms[|rooms| - 1]))
  }

  /** What a room's pushes gain from a message: one entry that carries it for each time the
      room is listed, and nothing else. */
  ghost predicate RoomGains(before: seq<Entry>, after: seq<Entry>, m: Message, rooms: seq<Room>, room: Room) {
    && |after| == |before| + multiset(rooms)[room] && after[..|before|] == before
    && forall k | |before| <= k < |after| :: Carries(after[k], m, room)
  }

  function SubscribedTo(subs: set<Room>): Room -> bool {
    (room: Room) => room in subs
  }

  /** What a client's channel gains: one entry for each listed room it subscribes to, in the
      order of the list, as far as the channel has room for them. */
  ghost predicate ChannelGains(before: seq<Entry>, after: seq<Entry>, m: Message, subs: set<Room>, rooms: seq<Room>) {
    var wanted, free := Seqs.Filter(SubscribedTo(subs), rooms), OUTBOUND_CAPACITY - |before|;
    && |after| == |before| + (if |wanted| <= free then |wanted| else if free >= 0 then free else 0)
    && after[..|before|] == before
    && forall k | 0 <= k < |after| - |before| :: Carries(after[|before| + k], m, wanted[k])
  }

  lemma {:induction false} PushesGain(since: map<Room, seq<Entry>>, m: Message, rooms: seq<Room>, room: Room)
    ensures RoomGains(SinceIn(since, room), SinceIn(PushedSinceAll(since, m, rooms), room), m, rooms, room)
  {
    if rooms != [] {
      var init, last := rooms[..|rooms| - 1], rooms[|rooms| - 1];
      PushesGain(since, m, init, room);
      assert rooms == init + [last];
      assert multiset(rooms)[room] == multiset(init)[room] + (if last == room then 1 else 0);
    }
  }

  lemma {:induction false} OffersGain(outbox: seq<Entry>, subs: set<Room>, m: Message, rooms: seq<Room>)
    ensures ChannelGains(outbox, OfferedAll(outbox, subs, m, rooms), m, subs, rooms)
  {
    if rooms != [] {
      OffersGain(outbox, subs, m, rooms[..|rooms| - 1]);
    }
  }

  class Daemon {
    const queue: MessageQueue
    var sessions: seq<SessionEntry>

    ghost predicate Valid()
      reads this, queue
    {
      queue.Valid() && forall i, j | 0 <= i < j < |sessions| :: sessions[i] != sessions[j]
    }

    constructor ()
      ensures Valid() && sessions == [] && fresh(queue)
    {
      queue := new MessageQueue();
      sessions := [];
    }

    /** The worker's critical section for one message: under every room the daemon is in it
        is queued, and offered to every client subscribed to that room. */
    method FanOut(m: Message, rooms: seq<Room>)
      requires Valid()
      modifies queue, sessions
      ensures Valid()
      ensures queue.queues == PushedAll(old(queue.queues), m, rooms)
      ensures queue.since == PushedSinceAll(old(queue.since), m, rooms)
      ensures forall c | c in sessions ::
        c.subs == old(c.subs) && c.outbox == OfferedAll(old(c.outbox), c.subs, m, rooms)
      // in both places the message arrives unaltered, once per room, in the order of the rooms
      ensures forall room: Room :: RoomGains(old(queue.Since(room)), queue.Since(room), m, rooms, room)
      ensures forall c | c in sessions :: ChannelGains(old(c.outbox), c.outbox, m, c.subs, rooms)
    {
      var i := 0;
      while i < |rooms|
        invariant 0 <= i <= |rooms| && Valid()
        invariant queue.queues == PushedAll(old(queue.queues), m, rooms[..i])
        invariant queue.since == PushedSinceAll(old(queue.since), m, rooms[..i])
        invariant forall c | c in sessions ::
          c.subs == old(c.subs) && c.outbox == OfferedAll(old(c.outbox), c.subs, m, rooms[..i])
      {
        assert rooms[..i + 1][..i] == rooms[..i];
        queue.Push(EntryFor(m, rooms[i]));
        OfferToAll(EntryFor(m, rooms[i]));
        i := i + 1;
      }
      assert rooms[..i] == rooms;
      forall room: Room ensures RoomGains(old(queue.Since(room)), queue.Since(room), m, rooms, room) {
        PushesGain(old(queue.since), m, rooms, room);
      }
      forall c | c in sessions ensures ChannelGains(old(c.outbox), c.outbox, m, c.subs, rooms) {
        OffersGain(old(c.outbox), c.subs, m, rooms);
      }
    }

    method OfferToAll(e: Entry)
      requires Valid()
      modifies sessions
      ensures Valid()
      ensures forall c | c in sessions ::
        c.subs == old(c.subs) && c.outbox == if e.room in c.subs then Offered(old(c.outbox), e) else old(c.outbox)
    {
      var j := 0;
      while j < |sessions|
        invariant 0 <= j <= |sessions| && Valid()
        invariant forall k | 0 <= k < |sessions| :: sessions[k].subs == old(sessions[k].subs)
        invariant forall k | j <= k < |sessions| :: sessions[k].outbox == old(sessions[k].outbox)
        invariant forall k | 0 <= k < j ::
          sessions[k].outbox
          == if e.room in sessions[k].subs then Offered(old(sessions[k].outbox), e) else old(sessions[k].outbox)
      {
        if e.room in sessions[j].subs {
          var ok := sessions[j].TrySend(e);
        }
        j := j + 1;
      }
    }

    /** The critical section of a join: subscribe and take the backlog at once. */
    method SubscribeAndDrain(client: SessionEntry, room: Room) returns (drained: seq<Entry>)
      requires Valid()
      modifies queue, client`subs
      ensures Valid()
      ensures client.subs == old(client.subs) + {room}
      ensures drained == LastOf(old(queue.Since(room)), MAX_MESSAGES_PER_ROOM)
      ensures queue.queues == Drained(old(queue.queues), room) && queue.since == old(queue.since)[room := []]
    {
      client.subs := client.subs + {room};
      drained := queue.Drain(room);
    }

    /** A leave: unsubscribe, and if no client wants the room any more, drop its backlog.
        The result says whether the room was retired. */
    method Leave(client: SessionEntry, room: Room) returns (retired: bool)
      requires Valid()
      modifies queue, client`subs
      ensures Valid()
      ensures client.subs == old(client.subs) - {room}
      ensures retired <==> room in old(client.subs) && forall c | c in sessions :: room !in c.subs
      ensures queue.queues == if retired then old(queue.queues) - {room} else old(queue.queues)
      ensures queue.since == if retired then old(queue.since)[room := []] else old(queue.since)
    {
      var removed := room in client.subs;
      client.subs := client.subs - {room};
      if !removed { return false; }
      var stillUsed := exists c :: c in sessions && room in c.subs;
      if stillUsed { return false; }
      queue.RemoveRoom(room);
      return true;
    }

    method Connect() returns (client: SessionEntry)
      requires Valid()
      modifies this`sessions
      ensures Valid() && fresh(client) && client.subs == {} && client.outbox == []
      ensures sessions == old(sessions) + [client]
    {
      client := new SessionEntry();
      sessions := sessions + [client];
    }
  }
}
