/** The daemon's connect loop: which discovered wires it dials, and the five tables that
    decide it.  One event is one step; a dial or an accept is taken with its result. */
module ConnectLoop {
  const MAX_RETRIES := 3

  datatype DialResult = Connected(app: string) | RoomMismatch | Failed

  datatype Event =
    | Discovered(wire: string, dial: DialResult)
    | Accepted(wire: string, accept: DialResult)
    | PeerConnected(app: string)
    | PeerDisconnected(app: string)
    | OtherEvent
    | Lagged(peersNow: set<string>)

  /** The loop's bookkeeping. */
  datatype Book = Book(
    engaged: set<string>,
    attempts: map<string, nat>,
    connectedInbound: set<string>,
    connectedPeers: set<string>,
    wireToApp: map<string, string>)

  const EMPTY := Book({}, map[], {}, {}, map[])

  function Counter(b: Book, w: string): nat {
    if w in b.attempts then b.attempts[w] else 0
  }

  /** The wire is mapped to an app the loop believes connected. */
  predicate Served(b: Book, w: string) {
    w in b.wireToApp && b.wireToApp[w] in b.connectedPeers
  }

  predicate WouldDial(b: Book, w: string) {
    && w !in b.connectedInbound && w !in b.engaged
    && !Served(b, w)
    && Counter(b, w) < MAX_RETRIES
  }

  function WiresOf(b: Book, app: string): set<string> {
    set w | w in b.wireToApp && b.wireToApp[w] == app
  }

  function Mapped(b: Book, w: string, app: string): Book {
    b.(attempts := b.attempts - {w}, wireToApp := b.wireToApp[w := app], connectedPeers := b.connectedPeers + {app})
  }

  function Next(b: Book, e: Event): Book {
    match e
    case Discovered(w, dial) =>
      if !WouldDial(b, w) then b
      else (match dial
            case Connected(app) => Mapped(b, w, app).(engaged := b.engaged + {w})
            case RoomMismatch => b.(attempts := b.attempts[w := MAX_RETRIES])
            case Failed => b.(attempts := b.attempts[w := Counter(b, w) + 1]))
    case Accepted(w, accept) =>
      (match accept
       case Connected(app) =>
         Mapped(b, w, app).(engaged := b.engaged + {w}, connectedInbound := b.connectedInbound + {w})
       case _ => b.(engaged := b.engaged - {w}, connectedInbound := b.connectedInbound - {w}))
    case PeerConnected(app) => b.(connectedPeers := b.connectedPeers + {app})
    case PeerDisconnected(app) =>
      var dead := WiresOf(b, app);
      Book(b.engaged - dead, b.attempts - dead, b.connectedInbound - dead, b.connectedPeers - {app}, b.wireToApp - dead)
    case OtherEvent => b
    case Lagged(peersNow) => b.(connectedPeers := peersNow, wireToApp := map[])
  }

  class Loop {
    var engaged: set<string>
    var attempts: map<string, nat>
    var connectedInbound: set<string>
    var connectedPeers: set<string>
    var wireToApp: map<string, string>

    ghost function View(): Book
      reads this
    {
      Book(engaged, attempts, connectedInbound, connectedPeers, wireToApp)
    }

    constructor ()
      ensures View() == EMPTY
    {
      engaged, attempts, connectedInbound, connectedPeers, wireToApp := {}, map[], {}, {}, map[];
    }

    /** A wire surfaced.  `dialled` says whether it was dialled at all. */
    method OnDiscovered(wire: string, dial: DialResult) returns (dialled: bool)
      modifies this
      ensures dialled == WouldDial(old(View()), wire)
      ensures View() == Next(old(View()), Discovered(wire, dial))
      // a failed dial costs one attempt, a room mismatch all of them; a success forgives them
      // and leads the wire to its app
      ensures dialled ==>
        match dial
        case Connected(app) =>
          wire !in attempts && wire in engaged && wire in wireToApp && wireToApp[wire] == app && app in connectedPeers
        case RoomMismatch => Counter(View(), wire) == 3 && wire !in engaged
        case Failed => Counter(View(), wire) == Counter(old(View()), wire) + 1 && wire !in engaged
    {
      if wire in connectedInbound || wire in engaged { return false; }
      if wire in wireToApp && wireToApp[wire] in connectedPeers { return false; }
      if wire !in attempts {
        attempts := attempts[wire := 0];
      }
      if attempts[wire] >= MAX_RETRIES { return false; }
      attempts := attempts[wire := attempts[wire] + 1];
      engaged := engaged + {wire};
      BookResult(wire, dial);
      assert dial.Connected? ==> attempts == old(attempts) - {wire};
      assert !dial.Connected? ==> engaged == old(engaged);
      return true;
    }

    /** The outcome of a dial of an engaged wire. */
    method BookResult(wire: string, dial: DialResult)
      modifies this
      ensures View() == match dial
                        case Connected(app) => Mapped(old(View()), wire, app)
                        case RoomMismatch =>
                          old(View()).(attempts := old(attempts)[wire := MAX_RETRIES], engaged := old(engaged) - {wire})
                        case Failed => old(View()).(engaged := old(engaged) - {wire})
    {
      match dial {
        case Connected(app) =>
          attempts := attempts - {wire};
          wireToApp := wireToApp[wire := app];
          connectedPeers := connectedPeers + {app};
        case RoomMismatch =>
          attempts := attempts[wire := MAX_RETRIES];
          engaged := engaged - {wire};
        case Failed =>
          engaged := engaged - {wire};
      }
    }

    method OnAccepted(wire: string, accept: DialResult)
      modifies this
      ensures View() == Next(old(View()), Accepted(wire, accept))
      ensures match accept
              case Connected(app) =>
                && wire in engaged && wire in connectedInbound && wire !in attempts
                && wire in wireToApp && wireToApp[wire] == app && app in connectedPeers
              case _ => wire !in engaged && wire !in connectedInbound && attempts == old(attempts)
    {
      engaged := engaged + {wire};
      connectedInbound := connectedInbound + {wire};
      match accept {
        case Connected(app) =>
          attempts := attempts - {wire};
          wireToApp := wireToApp[wire := app];
          connectedPeers := connectedPeers + {app};
        case _ =>
          engaged := engaged - {wire};
          connectedInbound := connectedInbound - {wire};
          assert engaged == old(engaged) - {wire} && connectedInbound == old(connectedInbound) - {wire};
      }
    }

    /** A peer is gone: its wires are forgotten one by one, and for each a report is offered
        to the scanner's channel, so that it can surface again.  A full channel drops it. */
    method OnPeerDisconnected(app: string) returns (offered: set<string>)
      modifies this
      ensures View() == Next(old(View()), PeerDisconnected(app))
      ensures offered == WiresOf(old(View()), app)
      // exactly the wires that led to the app are offered, and nothing else is forgotten
      ensures forall w :: w in offered <==> w in old(wireToApp) && old(wireToApp)[w] == app
      ensures forall w | w !in offered ::
        && (w in engaged <==> w in old(engaged)) && (w in connectedInbound <==> w in old(connectedInbound))
        && (w in attempts <==> w in old(attempts)) && (w in attempts ==> attempts[w] == old(attempts)[w])
        && (w in wireToApp <==> w in old(wireToApp)) && (w in wireToApp ==> wireToApp[w] == old(wireToApp)[w])
      ensures forall w | w in offered :: w !in engaged && w !in connectedInbound && w !in attempts && w !in wireToApp
    {
      connectedPeers := connectedPeers - {app};
      var dead := set w | w in wireToApp && wireToApp[w] == app;
      wireToApp := map w | w in wireToApp && wireToApp[w] != app :: wireToApp[w];
      offered := {};
      var left := dead;
      while left != {}
        invariant left !! offered && left + offered == dead
        invariant engaged == old(engaged) - offered
        invariant connectedInbound == old(connectedInbound) - offered
        invariant attempts == old(attempts) - offered
        invariant wireToApp == old(wireToApp) - dead && connectedPeers == old(connectedPeers) - {app}
        decreases left
      {
        var w :| w in left;
        engaged := engaged - {w};
        connectedInbound := connectedInbound - {w};
        attempts := attempts - {w};
        offered := offered + {w};
        left := left - {w};
      }
    }

    method OnPeerConnected(app: string)
      modifies this
      ensures View() == Next(old(View()), PeerConnected(app))
    {
      connectedPeers := connectedPeers + {app};
    }

    /** The event loop. */
    method Handle(events: seq<Event>)
      modifies this
      ensures View() == AfterAll(old(View()), events)
    {
      var i := 0;
      while i < |events|
        invariant 0 <= i <= |events|
        invariant View() == AfterAll(old(View()), events[..i])
      {
        assert events[..i + 1][..i] == events[..i];
        match events[i] {
          case Discovered(wire, dial) => var dialled := OnDiscovered(wire, dial);
          case Accepted(wire, accept) => OnAccepted(wire, accept);
          case PeerConnected(app) => OnPeerConnected(app);
          case PeerDisconnected(app) => var offered := OnPeerDisconnected(app);
          case OtherEvent =>
          case Lagged(peersNow) => OnLagged(peersNow);
        }
        i := i + 1;
      }
      assert events[..i] == events;
    }

    method OnLagged(peersNow: set<string>)
      modifies this
      ensures View() == Next(old(View()), Lagged(peersNow))
    {
      connectedPeers := peersNow;
      wireToApp := map[];
    }
  }

  // ---- whole runs ----

  function AfterAll(b: Book, events: seq<Event>): Book {
    if events == [] then b else Next(AfterAll(b, events[..|events| - 1]), events[|events| - 1])
  }

  function Run(events: seq<Event>): Book {
    AfterAll(EMPTY, events)
  }

  /** Every engaged wire is served, inbound wires are engaged, and no counter passes the
      limit. */
  ghost predicate Sound(b: Book) {
    && (forall w | w in b.engaged :: Served(b, w))
    && b.connectedInbound <= b.engaged
    && (forall w | w in b.attempts :: b.attempts[w] <= MAX_RETRIES)
  }

  ghost predicate NoLag(events: seq<Event>) {
    forall i | 0 <= i < |events| :: !events[i].Lagged?
  }

  lemma StepSound(b: Book, e: Event)
    requires Sound(b) && !e.Lagged?
    ensures Sound(Next(b, e))
  {
  }

  lemma {:induction false} RunSound(events: seq<Event>)
    requires NoLag(events)
    ensures Sound(Run(events))
  {
    if events != [] {
      RunSound(events[..|events| - 1]);
      StepSound(Run(events[..|events| - 1]), events[|events| - 1]);
    }
  }

  /** No wire is stranded: in every state reached without a lag, a wire that surfaces is
      dialled unless its app is connected or its three attempts are used up. */
  lemma NeverStranded(events: seq<Event>, w: string)
    requires NoLag(events)
    ensures WouldDial(Run(events), w) <==> !Served(Run(events), w) && Counter(Run(events), w) < MAX_RETRIES
  {
    RunSound(events);
  }

  /** When an app goes away, every wire that led to it is dialled again at its next sighting. */
  lemma DisconnectFreesWires(events: seq<Event>, app: string, w: string)
    requires NoLag(events) && w in WiresOf(Run(events), app)
    ensures WouldDial(Next(Run(events), PeerDisconnected(app)), w)
  {
    RunSound(events);
  }

  /** A lag keeps the books sound exactly when no wire is engaged at that moment. */
  lemma LagIsSoundIffIdle(b: Book, peersNow: set<string>)
    requires Sound(b)
    ensures Sound(Next(b, Lagged(peersNow))) <==> b.engaged == {}
  {
    if b.engaged != {} {
      var w :| w in b.engaged;
      assert w in Next(b, Lagged(peersNow)).engaged && !Served(Next(b, Lagged(peersNow)), w);
    }
  }

  /** A wire engaged at a lag is stranded: whatever events follow, short of an accept from
      that wire itself, it is never dialled again. */
  lemma {:induction false} LagStrandsEngaged(b: Book, peersNow: set<string>, later: seq<Event>, w: string)
    requires w in b.engaged
    requires forall i | 0 <= i < |later| && later[i].Accepted? :: later[i].wire != w
    ensures var b' := AfterAll(Next(b, Lagged(peersNow)), later);
            w in b'.engaged && w !in b'.wireToApp && !WouldDial(b', w)
  {
    if later != [] {
      LagStrandsEngaged(b, peersNow, later[..|later| - 1], w);
    }
  }

  // ---- how often a wire is dialled ----

  predicate Dials(b: Book, e: Event, w: string) {
    e.Discovered? && e.wire == w && WouldDial(b, w)
  }

  /** The event clears the wire's counter: a connection on it, or the loss of its app. */
  predicate Resets(b: Book, e: Event, w: string) {
    match e
    case Discovered(v, dial) => v == w && WouldDial(b, w) && dial.Connected?
    case Accepted(v, accept) => v == w && accept.Connected?
    case PeerDisconnected(app) => w in WiresOf(b, app)
    case _ => false
  }

  /** Dials of a wire since its counter was last reset. */
  function DialsSinceReset(events: seq<Event>, w: string): nat {
    if events == [] then 0
    else
      var init, e := events[..|events| - 1], events[|events| - 1];
      if Resets(Run(init), e, w) then 0
      else DialsSinceReset(init, w) + (if Dials(Run(init), e, w) then 1 else 0)
  }

  /** A wire is dialled at most three times between resets of its counter, lags or not; and
      the dial that ends a streak, if there is one, is within the three as well. */
  lemma {:induction false} AtMostThreeDials(events: seq<Event>, w: string)
    ensures DialsSinceReset(events, w) <= Counter(Run(events), w) <= MAX_RETRIES
    ensures events != [] && Dials(Run(events[..|events| - 1]), events[|events| - 1], w)
      ==> DialsSinceReset(events[..|events| - 1], w) < MAX_RETRIES
  {
    if events != [] {
      AtMostThreeDials(events[..|events| - 1], w);
    }
  }
}
