/** The table of sessions: attaching and detaching the physical links of each peer.

    A session is held by reference, as the source holds it; `View` is what the table says
    of it.  The run theorems are about the views. */
module Manager {
  import opened Words
  import opened Wrappers
  import opened LinkHealth
  import opened SessionLayer

  const MAX_LINKS_PER_PEER := 4

  datatype AttachOutcome =
    | CreatedNew(sessionId: seq<byte>)
    | AttachedExisting
    | RejectedDuplicateKind
    | RejectedCapacity
    | RejectedSessionMismatch

  datatype LinkRole = Active | Standby

  /** A link as the table sees it. */
  datatype LinkView = LinkView(id: string, kind: TransportKind)

  datatype PeerView = PeerView(sessionId: seq<byte>, links: seq<LinkView>, active: Option<string>)

  type Table = map<string, PeerView>

  /** Link ids are made as the kind's wire name, a colon, and more. */
  predicate NamedByKind(l: LinkView) {
    AsWire(l.kind) + ":" <= l.id
  }

  lemma KindsNameApart(a: LinkView, b: LinkView)
    requires NamedByKind(a) && NamedByKind(b) && a.kind != b.kind
    ensures a.id != b.id
  {
    FirstLetter(a);
    FirstLetter(b);
  }

  lemma FirstLetter(l: LinkView)
    requires NamedByKind(l)
    ensures l.id != [] && l.id[0] == AsWire(l.kind)[0]
  {
    var prefix := AsWire(l.kind) + ":";
    assert prefix[0] == AsWire(l.kind)[0];
  }

  ghost predicate DistinctKinds(links: seq<LinkView>) {
    forall i, j | 0 <= i < j < |links| :: links[i].kind != links[j].kind
  }

  predicate HasLink(p: PeerView, id: string) {
    exists i :: 0 <= i < |p.links| && p.links[i].id == id
  }

  predicate HasKind(p: PeerView, k: TransportKind) {
    exists i :: 0 <= i < |p.links| && p.links[i].kind == k
  }

  /** What holds of every present peer, always. */
  ghost predicate WellShaped(p: PeerView) {
    && 1 <= |p.links| <= MAX_LINKS_PER_PEER
    && DistinctKinds(p.links)
    && (forall i | 0 <= i < |p.links| :: NamedByKind(p.links[i]))
    && (p.active.Some? ==> HasLink(p, p.active.value))
  }

  ghost predicate TableShaped(t: Table) {
    forall peer | peer in t :: WellShaped(t[peer])
  }

  // ---- the operations on views ----

  function Attach(t: Table, peer: string, l: LinkView, hint: Option<seq<byte>>, freshId: seq<byte>)
    : (Table, AttachOutcome)
  {
    if peer in t then
      if hint.Some? && hint.value != t[peer].sessionId then (t, RejectedSessionMismatch)
      else if |t[peer].links| >= MAX_LINKS_PER_PEER then (t, RejectedCapacity)
      else if HasKind(t[peer], l.kind) then (t, RejectedDuplicateKind)
      else (t[peer := t[peer].(links := t[peer].links + [l])], AttachedExisting)
    else if hint.Some? then (t, RejectedSessionMismatch)
    else (t[peer := PeerView(freshId, [l], Some(l.id))], CreatedNew(freshId))
  }

  function WithoutLink(links: seq<LinkView>, id: string): seq<LinkView> {
    if links == [] then []
    else if links[0].id == id then links[1..]
    else [links[0]] + WithoutLink(links[1..], id)
  }

  function Unlinked(p: PeerView, id: string): PeerView {
    p.(links := WithoutLink(p.links, id), active := if p.active == Some(id) then None else p.active)
  }

  function Detach(t: Table, peer: string, id: string): (Table, bool) {
    if peer !in t || !HasLink(t[peer], id) then (t, false)
    else
      var p := Unlinked(t[peer], id);
      if p.links == [] then (t - {peer}, true) else (t[peer := p], false)
  }

  function Drop(t: Table, peer: string): Table {
    t - {peer}
  }

  /** A send, a promotion or a manual switch moved the peer's traffic to one of its links. */
  function Activate(t: Table, peer: string, id: string): Table {
    if peer in t && HasLink(t[peer], id) then t[peer := t[peer].(active := Some(id))] else t
  }

  function StatusOf(p: PeerView): (s: seq<(string, LinkRole)>)
    ensures |s| == |p.links|
  {
    seq(|p.links|, i requires 0 <= i < |p.links| =>
      (p.links[i].id, if p.active == Some(p.links[i].id) then Active else Standby))
  }

  // ---- what each operation keeps ----

  /** There are four kinds, so a peer with four links of distinct kinds has every kind. */
  lemma FourLinksHaveEveryKind(p: PeerView, k: TransportKind)
    requires WellShaped(p) && |p.links| >= MAX_LINKS_PER_PEER
    ensures HasKind(p, k)
  {
    var l := p.links;
    assert l[0].kind != l[1].kind && l[0].kind != l[2].kind && l[0].kind != l[3].kind;
    assert l[1].kind != l[2].kind && l[1].kind != l[3].kind && l[2].kind != l[3].kind;
  }

  /** A link is turned away for capacity only when its own kind is attached already: the
      limit never costs a peer a kind of transport it does not have. */
  lemma CapacityMeansEveryKind(t: Table, peer: string, l: LinkView, hint: Option<seq<byte>>, freshId: seq<byte>)
    requires TableShaped(t) && Attach(t, peer, l, hint, freshId).1 == RejectedCapacity
    ensures peer in t && forall k :: HasKind(t[peer], k)
  {
    forall k ensures HasKind(t[peer], k) { FourLinksHaveEveryKind(t[peer], k); }
  }

  /** Exactly when an attach succeeds: a new peer must claim no session; a known one must
      claim the right session or none, and bring a kind it does not have. */
  lemma AttachSucceedsWhen(t: Table, peer: string, l: LinkView, hint: Option<seq<byte>>, freshId: seq<byte>)
    requires TableShaped(t)
    ensures Attach(t, peer, l, hint, freshId).1.CreatedNew? <==> peer !in t && hint == None
    ensures Attach(t, peer, l, hint, freshId).1.AttachedExisting?
            <==> peer in t && (hint == None || hint.value == t[peer].sessionId) && !HasKind(t[peer], l.kind)
    ensures Attach(t, peer, l, hint, freshId).1.RejectedSessionMismatch?
            <==> hint.Some? && (peer !in t || hint.value != t[peer].sessionId)
    ensures Attach(t, peer, l, hint, freshId).1.RejectedCapacity?
            <==> peer in t && (hint == None || hint.value == t[peer].sessionId) && |t[peer].links| == 4
    ensures Attach(t, peer, l, hint, freshId).0 != t
            <==>
            (Attach(t, peer, l, hint, freshId).1.CreatedNew? || Attach(t, peer, l, hint, freshId).1.AttachedExisting?)
  {
    if peer in t && |t[peer].links| >= MAX_LINKS_PER_PEER { FourLinksHaveEveryKind(t[peer], l.kind); }
  }

  lemma AttachKeepsShape(t: Table, peer: string, l: LinkView, hint: Option<seq<byte>>, freshId: seq<byte>)
    requires TableShaped(t) && NamedByKind(l)
    ensures TableShaped(Attach(t, peer, l, hint, freshId).0)
  {
    var (t', o) := Attach(t, peer, l, hint, freshId);
    if o.CreatedNew? {
      assert t'[peer].links[0].id == l.id;
    }
    if o.AttachedExisting? { AppendKeepsShape(t[peer], l); }
  }

  lemma AppendKeepsShape(p: PeerView, l: LinkView)
    requires WellShaped(p) && |p.links| < MAX_LINKS_PER_PEER && NamedByKind(l) && !HasKind(p, l.kind)
    ensures WellShaped(p.(links := p.links + [l]))
  {
    var links := p.links + [l];
    forall i | 0 <= i < |p.links| ensures links[i] == p.links[i] && p.links[i].kind != l.kind {}
    if p.active.Some? {
      var i :| 0 <= i < |p.links| && p.links[i].id == p.active.value;
      assert links[i].id == p.active.value;
    }
  }

  ghost predicate DistinctViewIds(links: seq<LinkView>) {
    forall i, j | 0 <= i < j < |links| :: links[i].id != links[j].id
  }

  lemma KindsGiveIds(p: PeerView)
    requires WellShaped(p)
    ensures DistinctViewIds(p.links)
  {
    forall i, j | 0 <= i < j < |p.links| ensures p.links[i].id != p.links[j].id {
      KindsNameApart(p.links[i], p.links[j]);
    }
  }

  lemma {:induction false} WithoutLinkKeeps(links: seq<LinkView>, id: string, l: LinkView)
    requires DistinctViewIds(links)
    ensures l in WithoutLink(links, id) <==> l in links && l.id != id
  {
    if links != [] {
      var tail := links[1..];
      assert links == [links[0]] + tail;
      WithoutLinkKeeps(tail, id, l);
      if links[0].id == id {
        forall i | 0 <= i < |tail| ensures tail[i].id != id { assert tail[i] == links[i + 1]; }
      }
    }
  }

  lemma {:induction false} WithoutLinkCounts(links: seq<LinkView>, id: string)
    requires exists i :: 0 <= i < |links| && links[i].id == id
    ensures |WithoutLink(links, id)| == |links| - 1
  {
    if links[0].id != id {
      var i :| 0 <= i < |links| && links[i].id == id;
      assert links[1..][i - 1].id == id;
      WithoutLinkCounts(links[1..], id);
    }
  }

  lemma {:induction false} WithoutLinkKinds(links: seq<LinkView>, id: string)
    requires DistinctKinds(links) && DistinctViewIds(links)
    ensures DistinctKinds(WithoutLink(links, id))
  {
    if links != [] && links[0].id != id {
      var tail := links[1..];
      WithoutLinkKinds(tail, id);
      var rest := WithoutLink(tail, id);
      forall j | 0 <= j < |rest| ensures rest[j].kind != links[0].kind {
        WithoutLinkKeeps(tail, id, rest[j]);
        var k :| 0 <= k < |tail| && tail[k] == rest[j];
        assert links[k + 1] == rest[j];
      }
    }
  }

  lemma DetachKeepsShape(t: Table, peer: string, id: string)
    requires TableShaped(t)
    ensures TableShaped(Detach(t, peer, id).0)
  {
    if peer in t && HasLink(t[peer], id) && |t[peer].links| > 1 {
      var p := t[peer];
      KindsGiveIds(p);
      WithoutLinkCounts(p.links, id);
      WithoutLinkKinds(p.links, id);
      var rest := WithoutLink(p.links, id);
      forall i | 0 <= i < |rest| ensures NamedByKind(rest[i]) { WithoutLinkKeeps(p.links, id, rest[i]); }
      if p.active.Some? && p.active.value != id { LinkSurvives(p, id, p.active.value); }
    }
  }

  lemma LinkSurvives(p: PeerView, id: string, other: string)
    requires WellShaped(p) && other != id && HasLink(p, other)
    ensures exists j :: 0 <= j < |WithoutLink(p.links, id)| && WithoutLink(p.links, id)[j].id == other
  {
    var i :| 0 <= i < |p.links| && p.links[i].id == other;
    KindsGiveIds(p);
    WithoutLinkKeeps(p.links, id, p.links[i]);
    assert p.links[i] in WithoutLink(p.links, id);
  }

  /** Detach says true exactly when it removed the last link, and then the peer is gone. */
  lemma DetachRemovesLast(t: Table, peer: string, id: string)
    requires TableShaped(t)
    ensures Detach(t, peer, id).1 <==> peer in t && HasLink(t[peer], id) && |t[peer].links| == 1
    ensures Detach(t, peer, id).1 <==> peer in t && peer !in Detach(t, peer, id).0
    ensures Detach(t, peer, id).0 - {peer} == t - {peer}
  {
    if peer in t && HasLink(t[peer], id) { WithoutLinkCounts(t[peer].links, id); }
  }

  /** Otherwise exactly the named link is gone, and it is no longer the active one. */
  lemma DetachRemovesOne(t: Table, peer: string, id: string, l: LinkView)
    requires TableShaped(t) && peer in t && HasLink(t[peer], id) && |t[peer].links| > 1
    ensures var t' := Detach(t, peer, id).0;
            && peer in t'
            && (l in t'[peer].links <==> l in t[peer].links && l.id != id)
            && t'[peer].active == (if t[peer].active == Some(id) then None else t[peer].active)
            && t'[peer].sessionId == t[peer].sessionId
  {
    KindsGiveIds(t[peer]);
    WithoutLinkCounts(t[peer].links, id);
    WithoutLinkKeeps(t[peer].links, id, l);
  }

  lemma ActivateKeepsShape(t: Table, peer: string, id: string)
    requires TableShaped(t)
    ensures TableShaped(Activate(t, peer, id))
  {
    var t' := Activate(t, peer, id);
    if peer in t && HasLink(t[peer], id) {
      var i :| 0 <= i < |t[peer].links| && t[peer].links[i].id == id;
      assert t'[peer].links[i].id == id;
    }
  }

  /** A status shows at most one link as active, and shows one exactly while the peer has
      an active link: distinct kinds give distinct ids. */
  lemma StatusShowsOneActive(p: PeerView)
    requires WellShaped(p)
    ensures forall i, j | 0 <= i < |p.links| && 0 <= j < |p.links| ::
      StatusOf(p)[i].1 == Active && StatusOf(p)[j].1 == Active ==> i == j
    ensures p.active.Some? <==> exists i :: 0 <= i < |p.links| && StatusOf(p)[i].1 == Active
    ensures forall i | 0 <= i < |p.links| ::
      StatusOf(p)[i].0 == p.links[i].id && (StatusOf(p)[i].1 == Active <==> p.active == Some(p.links[i].id))
  {
    forall i, j | 0 <= i < |p.links| && 0 <= j < |p.links| && StatusOf(p)[i].1 == Active && StatusOf(p)[j].1 == Active
      ensures i == j
    {
      if i < j { KindsNameApart(p.links[i], p.links[j]); }
      if j < i { KindsNameApart(p.links[j], p.links[i]); }
    }
    if p.active.Some? {
      var i :| 0 <= i < |p.links| && p.links[i].id == p.active.value;
      assert StatusOf(p)[i].1 == Active;
    }
  }

  // ---- the table itself ----

  function ViewOfLink(l: Link): LinkView {
    LinkView(l.id, l.kind)
  }

  function ViewsOf(links: seq<Link>): (r: seq<LinkView>)
    ensures |r| == |links| && forall i | 0 <= i < |links| :: r[i] == ViewOfLink(links[i])
  {
    seq(|links|, i requires 0 <= i < |links| => ViewOfLink(links[i]))
  }

  ghost function ViewOf(s: Session): PeerView
    reads s
  {
    PeerView(s.sessionId, ViewsOf(s.links), s.active)
  }

  class SessionManager {
    var peers: map<string, Session>

    /** No session is listed twice. */
    ghost predicate Valid()
      reads this
    {
      forall p, q | p in peers && q in peers && p != q :: peers[p] != peers[q]
    }

    ghost function View(): Table
      reads this, peers.Values
    {
      map p | p in peers :: ViewOf(peers[p])
    }

    constructor ()
      ensures Valid() && View() == map[]
    {
      peers := map[];
    }

    method AttachLink(peer: string, link: Link, hint: Option<seq<byte>>, freshId: seq<byte>) returns (o: AttachOutcome)
      requires Valid()
      modifies this`peers, peers.Values`links
      ensures Valid()
      ensures (View(), o) == Attach(old(View()), peer, ViewOfLink(link), hint, freshId)
      ensures forall p | p in old(peers) :: p in peers && peers[p] == old(peers[p])
      // the id announced is the one stored, and the link is there
      ensures o.CreatedNew? ==>
        && peer in peers && peers[peer].sessionId == o.sessionId
        && peers[peer].links == [link] && peers[peer].active == Some(link.id)
      ensures o.AttachedExisting? ==> peer in old(peers) && peers[peer].links == old(peers[peer].links) + [link]
    {
      if peer in peers {
        assert View()[peer] == ViewOf(peers[peer]);
        if hint.Some? && hint.value != peers[peer].sessionId { return RejectedSessionMismatch; }
        o := AttachToExisting(peer, peers[peer], link);
      } else if hint.Some? {
        o := RejectedSessionMismatch;
      } else {
        CreatePeer(peer, link, freshId);
        o := CreatedNew(freshId);
      }
    }

    method AttachToExisting(peer: string, session: Session, link: Link) returns (o: AttachOutcome)
      requires Valid() && peer in peers && peers[peer] == session
      modifies session`links
      ensures (View(), o) == Attach(old(View()), peer, ViewOfLink(link), None, [])
      ensures o.AttachedExisting? ==> session.links == old(session.links) + [link]
      ensures !o.CreatedNew?
    {
      assert old(View())[peer] == ViewOf(session);
      if |session.links| >= MAX_LINKS_PER_PEER { return RejectedCapacity; }
      var i := 0;
      while i < |session.links|
        invariant 0 <= i <= |session.links|
        invariant forall j | 0 <= j < i :: session.links[j].kind != link.kind
      {
        if session.links[i].kind == link.kind {
          assert old(View())[peer].links[i].kind == link.kind;
          return RejectedDuplicateKind;
        }
        i := i + 1;
      }
      session.links := session.links + [link];
      assert ViewsOf(session.links) == ViewsOf(old(session.links)) + [ViewOfLink(link)];
      OtherViewsStay(peer);
      return AttachedExisting;
    }

    method CreatePeer(peer: string, link: Link, freshId: seq<byte>)
      requires Valid() && peer !in peers
      modifies this`peers
      ensures Valid()
      ensures View() == old(View())[peer := PeerView(freshId, [ViewOfLink(link)], Some(link.id))]
      ensures forall p | p in old(peers) :: p in peers && peers[p] == old(peers[p])
      ensures peer in peers && peers[peer].sessionId == freshId
      ensures peers[peer].links == [link] && peers[peer].active == Some(link.id)
    {
      var session := new Session(peer, freshId);
      session.links := [link];
      session.active := Some(link.id);
      peers := peers[peer := session];
      assert ViewsOf(session.links) == [ViewOfLink(link)];
      forall p | p in old(peers) ensures ViewOf(peers[p]) == old(ViewOf(peers[p])) {
        assert old(peers)[p] in old(peers).Values;
      }
    }

    /** Takes one link away; true if that left the peer without links, and so without an
        entry. */
    method DetachLink(peer: string, linkId: string) returns (gone: bool)
      requires Valid()
      modifies this`peers, peers.Values`links, peers.Values`active
      ensures Valid()
      ensures (View(), gone) == Detach(old(View()), peer, linkId)
      ensures forall p | p in old(peers) && (p != peer || !gone) :: p in peers && peers[p] == old(peers[p])
    {
      if peer !in peers { return false; }
      var session := peers[peer];
      ghost var t := View();
      assert session in peers.Values && t[peer] == ViewOf(session);
      var pos := session.LinkById(linkId);
      if pos == None {
        assert !HasLink(ViewOf(session), linkId);
        return false;
      }
      assert ViewOf(session).links[pos.value].id == linkId;
      RemoveLink(peer, session, linkId, pos.value);
      assert View() == t[peer := Unlinked(t[peer], linkId)];
      gone := session.links == [];
      assert gone <==> Unlinked(t[peer], linkId).links == [];
      if gone {
        RemoveEntry(peer);
        assert View() == t - {peer};
      }
    }

    method RemoveLink(peer: string, session: Session, linkId: string, pos: nat)
      requires Valid() && peer in peers && peers[peer] == session
      requires pos < |session.links| && session.links[pos].id == linkId
      requires forall j | 0 <= j < pos :: session.links[j].id != linkId
      modifies session`links, session`active
      ensures ViewOf(session) == Unlinked(old(ViewOf(session)), linkId)
      ensures View() == old(View())[peer := ViewOf(session)]
    {
      RemoveAt(session.links, linkId, pos);
      session.links := session.links[..pos] + session.links[pos + 1..];
      if session.active == Some(linkId) {
        session.active := None;
      }
      OtherViewsStay(peer);
    }

    method RemoveEntry(peer: string)
      requires Valid()
      modifies this`peers
      ensures Valid()
      ensures View() == old(View()) - {peer}
      ensures peers == old(peers) - {peer}
    {
      peers := peers - {peer};
    }

    /** A change to one session is a change to one entry of the view. */
    twostate lemma OtherViewsStay(peer: string)
      requires old(Valid()) && peers == old(peers) && peer in peers
      requires forall s: Session | s in peers.Values && s != peers[peer] :: unchanged(s)
      ensures View() == old(View())[peer := ViewOf(peers[peer])]
    {
      forall p | p in peers && p != peer ensures ViewOf(peers[p]) == old(ViewOf(peers[p])) {
        assert peers[p] in peers.Values;
      }
    }

    /** A user moves a peer's traffic to one of its links. */
    method SwitchActiveLink(peer: string, toLink: string) returns (ok: bool)
      requires Valid() && TableShaped(View())
      modifies peers.Values`active
      ensures Valid() && peers == old(peers)
      ensures ok <==> peer in old(View()) && HasLink(old(View())[peer], toLink)
      ensures View() == After(old(View()), Activated(peer, toLink))
    {
      ok := false;
      if peer in peers {
        assert peers[peer] in peers.Values && View()[peer] == ViewOf(peers[peer]);
        ok := SwitchSession(peer, peers[peer], toLink);
      }
    }

    method SwitchSession(peer: string, session: Session, toLink: string) returns (ok: bool)
      requires Valid() && peer in peers && peers[peer] == session && WellShaped(ViewOf(session))
      modifies session`active
      ensures ok <==> HasLink(old(ViewOf(session)), toLink)
      ensures View() == After(old(View()), Activated(peer, toLink))
    {
      ShapedSessionsRoute(session);
      ok := session.SwitchActive(toLink);
      assert ok <==> HasLink(old(ViewOf(session)), toLink) by { AttachedIsViewed(session, toLink); }
      OtherViewsStay(peer);
    }

    method DropPeer(peer: string) returns (dropped: Option<Session>)
      requires Valid()
      modifies this`peers
      ensures Valid()
      ensures View() == Drop(old(View()), peer)
      ensures dropped == if peer in old(peers) then Some(old(peers)[peer]) else None
      ensures peer !in peers
      ensures forall p | p != peer :: (p in peers <==> p in old(peers)) && (p in peers ==> peers[p] == old(peers)[p])
    {
      if peer !in peers { return None; }
      dropped := Some(peers[peer]);
      RemoveEntry(peer);
    }
  }

  lemma RemoveAt(links: seq<Link>, id: string, pos: nat)
    requires pos < |links| && links[pos].id == id && forall j | 0 <= j < pos :: links[j].id != id
    ensures ViewsOf(links[..pos] + links[pos + 1..]) == WithoutLink(ViewsOf(links), id)
  {
    var views := ViewsOf(links);
    WithoutLinkAt(views, id, pos);
    assert ViewsOf(links[..pos] + links[pos + 1..]) == views[..pos] + views[pos + 1..];
  }

  lemma {:induction false} WithoutLinkAt(views: seq<LinkView>, id: string, pos: nat)
    requires pos < |views| && views[pos].id == id && forall j | 0 <= j < pos :: views[j].id != id
    ensures WithoutLink(views, id) == views[..pos] + views[pos + 1..]
  {
    if pos > 0 {
      WithoutLinkAt(views[1..], id, pos - 1);
      assert [views[0]] + views[1..][..pos - 1] == views[..pos];
    }
  }

  lemma AttachedIsViewed(s: Session, id: string)
    ensures SessionLayer.Attached(s.links, id) <==> HasLink(ViewOf(s), id)
  {
    if i :| 0 <= i < |s.links| && s.links[i].id == id { assert ViewOf(s).links[i].id == id; }
    if i :| 0 <= i < |s.links| && ViewOf(s).links[i].id == id { assert s.links[i].id == id; }
  }

  /** A well-shaped entry is a session that can route: its ids are distinct and its active
      link is attached. */
  lemma ShapedSessionsRoute(s: Session)
    requires WellShaped(ViewOf(s))
    ensures s.Routable()
  {
    var p := ViewOf(s);
    KindsGiveIds(p);
    forall i, j | 0 <= i < j < |s.links| ensures s.links[i].id != s.links[j].id {
      assert p.links[i].id != p.links[j].id;
    }
    if s.active.Some? {
      var i :| 0 <= i < |p.links| && p.links[i].id == p.active.value;
      assert s.links[i].id == s.active.value;
    }
  }

  // ---- whole runs ----

  datatype Event =
    | Attached(peer: string, link: LinkView, hint: Option<seq<byte>>, freshId: seq<byte>)
    | Detached(peer: string, id: string)
    | Dropped(peer: string)
    | Activated(peer: string, id: string)

  function After(t: Table, e: Event): Table {
    match e
    case Attached(peer, l, hint, freshId) => Attach(t, peer, l, hint, freshId).0
    case Detached(peer, id) => Detach(t, peer, id).0
    case Dropped(peer) => Drop(t, peer)
    case Activated(peer, id) => Activate(t, peer, id)
  }

  function Run(events: seq<Event>): Table {
    if events == [] then map[] else After(Run(events[..|events| - 1]), events[|events| - 1])
  }

  ghost predicate IdsMadeByKind(events: seq<Event>) {
    forall i | 0 <= i < |events| && events[i].Attached? :: NamedByKind(events[i].link)
  }

  /** In every reachable table each present peer has one to four links of distinct kinds,
      and its active link, if any, is one of them. */
  lemma {:induction false} ShapeOverRuns(events: seq<Event>)
    requires IdsMadeByKind(events)
    ensures TableShaped(Run(events))
  {
    if events != [] {
      var init, e := events[..|events| - 1], events[|events| - 1];
      ShapeOverRuns(init);
      var t := Run(init);
      match e
      case Attached(peer, l, hint, freshId) => AttachKeepsShape(t, peer, l, hint, freshId);
      case Detached(peer, id) => DetachKeepsShape(t, peer, id);
      case Dropped(peer) =>
      case Activated(peer, id) => ActivateKeepsShape(t, peer, id);
    }
  }

  // ---- sends and switches are such events ----

  /** Whatever keeps a session's links and leaves the session routable, and does not clear
      the active link, changes the table by one `Activated` event or not at all.  So do a
      promotion and a manual switch: their contracts say just that. */
  twostate lemma ActiveMoves(t: Table, peer: string, s: Session)
    requires peer in t && t[peer] == old(ViewOf(s))
    requires s.links == old(s.links) && s.Routable() && (s.active == None ==> old(s.active) == None)
    ensures t[peer := ViewOf(s)] == if s.active == old(s.active) then t else After(t, Activated(peer, s.active.value))
  {
    if s.active != old(s.active) { AttachedIsViewed(s, s.active.value); }
  }

  /** A send, whatever links it tried: the table sees the last of them become active, if it
      was not, and otherwise nothing. */
  twostate lemma SendMoves(t: Table, peer: string, s: Session, tried: seq<nat>, bytes: seq<byte>,
                           clock: nat, firstOk: bool, laterClock: nat, secondOk: bool)
    requires peer in t && t[peer] == old(ViewOf(s))
    requires s.Routed(tried, bytes, clock, firstOk, laterClock, secondOk)
    ensures t[peer := ViewOf(s)] == if s.active == old(s.active) then t else After(t, Activated(peer, s.active.value))
    ensures s.active != old(s.active) ==> tried != [] && s.active == Some(s.links[tried[|tried| - 1]].id)
  {
    if s.active != old(s.active) {
      assert t[peer].links[tried[|tried| - 1]].id == s.active.value;
    }
  }

  /** A peer that stays present keeps its session id: across any stretch of a run in which
      it is never absent, the id at the end is the id at the start. */
  lemma {:induction false} SessionIdFixed(events: seq<Event>, peer: string, start: nat, end: nat)
    requires start <= end <= |events|
    requires forall k: nat | start <= k <= end :: peer in Run(events[..k])
    ensures Run(events[..end])[peer].sessionId == Run(events[..start])[peer].sessionId
  {
    if start < end {
      SessionIdFixed(events, peer, start, end - 1);
      assert events[..end][..end - 1] == events[..end - 1];
      assert peer in Run(events[..end - 1]) && peer in Run(events[..end]);
    }
  }
}
