/** One logical session over several physical links: the send path with its failover, and
    the receive path with its dedup and delayed ACKs.

    The environment is in the parameters: what a write on a link answers, and what the
    clock reads.  Each method is one step. */
module SessionLayer {
  import opened Words
  import opened Wrappers
  import opened Sequence
  import opened AckRing
  import opened Frames
  import opened LinkHealth
  import opened AckPolicy
  import Seqs

  const COMPRESS_THRESHOLD := 256
  const SESSION_SEQ_HEADER := 4

  datatype PendingFrame = PendingFrame(bytes: seq<byte>, msgType: MessageType)

  datatype SendError = CompressFailed | EncryptFailed | PayloadTooLarge(size: nat) | NoHealthyLink

  /** Compression and encryption are outside the model: any functions that may fail. */
  type Codec = seq<byte> -> Option<seq<byte>>
  type Cipher = (seq<byte>, u16) -> Option<seq<byte>>

  // ---- the bytes of an outgoing frame ----

  function Compressed(payload: seq<byte>, compress: bool): bool {
    compress && |payload| >= COMPRESS_THRESHOLD
  }

  function Body(s: u32, payload: seq<byte>, cipher: Option<Cipher>, compress: bool, codec: Codec)
    : Result<seq<byte>, SendError>
  {
    var packed := if Compressed(payload, compress) then codec(payload) else Some(payload);
    if packed == None then Err(CompressFailed)
    else
      var sealed := if cipher.Some? then cipher.value(packed.value, s % 0x1_0000) else packed;
      if sealed == None then Err(EncryptFailed)
      else if |sealed.value| > MAX_PAYLOAD then Err(PayloadTooLarge(|sealed.value|))
      else Ok(sealed.value)
  }

  function FrameOf(s: u32, t: MessageType, compressed: bool, encrypted: bool, body: seq<byte>): Frame
    requires |body| <= MAX_PAYLOAD
  {
    FlagsRoundTrip(compressed, encrypted, t);
    Frame(MAGIC, PROTOCOL_VERSION, EncodeFlags(compressed, encrypted, t), s % 0x1_0000, |body|, body)
  }

  function Prepared(s: u32, t: MessageType, payload: seq<byte>, cipher: Option<Cipher>, compress: bool, codec: Codec)
    : Result<seq<byte>, SendError>
  {
    match Body(s, payload, cipher, compress, codec)
    case Err(e) => Err(e)
    case Ok(body) => Ok(Encoded(FrameOf(s, t, Compressed(payload, compress), cipher.Some?, body)))
  }

  // ---- what the peer makes of it ----

  /** The receiving end of a frame: unseal with the low 16 bits of the number if the flag
      says so, then unpack if the other flag says so. */
  function Recovered(f: Frame, unseal: Cipher, unpack: Codec): Option<seq<byte>> {
    var flags := DecodeFlags(f.flags);
    var body := if flags.1 then unseal(f.payload, f.seq16) else Some(f.payload);
    if body == None then None
    else if flags.0 then unpack(body.value)
    else body
  }

  ghost predicate Unpacks(unpack: Codec, codec: Codec) {
    forall p | codec(p).Some? :: unpack(codec(p).value) == Some(p)
  }

  ghost predicate Unseals(unseal: Cipher, cipher: Cipher) {
    forall p, nonce | cipher(p, nonce).Some? :: unseal(cipher(p, nonce).value, nonce) == Some(p)
  }

  /** What `send` writes gives the original payload back to any peer that can undo the
      compression and the encryption, and the flags say truly which of them were applied. */
  lemma PayloadRecovered(s: u32, t: MessageType, payload: seq<byte>, cipher: Option<Cipher>, compress: bool,
                         codec: Codec, unseal: Cipher, unpack: Codec)
    requires Prepared(s, t, payload, cipher, compress, codec).Ok?
    requires Unpacks(unpack, codec) && (cipher.Some? ==> Unseals(unseal, cipher.value))
    ensures var d := Decode(Prepared(s, t, payload, cipher, compress, codec).value);
            && d.Ok?
            && DecodeFlags(d.value.flags) == (compress && |payload| >= 256, cipher.Some?, t)
            && d.value.seq16 == s % 0x1_0000
            && Recovered(d.value, unseal, unpack) == Some(payload)
            && (!(compress && |payload| >= 256) && cipher == None ==> d.value.payload == payload)
  {
    PreparedReadsBack(s, t, payload, cipher, compress, codec);
  }

  /** Which failure gives which error: compression is tried first and only for the payloads
      it is meant for, then encryption of what it gave, and last the length is checked. */
  lemma ErrorsOfPreparing(s: u32, t: MessageType, payload: seq<byte>, cipher: Option<Cipher>,
                          compress: bool, codec: Codec)
    ensures var r := Prepared(s, t, payload, cipher, compress, codec);
            var wanted := compress && |payload| >= 256;
            if wanted && codec(payload) == None then r == Err(CompressFailed)
            else
              var packed := if wanted then codec(payload).value else payload;
              if cipher.Some? && cipher.value(packed, s % 0x1_0000) == None then r == Err(EncryptFailed)
              else
                var sealed := if cipher.Some? then cipher.value(packed, s % 0x1_0000).value else packed;
                if |sealed| > 65535 then r == Err(PayloadTooLarge(|sealed|)) else r.Ok?
  {
  }

  /** A frame that is written reads back as the message it was made of. */
  lemma PreparedReadsBack(s: u32, t: MessageType, payload: seq<byte>, cipher: Option<Cipher>,
                          compress: bool, codec: Codec)
    requires Prepared(s, t, payload, cipher, compress, codec).Ok?
    ensures var d := Decode(Prepared(s, t, payload, cipher, compress, codec).value);
            && d.Ok?
            && DecodeFlags(d.value.flags) == (Compressed(payload, compress), cipher.Some?, t)
            && d.value.seq16 == s % 0x1_0000
            && Body(s, payload, cipher, compress, codec) == Ok(d.value.payload)
  {
    var body := Body(s, payload, cipher, compress, codec).value;
    var f := FrameOf(s, t, Compressed(payload, compress), cipher.Some?, body);
    PayloadSurvives(f, []);
    assert Encoded(f) + [] == Encoded(f);
    FlagsRoundTrip(Compressed(payload, compress), cipher.Some?, t);
  }

  // ---- choosing a link ----

  /** The score of a link that may carry a frame; nothing if it is excluded or unhealthy. */
  function Rank(link: Link, exclude: string, clock: nat): Option<int>
    reads link
  {
    if link.id != exclude && link.IsHealthy(clock) then Some(link.Score()) else None
  }

  function Ranks(links: seq<Link>, exclude: string, clock: nat): (r: seq<Option<int>>)
    reads links
    ensures |r| == |links| && forall i | 0 <= i < |links| :: r[i] == Rank(links[i], exclude, clock)
  {
    seq(|links|, i requires 0 <= i < |links| reads links => Rank(links[i], exclude, clock))
  }

  /** Entry i has the greatest score of all; of equals, the last attached wins. */
  predicate BestOf(ranks: seq<Option<int>>, i: nat) {
    && i < |ranks| && ranks[i].Some?
    && forall j | 0 <= j < |ranks| && ranks[j].Some? ::
      ranks[j].value < ranks[i].value || (ranks[j].value == ranks[i].value && j <= i)
  }

  predicate NoneOf(ranks: seq<Option<int>>) {
    forall i | 0 <= i < |ranks| :: ranks[i] == None
  }

  predicate MayCarry(link: Link, exclude: string, clock: nat)
    reads link
  {
    link.id != exclude && link.IsHealthy(clock)
  }

  /** Best of the ranks means: a healthy link other than the excluded one, no such link has
      a greater score, and none attached later has an equal one. */
  lemma BestMeans(links: seq<Link>, exclude: string, clock: nat, i: nat)
    ensures BestOf(Ranks(links, exclude, clock), i)
            <==>
            && i < |links| && MayCarry(links[i], exclude, clock)
            && (forall j: nat | j < |links| && MayCarry(links[j], exclude, clock) ::
                  links[j].Score() < links[i].Score() || (links[j].Score() == links[i].Score() && j <= i))
    ensures NoneOf(Ranks(links, exclude, clock)) <==> forall j: nat | j < |links| :: !MayCarry(links[j], exclude, clock)
  {
  }

  ghost predicate DistinctIds(links: seq<Link>) {
    forall i, j | 0 <= i < j < |links| :: links[i].id != links[j].id
  }

  ghost predicate Attached(links: seq<Link>, id: string) {
    exists i :: 0 <= i < |links| && links[i].id == id
  }

  /** The link in use is attached and healthy. */
  ghost predicate InService(links: seq<Link>, active: Option<string>, clock: nat, i: nat)
    reads links
  {
    i < |links| && active == Some(links[i].id) && links[i].IsHealthy(clock)
  }

  ghost predicate NoneInService(links: seq<Link>, active: Option<string>, clock: nat)
    reads links
  {
    forall i: nat | i < |links| :: !InService(links, active, clock, i)
  }

  /** The link `current_or_pick` settles on: the active one while it is healthy, otherwise
      the best. */
  ghost predicate Chosen(links: seq<Link>, active: Option<string>, clock: nat, i: nat)
    reads links
  {
    || InService(links, active, clock, i)
    || (NoneInService(links, active, clock) && BestOf(Ranks(links, "", clock), i))
  }

  /** The link chosen is healthy; it is the active one if that is healthy, and otherwise no
      healthy link j has a greater score. */
  lemma ChosenMeans(links: seq<Link>, active: Option<string>, clock: nat, i: nat, j: nat)
    requires Chosen(links, active, clock, i) && j < |links|
    ensures i < |links| && links[i].IsHealthy(clock)
    ensures active == Some(links[j].id) && links[j].IsHealthy(clock) ==> links[i].id == links[j].id
    ensures active != Some(links[i].id) && MayCarry(links[j], "", clock) ==> links[j].Score() <= links[i].Score()
  {
    if !InService(links, active, clock, i) {
      BestMeans(links, "", clock, i);
      assert !InService(links, active, clock, j);
    }
  }

  // ---- incoming bytes ----

  /** What a buffer from a link is to the session. */
  datatype Incoming = Numbered(word: u32, body: seq<byte>) | AckOf(frame: AckFrame) | Ignored

  function LeadingWord(payload: seq<byte>): u32
    requires |payload| >= SESSION_SEQ_HEADER
  {
    BytesRoundTrip(payload[..4]);
    ShortNumbers();
    FromBigEndian(payload[..4])
  }

  function ClassifyFrame(t: MessageType, payload: seq<byte>): Incoming {
    if t == Ack then
      match DecodeAck(payload) case Ok(a) => AckOf(a) case Err(_) => Ignored
    else if t == Message && |payload| >= SESSION_SEQ_HEADER then
      Numbered(LeadingWord(payload), payload[4..])
    else Ignored
  }

  function Classify(bytes: seq<byte>): Incoming {
    match Decode(bytes)
    case Err(_) => Ignored
    case Ok(f) => ClassifyFrame(DecodeFlags(f.flags).2, f.payload)
  }

  /** What a buffer is, by the frame it decodes to: a numbered message if and only if the
      frame is of type Message with at least four payload bytes, which are the number, and
      an ACK if and only if it is of type Ack with at least twenty. */
  lemma ClassifiedByFrame(bytes: seq<byte>)
    ensures var d := Decode(bytes); var c := Classify(bytes);
            && (c.Numbered? <==> d.Ok? && DecodeFlags(d.value.flags).2 == Message && |d.value.payload| >= 4)
            && (c.AckOf? <==> d.Ok? && DecodeFlags(d.value.flags).2 == Ack && |d.value.payload| >= 20)
            && (c.Numbered? ==>
                  var p := d.value.payload;
                  && c.word == HighFirst(p[0], p[1], p[2], p[3])
                  && c.body == p[4..])
            && (c.AckOf? ==> DecodeAck(d.value.payload) == Ok(c.frame))
  {
    var d := Decode(bytes);
    if d.Ok? && |d.value.payload| >= 4 { FourBytes(d.value.payload[..4]); }
  }

  lemma ClassifyMessage(s: u32, compressed: bool, encrypted: bool, payload: seq<byte>, tail: seq<byte>)
    requires |payload| <= MAX_PAYLOAD
    ensures Classify(Encoded(FrameOf(s, Message, compressed, encrypted, payload)) + tail)
        == ClassifyFrame(Message, payload)
  {
    PayloadSurvives(FrameOf(s, Message, compressed, encrypted, payload), tail);
    FlagsRoundTrip(compressed, encrypted, Message);
  }

  /** A message in the documented layout -- the word, then the body -- is read as such. */
  lemma NumberedReadsBack(w: u32, compressed: bool, encrypted: bool, body: seq<byte>, tail: seq<byte>)
    requires 4 + |body| <= MAX_PAYLOAD
    ensures Classify(Encoded(FrameOf(w, Message, compressed, encrypted, BigEndian(w, 4) + body)) + tail)
        == Numbered(w, body)
  {
    ClassifyMessage(w, compressed, encrypted, BigEndian(w, 4) + body, tail);
    ShortNumbers();
    NumberRoundTrip(w, 4);
    WordThenBody(BigEndian(w, 4), body);
  }

  lemma WordThenBody(word: seq<byte>, body: seq<byte>)
    requires |word| == 4
    ensures ClassifyFrame(Message, word + body).Numbered?
    ensures ClassifyFrame(Message, word + body).word == FromBigEndian(word)
    ensures ClassifyFrame(Message, word + body).body == body
  {
    assert (word + body)[..4] == word && (word + body)[4..] == body;
  }

  lemma AckReadsBack(a: AckFrame, tail: seq<byte>)
    ensures Classify(Encoded(AckAsFrame(a)) + tail) == AckOf(a)
  {
    AckFrameRecognised(a, tail);
  }

  method EncodeAckFrame(a: AckFrame) returns (bytes: seq<byte>)
    ensures Classify(bytes) == AckOf(a)
  {
    bytes := EncodeFrame(AckAsFrame(a));
    AckReadsBack(a, []);
    assert bytes + [] == bytes;
  }

  /** The send path writes no word in front of the body: a message is read with the first
      four bytes of what was framed as its number, and dropped if there are fewer.  That the
      body is compressed or encrypted makes no difference. */
  lemma SendOmitsTheWord(s: u32, compressed: bool, encrypted: bool, payload: seq<byte>)
    requires |payload| <= MAX_PAYLOAD
    ensures Classify(Encoded(FrameOf(s, Message, compressed, encrypted, payload)))
            == if |payload| < 4 then Ignored else Numbered(LeadingWord(payload), payload[4..])
  {
    var bytes := Encoded(FrameOf(s, Message, compressed, encrypted, payload));
    ClassifyMessage(s, compressed, encrypted, payload, []);
    assert bytes + [] == bytes;
  }

  datatype ReadOutcome = Msg(word: u32, body: seq<byte>) | Continue | AllLinksGone

  /** One turn of the receive loop: what the race of the links and the ACK timer brings. */
  datatype Read = FromLink(link: nat, bytes: seq<byte>) | LinkFailed(link: nat) | Timer

  predicate NamesLink(r: Read, n: nat) {
    r.FromLink? || r.LinkFailed? ==> r.link < n
  }

  /** The turn, the clock during it, and what the link answers should an ACK be flushed. */
  datatype Turn = Turn(read: Read, clock: nat, timerFlush: bool, messageFlush: bool)

  datatype RecvResult = Received(word: u32, body: seq<byte>) | LinksGone | Waiting

  /** The first k of the items, as a link's log shows them. */
  ghost function Writes(items: seq<(u32, PendingFrame)>, accepts: nat -> bool, k: nat): (log: seq<(seq<byte>, bool)>)
    requires k <= |items|
    ensures |log| == k && forall i: nat | i < k :: log[i] == (items[i].1.bytes, accepts(i))
  {
    if k == 0 then [] else Writes(items, accepts, k - 1) + [(items[k - 1].1.bytes, accepts(k - 1))]
  }

  function Outcome(active: Option<string>, accepted: bool): Flush {
    if active == None then NoLink else if accepted then Written else WriteFailed
  }

  predicate BringsMessage(t: Turn) {
    t.read.FromLink? && Classify(t.read.bytes).Numbered?
  }

  /** What has been observed after a run of turns, numbers[i] being the number stamped into
      the message of turn i. */
  function ObservedAll(h: seq<int>, turns: seq<Turn>, numbers: seq<int>): seq<int>
    requires |turns| == |numbers|
  {
    if turns == [] then h
    else
      var k := |turns| - 1;
      Observed(ObservedAll(h, turns[..k], numbers[..k]), turns[k], numbers[k])
  }

  /** If the turn brings a message, n is a number its word carries, and it is close to the
      largest observed before. */
  ghost predicate PlausibleTurn(h: seq<int>, t: Turn, n: int) {
    BringsMessage(t) ==> Wrap(n) == Classify(t.read.bytes).word && (h != [] ==> Near(Max(h), n))
  }

  function Observed(h: seq<int>, t: Turn, n: int): seq<int> {
    if BringsMessage(t) then h + [n] else h
  }

  ghost predicate Plausible(h: seq<int>, turns: seq<Turn>, numbers: seq<int>)
    decreases |turns|
  {
    && |turns| == |numbers|
    && (turns != [] ==>
          && PlausibleTurn(h, turns[0], numbers[0])
          && Plausible(Observed(h, turns[0], numbers[0]), turns[1..], numbers[1..]))
  }

  class Session {
    const peerId: string
    const sessionId: seq<byte>
    var links: seq<Link>
    var active: Option<string>
    const sendSeq: SeqGen
    const dedup: DedupWindow
    const unacked: UnackedRing<PendingFrame>
    var ackPending: AckPending
    /** What became of every number handed out. */
    ghost var ledger: Ledger<PendingFrame>

    /** Link ids are distinct and the active one is attached. */
    ghost predicate Routable()
      reads this`links, this`active
    {
      DistinctIds(links) && (active.Some? ==> Attached(links, active.value))
    }

    /** The counters, the window and the ring agree with the history of the session. */
    ghost predicate Books()
      reads this`ledger, this`ackPending, sendSeq, dedup, unacked
    {
      && sendSeq.Valid() && dedup.Valid() && unacked.Valid()
      && ledger.sent == sendSeq.issued && ledger.ring == unacked.entries && Balanced(ledger)
      && Bounded(ackPending)
    }

    ghost predicate Valid()
      reads this, sendSeq, dedup, unacked
    {
      Routable() && Books()
    }

    constructor (peerId: string, sessionId: seq<byte>)
      ensures Valid() && links == [] && active == None
      ensures this.peerId == peerId && this.sessionId == sessionId
      ensures fresh(sendSeq) && fresh(dedup) && fresh(unacked)
      ensures ledger == EmptyLedger<PendingFrame>() && dedup.history == [] && ackPending == IDLE
    {
      this.peerId, this.sessionId := peerId, sessionId;
      links, active := [], None;
      sendSeq := new SeqGen();
      dedup := new DedupWindow();
      unacked := new UnackedRing<PendingFrame>();
      ackPending := IDLE;
      ledger := EmptyLedger();
    }

    method LinkById(id: string) returns (r: Option<nat>)
      ensures r.Some? ==>
        r.value < |links| && links[r.value].id == id && forall j | 0 <= j < r.value :: links[j].id != id
      ensures r == None ==> !Attached(links, id)
    {
      var i := 0;
      while i < |links|
        invariant 0 <= i <= |links|
        invariant forall j | 0 <= j < i :: links[j].id != id
      {
        if links[i].id == id { return Some(i); }
        i := i + 1;
      }
      return None;
    }

    /** `filter` then `max_by_key`, which keeps the last of equal maxima. */
    method BestExcluding(exclude: string, clock: nat) returns (r: Option<string>)
      ensures r == None ==> NoneOf(Ranks(links, exclude, clock))
      ensures r.Some? ==> exists i: nat :: BestOf(Ranks(links, exclude, clock), i) && links[i].id == r.value
    {
      r := None;
      ghost var ranks := Ranks(links, exclude, clock);
      var best := 0;
      var i: nat := 0;
      while i < |links|
        invariant 0 <= i <= |links|
        invariant r == None ==> forall j | 0 <= j < i :: ranks[j] == None
        invariant r.Some? ==> best < i && links[best].id == r.value && ranks[best].Some?
        invariant r.Some? ==> forall j | 0 <= j < i && ranks[j].Some? ::
          ranks[j].value < ranks[best].value || (ranks[j].value == ranks[best].value && j <= best)
      {
        if links[i].id != exclude && links[i].IsHealthy(clock)
            && (r == None || links[i].Score() >= links[best].Score()) {
          r, best := Some(links[i].id), i;
        }
        i := i + 1;
      }
      if r.Some? { assert BestOf(ranks, best); }
    }

    method PromoteOnFailure(failing: string, clock: nat) returns (r: Option<string>)
      requires Routable()
      modifies this`active
      ensures Routable()
      ensures r == None ==> NoneOf(Ranks(links, failing, clock)) && active == old(active)
      ensures r.Some? ==> active == r
      ensures r.Some? ==> exists i: nat :: BestOf(Ranks(links, failing, clock), i) && links[i].id == r.value
    {
      r := BestExcluding(failing, clock);
      if r.Some? {
        active := r;
      }
    }

    /** The link in use, if it is healthy. */
    method Current(clock: nat) returns (r: Option<nat>)
      requires Routable()
      ensures r == None ==> NoneInService(links, active, clock)
      ensures r.Some? ==> InService(links, active, clock, r.value)
    {
      r := None;
      if active.Some? {
        r := LinkById(active.value);
        if r.Some? && !links[r.value].IsHealthy(clock) {
          return None;
        }
      }
    }

    method CurrentOrPick(clock: nat) returns (r: Option<nat>)
      requires Routable()
      modifies this`active
      ensures Routable()
      ensures r == None ==> NoneInService(links, old(active), clock) && NoneOf(Ranks(links, "", clock))
      ensures r.Some? ==> r.value < |links| && Chosen(links, old(active), clock, r.value)
      ensures active == if old(active) == None && r.Some? then Some(links[r.value].id) else old(active)
    {
      r := Current(clock);
      if r.Some? { return; }
      var id := BestExcluding("", clock);
      if id == None { return None; }
      if active == None {
        active := id;
      }
      r := LinkById(id.value);
    }

    /** A user's request to move to a link of the session. */
    method SwitchActive(toLink: string) returns (ok: bool)
      requires Routable()
      modifies this`active
      ensures Routable()
      ensures ok <==> Attached(links, toLink)
      ensures active == if ok then Some(toLink) else old(active)
    {
      var i := LinkById(toLink);
      if i == None { return false; }
      active := Some(toLink);
      return true;
    }

    /** Which links were written to since the old state, in which order, and why those:
        first the link in use or the best one; after a failure the best of the others, if
        any.  Each listed link got exactly these bytes, once; no other link was touched. */
    twostate predicate Routed(tried: seq<nat>, bytes: seq<byte>,
                              clock: nat, firstOk: bool, laterClock: nat, secondOk: bool)
      reads this, links
    {
      && links == old(links)
      && (forall i: nat | i < |links| && i !in tried :: unchanged(links[i]))
      && if |tried| == 0 then
           && old(NoneInService(links, active, clock)) && NoneOf(old(Ranks(links, "", clock)))
           && active == old(active)
         else if |tried| == 1 then
           && tried[0] < |links| && old(Chosen(links, active, clock, tried[0]))
           && links[tried[0]].log == old(links[tried[0]].log) + [(bytes, firstOk)]
           && (firstOk || NoneOf(old(Ranks(links, links[tried[0]].id, laterClock))))
           && active == (if old(active) == None then Some(links[tried[0]].id) else old(active))
         else
           && |tried| == 2 && tried[0] < |links| && tried[1] < |links| && tried[0] != tried[1]
           && old(Chosen(links, active, clock, tried[0]))
           && links[tried[0]].log == old(links[tried[0]].log) + [(bytes, firstOk)]
           && !firstOk
           && BestOf(old(Ranks(links, links[tried[0]].id, laterClock)), tried[1])
           && links[tried[1]].log == old(links[tried[1]].log) + [(bytes, secondOk)]
           && active == Some(links[tried[1]].id)
    }

    /** The first attempt, on link `first`.  How the other links rank does not change. */
    method FirstWrite(first: nat, bytes: seq<byte>, accepted: bool, clock: nat, ghost laterClock: nat)
      returns (ok: bool)
      requires Routable() && first < |links|
      modifies links[first]
      ensures ok == accepted
      ensures links[first].log == old(links[first].log) + [(bytes, accepted)]
      ensures Ranks(links, links[first].id, laterClock) == old(Ranks(links, links[first].id, laterClock))
    {
      ok := links[first].Send(bytes, accepted, clock);
      assert forall i: nat | i < |links| && i != first :: unchanged(links[i]);
    }

    /** The retry: promote the best of the other links and write to it. */
    method SecondWrite(failed: nat, bytes: seq<byte>, clock: nat, accepted: bool) returns (r: Option<nat>)
      requires Routable() && failed < |links|
      modifies this`active, links
      ensures Routable()
      ensures r == None ==> active == old(active) && NoneOf(old(Ranks(links, links[failed].id, clock)))
      ensures r.Some? ==>
        && r.value < |links| && r.value != failed
        && active == Some(links[r.value].id)
        && BestOf(old(Ranks(links, links[failed].id, clock)), r.value)
        && links[r.value].log == old(links[r.value].log) + [(bytes, accepted)]
      ensures forall i: nat | i < |links| && r != Some(i) :: unchanged(links[i])
    {
      r := None;
      var next := PromoteOnFailure(links[failed].id, clock);
      if next.Some? {
        r := LinkById(next.value);
        var ok := links[r.value].Send(bytes, accepted, clock);
      }
    }

    /** One write on the chosen link and, should it fail, one on the best of the others. */
    method WriteWithRetry(first: nat, bytes: seq<byte>, clock: nat, firstOk: bool, laterClock: nat, secondOk: bool)
      returns (ok: bool, second: Option<nat>)
      requires Routable() && first < |links|
      modifies this`active, links
      ensures Routable()
      ensures links[first].log == old(links[first].log) + [(bytes, firstOk)]
      ensures forall i: nat | i < |links| && i != first && second != Some(i) :: unchanged(links[i])
      ensures second == None ==>
        ok == firstOk && active == old(active) && (firstOk || NoneOf(old(Ranks(links, links[first].id, laterClock))))
      ensures second.Some? ==>
        && ok == secondOk && !firstOk
        && second.value < |links| && second.value != first
        && BestOf(old(Ranks(links, links[first].id, laterClock)), second.value)
        && links[second.value].log == old(links[second.value].log) + [(bytes, secondOk)]
        && active == Some(links[second.value].id)
    {
      second := None;
      ok := FirstWrite(first, bytes, firstOk, clock, laterClock);
      if !ok {
        second := SecondWrite(first, bytes, laterClock, secondOk);
        ok := second.Some? && secondOk;
      }
    }

    /** The part of `send` that finds a link and writes to it. */
    method Transmit(bytes: seq<byte>, clock: nat, firstOk: bool, laterClock: nat, secondOk: bool)
      returns (ok: bool, ghost tried: seq<nat>)
      requires Routable()
      modifies this`active, links
      ensures Routable()
      ensures Routed(tried, bytes, clock, firstOk, laterClock, secondOk)
      ensures ok <==> tried != [] && (if |tried| == 1 then firstOk else secondOk)
    {
      var primary := CurrentOrPick(clock);
      if primary == None {
        return false, [];
      }
      var second;
      ok, second := WriteWithRetry(primary.value, bytes, clock, firstOk, laterClock, secondOk);
      if second == None {
        return ok, [primary.value];
      }
      return ok, [primary.value, second.value];
    }

    /** Takes the next number; until the send succeeds the books count it as failed. */
    method TakeNumber() returns (s: u32)
      requires Books()
      modifies this`ledger, sendSeq
      ensures Books()
      ensures s == Wrap(old(sendSeq.issued)) && sendSeq.issued == old(sendSeq.issued) + 1
      ensures ledger == After(old(ledger), SendFailed)
    {
      SendBalanced(ledger);
      s := sendSeq.Next();
      ledger := After(ledger, SendFailed);
    }

    /** The frame is filed last under its number. */
    method FileFrame(s: u32, f: PendingFrame, ghost n: int)
      requires unacked.Valid() && Wrap(n) == s
      modifies unacked
      ensures unacked.Valid() && unacked.entries == AfterPush(old(unacked.entries), Entry(n, f))
      ensures unacked.entries != [] && unacked.entries[|unacked.entries| - 1] == Entry(n, f)
    {
      var evicted := unacked.Push(s, f, n);
    }

    /** Files the frame just written as pending. */
    method RecordUnacked(s: u32, bytes: seq<byte>, t: MessageType, ghost before: Ledger<PendingFrame>)
      requires Books() && Balanced(before) && ledger == After(before, SendFailed) && s == Wrap(before.sent)
      modifies this`ledger, unacked
      ensures Books()
      ensures ledger == After(before, SendOk(PendingFrame(bytes, t)))
      ensures unacked.entries != []
      ensures unacked.entries[|unacked.entries| - 1] == Entry(before.sent, PendingFrame(bytes, t))
    {
      PushBalanced(before, PendingFrame(bytes, t));
      FileFrame(s, PendingFrame(bytes, t), before.sent);
      ledger := After(before, SendOk(PendingFrame(bytes, t)));
    }

    /** The part of `send` after framing: write, and file the frame if some link took it. */
    method Deliver(s: u32, bytes: seq<byte>, t: MessageType, clock: nat, firstOk: bool, laterClock: nat, secondOk: bool,
                   ghost before: Ledger<PendingFrame>)
      returns (r: Result<u32, SendError>, ghost tried: seq<nat>)
      requires Valid() && Balanced(before) && ledger == After(before, SendFailed) && s == Wrap(before.sent)
      modifies this`active, this`ledger, unacked, links
      ensures Valid()
      ensures Routed(tried, bytes, clock, firstOk, laterClock, secondOk)
      ensures r == if tried != [] && (if |tried| == 1 then firstOk else secondOk) then Ok(s) else Err(NoHealthyLink)
      ensures ledger == if r.Ok? then After(before, SendOk(PendingFrame(bytes, t))) else After(before, SendFailed)
    {
      var ok;
      ok, tried := Transmit(bytes, clock, firstOk, laterClock, secondOk);
      if !ok {
        return Err(NoHealthyLink), tried;
      }
      RecordUnacked(s, bytes, t, before);
      return Ok(s), tried;
    }

    /** Sends one message.  `clock` and `firstOk` are the time of the first attempt and what
        the link answers it, `laterClock` and `secondOk` those of the retry.  `tried` lists
        the links that were written to. */
    method Send(t: MessageType, payload: seq<byte>, cipher: Option<Cipher>, compress: bool, codec: Codec,
                clock: nat, firstOk: bool, laterClock: nat, secondOk: bool)
      returns (r: Result<u32, SendError>, ghost tried: seq<nat>)
      requires Valid()
      modifies this, sendSeq, unacked, links
      ensures Valid()
      ensures dedup.history == old(dedup.history) && ackPending == old(ackPending) && links == old(links)
      // every outcome takes exactly one number
      ensures sendSeq.issued == old(sendSeq.issued) + 1
      // a message that cannot be framed touches no link; otherwise the frame goes to the
      // links listed, and it is pending exactly if the last of them took it
      ensures var prepared := Prepared(Wrap(old(sendSeq.issued)), t, payload, cipher, compress, codec);
              if prepared.Err? then
                && r == Err(prepared.error) && ledger == After(old(ledger), SendFailed)
                && active == old(active) && forall l | l in links :: unchanged(l)
              else
                && Routed(tried, prepared.value, clock, firstOk, laterClock, secondOk)
                && if tried != [] && (if |tried| == 1 then firstOk else secondOk)
                   then r == Ok(Wrap(old(sendSeq.issued)))
                       && ledger == After(old(ledger), SendOk(PendingFrame(prepared.value, t)))
                   else r == Err(NoHealthyLink) && ledger == After(old(ledger), SendFailed)
    {
      tried := [];
      ghost var before := ledger;
      var s := TakeNumber();
      var prepared := Prepared(s, t, payload, cipher, compress, codec);
      if prepared.Err? {
        return Err(prepared.error), tried;
      }
      r, tried := Deliver(s, prepared.value, t, clock, firstOk, laterClock, secondOk, before);
    }

    /** An ACK arrived: cumulative part, then selective part. */
    method OnAck(f: AckFrame)
      requires Valid()
      modifies this`ledger, unacked
      ensures Valid()
      ensures ledger == After(old(ledger), GotAck(f))
    {
      AckBalanced(ledger, f);
      TwoPassesAreOne(unacked.entries, f);
      unacked.AckCum(f.ack);
      unacked.Sack(f.ack, f.bitmap);
      ledger := After(ledger, GotAck(f));
    }

    /** Writes the items to links[at] in order, stopping at the first that fails; accepts(k)
        is the link's answer to the k-th write. */
    method WriteAll(at: nat, items: seq<(u32, PendingFrame)>, clock: nat, accepts: nat -> bool)
      returns (ok: bool, written: nat)
      requires at < |links|
      modifies links[at]
      ensures written <= |items|
      ensures links[at].log == old(links[at].log) + Writes(items, accepts, written)
      ensures forall k: nat | k + 1 < written :: accepts(k)
      ensures if ok then written == |items| && (written > 0 ==> accepts(written - 1))
              else written > 0 && !accepts(written - 1)
    {
      var link := links[at];
      written, ok := 0, true;
      while ok && written < |items|
        invariant written <= |items|
        invariant link.log == old(link.log) + Writes(items, accepts, written)
        invariant forall k: nat | k + 1 < written :: accepts(k)
        invariant if ok then written > 0 ==> accepts(written - 1) else written > 0 && !accepts(written - 1)
      {
        ok := link.Send(items[written].1.bytes, accepts(written), clock);
        written := written + 1;
      }
    }

    /** Writes pending frames to one link again.  It takes those the ring returns for word
        0, which is all of them only while no pending word is in the upper half. */
    method FlushUnackedOver(linkId: string, clock: nat, accepts: nat -> bool) returns (ok: bool, ghost written: nat)
      requires Valid()
      modifies links
      ensures Valid()
      ensures !Attached(links, linkId) ==> !ok && forall l | l in links :: unchanged(l)
      ensures forall i | 0 <= i < |links| && links[i].id == linkId ::
        var replay := Stamped(Seqs.Filter(Since<PendingFrame>(0), unacked.entries));
        && written <= |replay|
        && links[i].log == old(links[i].log) + Writes(replay, accepts, written)
        && (ok ==> written == |replay| && forall k: nat | k < written :: accepts(k))
        && (!ok ==> written > 0 && !accepts(written - 1))
      ensures forall k: nat | k + 1 < written :: accepts(k)
      ensures forall i: nat | i < |links| && links[i].id != linkId :: unchanged(links[i])
    {
      written := 0;
      var at := LinkById(linkId);
      if at == None { return false, 0; }
      var items := unacked.UnackedSince(0);
      ok, written := WriteAll(at.value, items, clock, accepts);
      assert forall i: nat | i < |links| && i != at.value :: links[i].id != linkId && unchanged(links[i]);
    }

    // ---- the receive path ----

    /** Only the active link, if there is one, got anything: one frame, with this answer. */
    twostate predicate WrittenToActive(bytes: seq<byte>, accepted: bool)
      reads this, links
    {
      && links == old(links) && active == old(active)
      && forall i: nat | i < |links| ::
        if active == Some(links[i].id)
        then links[i].log == old(links[i].log) + [(bytes, accepted)]
        else unchanged(links[i])
    }

    method WriteToActive(bytes: seq<byte>, clock: nat, accepted: bool) returns (ok: bool)
      requires Routable()
      modifies links
      ensures WrittenToActive(bytes, accepted)
      ensures ok <==> active == None || accepted
    {
      if active == None { return true; }
      var i := LinkById(active.value);
      ok := links[i.value].Send(bytes, accepted, clock);
    }

    /** Sends the window as one ACK over the active link, if anything is pending: the peer
        reads the frame `sent` as exactly the two words of the window. */
    method FlushAckNow(clock: nat, accepted: bool) returns (ghost sent: seq<byte>)
      requires Routable() && dedup.Valid()
      modifies this`ackPending, links
      ensures ackPending == Flushed(old(ackPending), Outcome(active, accepted), clock)
      ensures if old(ackPending).count == 0 then forall l | l in links :: unchanged(l)
              else WrittenToActive(sent, accepted) && Classify(sent) == AckOf(AckFrame(dedup.last, dedup.bits))
    {
      sent := [];
      if ackPending.count == 0 { return; }
      ackPending := IDLE;
      var last, bits := dedup.Snapshot();
      var bytes := EncodeAckFrame(AckFrame(last, bits));
      sent := bytes;
      var ok := WriteToActive(bytes, clock, accepted);
      if !ok {
        ackPending := AckPending(ackPending.count + 1,
            if ackPending.firstPendingAt == None then Some(clock) else ackPending.firstPendingAt);
      }
    }

    /** What an ACK that is due leaves in the log of links[i]: one write on the active link,
        nothing on any other. */
    ghost function AckLog(due: bool, i: nat, sent: seq<byte>, accepted: bool): seq<(seq<byte>, bool)>
      requires i < |links|
      reads this`links, this`active
    {
      if due && active == Some(links[i].id) then [(sent, accepted)] else []
    }

    /** The peer reads these bytes as an ACK of the window as it stands. */
    ghost predicate TellsWindow(sent: seq<byte>)
      reads dedup
    {
      Classify(sent) == AckOf(AckFrame(dedup.last, dedup.bits))
    }

    /** A message arrived under word w; n is the number its sender stamped.  The eighth
        message accepted sends the window at once. */
    method ConsumeMessage(w: u32, clock: nat, accepted: bool, ghost n: int) returns (isNew: bool, ghost sent: seq<byte>)
      requires Valid() && Wrap(n) == w && (dedup.history != [] ==> Near(Max(dedup.history), n))
      modifies this`ackPending, dedup, links
      ensures Valid() && ledger == old(ledger)
      ensures dedup.history == old(dedup.history) + [n]
      ensures isNew <==> Verdict(old(dedup.history), n) == Accept
      ensures ackPending
              == if isNew then AfterAccept(old(ackPending), Outcome(active, accepted), clock) else old(ackPending)
      ensures var due := isNew && old(ackPending).count + 1 == 8;
              && (due ==> TellsWindow(sent))
              && forall i: nat | i < |links| :: links[i].log == old(links[i].log) + AckLog(due, i, sent, accepted)
    {
      sent := [];
      var o := dedup.Observe(w, n);
      if o != Accept { return false, []; }
      ackPending := AckPending(if ackPending.count < TWO32 - 1 then ackPending.count + 1 else ackPending.count,
                               if ackPending.firstPendingAt == None then Some(clock) else ackPending.firstPendingAt);
      if ackPending.count >= ACK_MAX_PENDING {
        sent := FlushAckNow(clock, accepted);
      }
      isNew := true;
    }

    /** One buffer from a link.  Only a numbered message reaches the window, and only its
        first copy in time reaches the application; only an ACK reaches the ring. */
    method HandleBytes(bytes: seq<byte>, clock: nat, accepted: bool, ghost n: int)
      returns (out: ReadOutcome, ghost sent: seq<byte>)
      requires Valid()
      requires Classify(bytes).Numbered? ==>
        Wrap(n) == Classify(bytes).word && (dedup.history != [] ==> Near(Max(dedup.history), n))
      modifies this`ackPending, this`ledger, dedup, unacked, links
      ensures Valid()
      ensures match Classify(bytes)
              case Numbered(w, body) =>
                && dedup.history == old(dedup.history) + [n]
                && ledger == old(ledger)
                && (if Verdict(old(dedup.history), n) == Accept
                    then
                      && out == Msg(w, body)
                      && ackPending == AfterAccept(old(ackPending), Outcome(active, accepted), clock)
                    else out == Continue && ackPending == old(ackPending))
              case AckOf(f) =>
                && ledger == After(old(ledger), GotAck(f))
                && dedup.history == old(dedup.history) && ackPending == old(ackPending) && out == Continue
              case Ignored =>
                && ledger == old(ledger)
                && dedup.history == old(dedup.history) && ackPending == old(ackPending) && out == Continue
      // what is malformed or of any other type changes nothing
      ensures Decode(bytes).Err? || DecodeFlags(Decode(bytes).value.flags).2 !in {Ack, Message} ==>
                && out == Continue && dedup.history == old(dedup.history)
                && ledger == old(ledger) && ackPending == old(ackPending)
      // an ACK goes out at once exactly if this was the eighth message accepted
      ensures var due := out.Msg? && old(ackPending).count + 1 == 8;
              && (due ==> TellsWindow(sent))
              && forall i: nat | i < |links| :: links[i].log == old(links[i].log) + AckLog(due, i, sent, accepted)
    {
      ClassifiedByFrame(bytes);
      out, sent := Continue, [];
      match Classify(bytes) {
        case Ignored =>
        case AckOf(f) =>
          OnAck(f);
        case Numbered(w, body) =>
          var isNew;
          isNew, sent := ConsumeMessage(w, clock, accepted, n);
          out := if isNew then Msg(w, body) else Continue;
      }
    }

    /** Fifty milliseconds after the first message still waiting, the window is sent. */
    method MaybeFlushAck(clock: nat, accepted: bool) returns (ghost sent: seq<byte>)
      requires Valid()
      modifies this`ackPending, links
      ensures Valid()
      ensures ackPending == AfterTick(old(ackPending), Outcome(active, accepted), clock)
      ensures var due := Overdue(old(ackPending), clock);
              && (due ==> TellsWindow(sent))
              && forall i: nat | i < |links| :: links[i].log == old(links[i].log) + AckLog(due, i, sent, accepted)
    {
      sent := [];
      if ShouldFlush(ackPending, clock) {
        sent := FlushAckNow(clock, accepted);
      }
    }

    /** A read failed: the link is charged, and the session goes on if it has another. */
    method LinkReadFailed(i: nat, clock: nat) returns (out: ReadOutcome)
      requires Valid() && i < |links|
      modifies links
      ensures Valid()
      ensures out == if |links| == 1 then AllLinksGone else Continue
      ensures links[i].health == Recorded(old(links[i].health), Sample.Error, links[i].NowMs(clock))
      ensures forall j: nat | j < |links| :: links[j].log == old(links[j].log) && (j != i ==> unchanged(links[j]))
    {
      links[i].RecordError(clock);
      if |links| > 1 { assert links[if i == 0 then 1 else 0].id != links[i].id; }
      return if exists j: nat :: j < |links| && links[j].id != links[i].id then Continue else AllLinksGone;
    }

    /** What the race of the links brought. */
    method TakeRead(turn: Turn, ghost n: int) returns (out: ReadOutcome, ghost sent: seq<byte>)
      requires Valid() && links != []
      requires NamesLink(turn.read, |links|)
      requires PlausibleTurn(dedup.history, turn, n)
      modifies this`ackPending, this`ledger, dedup, unacked, links
      ensures Valid()
      ensures dedup.history == Observed(old(dedup.history), turn, n)
      ensures out.Msg? <==> BringsMessage(turn) && Verdict(old(dedup.history), n) == Accept
      ensures out.Msg? ==> Classify(turn.read.bytes) == Numbered(out.word, out.body)
      ensures out.AllLinksGone? ==> turn.read.LinkFailed? && |links| == 1
      ensures ackPending
              == if out.Msg? then AfterAccept(old(ackPending), Outcome(active, turn.messageFlush), turn.clock)
                 else old(ackPending)
      ensures var due := out.Msg? && old(ackPending).count + 1 == 8;
              && (due ==> TellsWindow(sent))
              && forall i: nat | i < |links| ::
                links[i].log == old(links[i].log) + AckLog(due, i, sent, turn.messageFlush)
    {
      out, sent := Continue, [];
      match turn.read {
        case Timer =>
        case LinkFailed(i) =>
          out := LinkReadFailed(i, turn.clock);
        case FromLink(i, bytes) =>
          links[i].RecordSuccess(turn.clock);
          out, sent := HandleBytes(bytes, turn.clock, turn.messageFlush, n);
      }
    }

    /** One turn of the loop: flush an ACK that is due, then take what the race brought. */
    method TakeTurn(turn: Turn, ghost n: int)
      returns (out: ReadOutcome, ghost timerAck: seq<byte>, ghost messageAck: seq<byte>)
      requires Valid() && links != []
      requires NamesLink(turn.read, |links|)
      requires PlausibleTurn(dedup.history, turn, n)
      modifies this`ackPending, this`ledger, dedup, unacked, links
      ensures Valid()
      ensures dedup.history == Observed(old(dedup.history), turn, n)
      ensures out.Msg? <==> BringsMessage(turn) && Verdict(old(dedup.history), n) == Accept
      ensures out.Msg? ==> Classify(turn.read.bytes) == Numbered(out.word, out.body)
      ensures out.AllLinksGone? ==> turn.read.LinkFailed? && |links| == 1
      // what is pending changes as the ACK policy says: first the clock, then the message
      ensures var ticked := AfterTick(old(ackPending), Outcome(active, turn.timerFlush), turn.clock);
              ackPending
              == if out.Msg? then AfterAccept(ticked, Outcome(active, turn.messageFlush), turn.clock) else ticked
      // and each time it says flush, one ACK with the window of that moment is written
      ensures var overdue := Overdue(old(ackPending), turn.clock);
              var ticked := AfterTick(old(ackPending), Outcome(active, turn.timerFlush), turn.clock);
              var eighth := out.Msg? && ticked.count + 1 == 8;
              && (overdue ==> Classify(timerAck) == AckOf(AckFrame(old(dedup.last), old(dedup.bits))))
              && (eighth ==> TellsWindow(messageAck))
              && forall i: nat | i < |links| ::
                links[i].log == old(links[i].log) + AckLog(overdue, i, timerAck, turn.timerFlush)
                                                  + AckLog(eighth, i, messageAck, turn.messageFlush)
    {
      timerAck := MaybeFlushAck(turn.clock, turn.timerFlush);
      out, messageAck := TakeRead(turn, n);
    }

    /** One turn as the loop sees it: everything up to and including turn i is accounted
        for, and a message handed out is the one that turn newly delivers. */
    method RecvTurn(turns: seq<Turn>, i: nat, ghost numbers: seq<int>, ghost h: seq<int>) returns (r: RecvResult)
      requires Valid() && links != [] && i < |turns|
      requires Accounted(h, turns, numbers, i, dedup.history, Waiting)
      requires NamesLink(turns[i].read, |links|)
      modifies this`ackPending, this`ledger, dedup, unacked, links
      ensures Valid() && Accounted(h, turns, numbers, i + 1, dedup.history, r)
      ensures r.LinksGone? ==> |links| == 1
    {
      TurnByTurn(h, turns, numbers, i);
      var out;
      ghost var timerAck, messageAck;
      out, timerAck, messageAck := TakeTurn(turns[i], numbers[i]);
      r := match out case Msg(w, body) => Received(w, body) case AllLinksGone => LinksGone case Continue => Waiting;
    }

    /** The receive loop, until a message, the loss of the last link, or the end of the
        turns given.  The numbers observed are those of the turns used, and the application
        gets exactly what the reference machine delivers. */
    method Recv(turns: seq<Turn>, ghost numbers: seq<int>) returns (r: RecvResult, used: nat)
      requires Valid() && Plausible(dedup.history, turns, numbers)
      requires forall i | 0 <= i < |turns| :: NamesLink(turns[i].read, |links|)
      modifies this`ackPending, this`ledger, dedup, unacked, links
      ensures Valid() && Accounted(old(dedup.history), turns, numbers, used, dedup.history, r)
      ensures r.Waiting? ==> used == |turns|
      ensures r.LinksGone? ==> |links| <= 1
    {
      used := 0;
      ghost var h := dedup.history;
      NothingAccounted(h, turns, numbers);
      while used < |turns|
        invariant used <= |turns| && Valid() && Accounted(h, turns, numbers, used, dedup.history, Waiting)
      {
        if links == [] { return LinksGone, used; }
        r := RecvTurn(turns, used, numbers, h);
        used := used + 1;
        if !r.Waiting? { return; }
      }
      r := if links == [] then LinksGone else Waiting;
    }
  }

  /** Turns up to i were used and came to r: they lead from history h to `now`, the rest are
      plausible from there, and nothing was newly delivered -- save, if r is a message, the
      number of the last turn used, which brought just this word and body. */
  ghost predicate Accounted(h: seq<int>, turns: seq<Turn>, numbers: seq<int>, i: nat, now: seq<int>, r: RecvResult) {
    && i <= |turns| == |numbers|
    && now == ObservedAll(h, turns[..i], numbers[..i])
    && Plausible(now, turns[i..], numbers[i..])
    && if r.Received? then
         && i > 0 && BringsMessage(turns[i - 1])
         && Classify(turns[i - 1].read.bytes) == Numbered(r.word, r.body)
         && Deliveries(now) == Deliveries(h) + [numbers[i - 1]]
       else Deliveries(now) == Deliveries(h)
  }

  lemma NothingAccounted(h: seq<int>, turns: seq<Turn>, numbers: seq<int>)
    requires Plausible(h, turns, numbers)
    ensures Accounted(h, turns, numbers, 0, h, Waiting)
  {
    assert turns[0..] == turns && numbers[0..] == numbers;
  }

  lemma TurnByTurn(h: seq<int>, turns: seq<Turn>, numbers: seq<int>, i: nat)
    requires i < |turns| == |numbers|
    requires Plausible(ObservedAll(h, turns[..i], numbers[..i]), turns[i..], numbers[i..])
    ensures var now := ObservedAll(h, turns[..i], numbers[..i]);
            var next := ObservedAll(h, turns[..i + 1], numbers[..i + 1]);
            && PlausibleTurn(now, turns[i], numbers[i])
            && next == Observed(now, turns[i], numbers[i])
            && Plausible(next, turns[i + 1..], numbers[i + 1..])
            && Deliveries(next) == if BringsMessage(turns[i]) && Verdict(now, numbers[i]) == Accept
                                   then Deliveries(now) + [numbers[i]] else Deliveries(now)
  {
    assert turns[..i + 1][..i] == turns[..i] && numbers[..i + 1][..i] == numbers[..i];
    assert turns[i..][1..] == turns[i + 1..] && numbers[i..][1..] == numbers[i + 1..];
    DeliveriesStep(ObservedAll(h, turns[..i], numbers[..i]), numbers[i]);
  }

  /** Some turn brings the message numbered n. */
  ghost predicate Brought(turns: seq<Turn>, numbers: seq<int>, n: int)
    requires |turns| == |numbers|
  {
    exists i :: 0 <= i < |turns| && BringsMessage(turns[i]) && numbers[i] == n
  }

  lemma BroughtByLast(turns: seq<Turn>, numbers: seq<int>, n: int)
    requires |turns| == |numbers| > 0
    ensures var k := |turns| - 1;
            Brought(turns, numbers, n)
            <==> Brought(turns[..k], numbers[..k], n) || (BringsMessage(turns[k]) && numbers[k] == n)
  {
    var k := |turns| - 1;
    if i :| 0 <= i < k && BringsMessage(turns[..k][i]) && numbers[..k][i] == n {
      assert BringsMessage(turns[i]) && numbers[i] == n;
    }
    if i :| 0 <= i < |turns| && BringsMessage(turns[i]) && numbers[i] == n {
      if i < k { assert BringsMessage(turns[..k][i]) && numbers[..k][i] == n; }
    }
  }

  lemma {:induction false} ObservedWereBrought(turns: seq<Turn>, numbers: seq<int>, n: int)
    requires |turns| == |numbers|
    ensures n in ObservedAll([], turns, numbers) <==> Brought(turns, numbers, n)
    decreases |turns|
  {
    if turns != [] {
      var k := |turns| - 1;
      ObservedWereBrought(turns[..k], numbers[..k], n);
      BroughtByLast(turns, numbers, n);
    }
  }

  /** Over a whole session, whichever links the turns come from: no message is handed to the
      application twice, only messages that arrived are, and every message that arrived is,
      exactly if none came first when the window had passed it. */
  lemma SessionDeliversOnce(turns: seq<Turn>, numbers: seq<int>)
    requires |turns| == |numbers|
    ensures var got := Deliveries(ObservedAll([], turns, numbers));
            && (forall i, j | 0 <= i < j < |got| :: got[i] != got[j])
            && (forall n | n in got :: Brought(turns, numbers, n))
            && (BoundedReordering(ObservedAll([], turns, numbers))
                <==> forall n | Brought(turns, numbers, n) :: n in got)
  {
    var h := ObservedAll([], turns, numbers);
    var got := Deliveries(h);
    DeliveriesDistinct(h);
    ExactlyOnce(h);
    forall n ensures n in got <==> exists i: nat :: i < |h| && h[i] == n && Delivered(h, i) {
      DeliveriesComeFromRun(h, n);
    }
    forall n ensures n in h <==> Brought(turns, numbers, n) { ObservedWereBrought(turns, numbers, n); }
    assert forall n | n in got :: n in h;
    assert BoundedReordering(h) <==> forall n | n in h :: n in got;
  }

  lemma SendBalanced(l: Ledger<PendingFrame>)
    requires Balanced(l)
    ensures Balanced(After(l, SendFailed))
  {
  }
}
