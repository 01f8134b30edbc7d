/** Chunked streams over a peer connection: the writer that splits data into numbered
    chunks with a running checksum, and the reader that picks its stream's chunks out of a
    shared connection.  Message encoding is outside the model: a packet is its content. */
module Streams {
  import opened Words
  import opened Wrappers
  import Bits
  import Seqs

  datatype StreamInfo = StreamInfo(streamId: u16, totalChunks: u32, totalSize: u64)

  /** What travels on the connection.  A malformed chunk or end frame carries nothing. */
  datatype Packet =
    | Start(info: StreamInfo)
    | Chunk(streamId: u16, index: u32, data: seq<byte>)
    | End(streamId: u16, checksum: byte)
    | Malformed
    | Other

  // ---- splitting and checksums ----

  /** `slice::chunks`: pieces of n bytes, the last one possibly shorter. */
  function Chunks(data: seq<byte>, n: nat): seq<seq<byte>>
    requires n > 0
    decreases |data|
  {
    if data == [] then []
    else if |data| <= n then [data]
    else [data[..n]] + Chunks(data[n..], n)
  }

  function Flatten(cs: seq<seq<byte>>): seq<byte> {
    if cs == [] then [] else cs[0] + Flatten(cs[1..])
  }

  function Xor8(data: seq<byte>): nat {
    if data == [] then 0 else Bits.Xor(Xor8(data[..|data| - 1]), data[|data| - 1])
  }

  lemma {:induction false} Xor8Fits(data: seq<byte>)
    ensures Xor8(data) < 256
  {
    assert Bits.Pow2(8) == 256;
    if data != [] {
      Xor8Fits(data[..|data| - 1]);
      Bits.XorFits(Xor8(data[..|data| - 1]), data[|data| - 1], 8);
    }
  }

  lemma {:induction false} Xor8Concat(a: seq<byte>, b: seq<byte>)
    ensures Xor8(a + b) == Bits.Xor(Xor8(a), Xor8(b))
  {
    if b == [] {
      assert a + b == a;
      Bits.XorZero(Xor8(a));
    } else {
      assert (a + b)[..|a + b| - 1] == a + b[..|b| - 1];
      Xor8Concat(a, b[..|b| - 1]);
      Bits.XorAssociative(Xor8(a), Xor8(b[..|b| - 1]), b[|b| - 1]);
    }
  }

  lemma Xor8OfByte(b: byte)
    ensures Xor8([b]) == b
  {
    assert [b][..0] == [];
    Bits.XorZero(b);
  }

  /** The checksum of a whole with the parts before and after byte i set apart. */
  lemma Xor8Around(data: seq<byte>, i: nat)
    requires i < |data|
    ensures Xor8(data) == Bits.Xor(Bits.Xor(Xor8(data[..i]), data[i]), Xor8(data[i + 1..]))
  {
    assert data == data[..i] + [data[i]] + data[i + 1..];
    Xor8Concat(data[..i] + [data[i]], data[i + 1..]);
    Xor8Concat(data[..i], [data[i]]);
    Xor8OfByte(data[i]);
  }

  /** The checksum notices a change of one byte: it differs exactly if the byte does. */
  lemma OneByteNoticed(data: seq<byte>, i: nat, b: byte)
    requires i < |data|
    ensures Xor8(data[i := b]) == Xor8(data) <==> b == data[i]
  {
    var a, c := Xor8(data[..i]), Xor8(data[i + 1..]);
    Xor8Around(data, i);
    Xor8Around(data[i := b], i);
    assert data[i := b][..i] == data[..i] && data[i := b][i + 1..] == data[i + 1..];
    if b != data[i] {
      Bits.XorCancelsLeft(a, b, data[i]);
      Bits.XorCancelsRight(Bits.Xor(a, b), Bits.Xor(a, data[i]), c);
    }
  }

  function CeilDiv(len: nat, n: nat): nat
    requires n > 0
  {
    (len + n - 1) / n
  }

  lemma CeilStep(len: nat, n: nat)
    requires n > 0 && len > n
    ensures CeilDiv(len, n) == 1 + CeilDiv(len - n, n)
  {
    var q, r := CeilDiv(len - n, n), (len - n + n - 1) % n;
    assert len - n + n - 1 == q * n + r;
    Bits.Division(len + n - 1, n, q + 1, r);
  }

  /** The pieces put together are the data, and their number is the rounded-up quotient. */
  lemma {:induction false} ChunksAreData(data: seq<byte>, n: nat)
    requires n > 0
    ensures Flatten(Chunks(data, n)) == data
    ensures |Chunks(data, n)| == CeilDiv(|data|, n)
    decreases |data|
  {
    if data == [] {
      Bits.Division(n - 1, n, 0, n - 1);
    } else if |data| <= n {
      assert Flatten([data]) == data + Flatten([]);
      Bits.Division(|data| + n - 1, n, 1, |data| - 1);
    } else {
      ChunksAreData(data[n..], n);
      CeilStep(|data|, n);
      assert Chunks(data, n)[1..] == Chunks(data[n..], n);
      assert data[..n] + data[n..] == data;
    }
  }

  /** `total_chunks` as announced: usize arithmetic that can wrap, cut to 32 bits. */
  function TotalChunks(len: u64, n: u64): u32
    requires n > 0
  {
    if len == 0 then 0 else ((len + n - 1) % TWO64 / n) % TWO32
  }

  /** The announced count is the number of chunks written exactly when the rounding sum
      does not overflow a usize and the count fits 32 bits. */
  lemma AnnouncedCountIsRight(data: seq<byte>, n: u64)
    requires n > 0 && |data| < TWO64
    ensures TotalChunks(|data|, n) == |Chunks(data, n)|
            <==> data == [] || (|data| + n - 1 < TWO64 && |Chunks(data, n)| < TWO32)
  {
    ChunksAreData(data, n);
    if data != [] {
      var count, sum := CeilDiv(|data|, n), |data| + n - 1;
      RoundingSum(|data|, n);
      CutCount(sum % TWO64 / n, count, sum < TWO64);
    }
  }

  lemma CutCount(quotient: nat, count: nat, fits: bool)
    requires count >= 1 && quotient == if fits then count else 0
    ensures quotient % TWO32 == count <==> fits && count < TWO32
  {
  }

  /** One byte or more makes one chunk or more, unless the sum wraps: then the quotient is 0. */
  lemma RoundingSum(len: nat, n: nat)
    requires 0 < len < TWO64 && 0 < n < TWO64
    ensures CeilDiv(len, n) >= 1
    ensures (len + n - 1) % TWO64 / n == if len + n - 1 < TWO64 then CeilDiv(len, n) else 0
  {
    var sum := len + n - 1;
    AtLeastOne(sum, n);
    if sum >= TWO64 {
      assert sum % TWO64 == sum - TWO64;
      Bits.Division(sum - TWO64, n, 0, sum - TWO64);
    }
  }

  lemma AtLeastOne(sum: nat, n: nat)
    requires n > 0 && sum >= n
    ensures sum / n >= 1
  {
    Bits.MultipleOf(sum / n, n);
    assert sum == (sum / n) * n + sum % n;
  }

  // ---- the writer ----

  function Saturating(i: nat): u32 {
    if i < TWO32 then i else TWO32 - 1
  }

  /** The frames of the chunks cs, numbered from `from` on. */
  function Packets(id: u16, from: nat, cs: seq<seq<byte>>): (r: seq<Packet>)
    ensures |r| == |cs| && forall i | 0 <= i < |cs| :: r[i] == Chunk(id, Saturating(from + i), cs[i])
  {
    seq(|cs|, i requires 0 <= i < |cs| => Chunk(id, Saturating(from + i), cs[i]))
  }

  /** A connection to the peer: the frames it took, in order. */
  class Wire {
    var sent: seq<Packet>

    constructor ()
      ensures sent == []
    {
      sent := [];
    }

    method SendRaw(p: Packet, accepted: bool) returns (ok: bool)
      modifies this
      ensures ok == accepted && sent == if accepted then old(sent) + [p] else old(sent)
    {
      if accepted { sent := sent + [p]; }
      return accepted;
    }
  }

  class StreamWriter {
    const wire: Wire
    const streamId: u16
    const chunkSize: nat
    const totalChunks: u32
    var chunkIndex: u32
    var checksum: byte
    /** Chunks written and bytes folded into the checksum so far. */
    ghost var written: nat
    ghost var folded: seq<byte>

    ghost predicate Valid()
      reads this
    {
      chunkSize > 0 && chunkIndex == Saturating(written) && checksum == Xor8(folded)
    }

    constructor (wire: Wire, info: StreamInfo, chunkSize: nat)
      requires chunkSize > 0
      ensures Valid() && this.wire == wire && this.streamId == info.streamId && this.chunkSize == chunkSize
      ensures totalChunks == info.totalChunks && written == 0 && folded == []
    {
      this.wire, this.streamId, this.chunkSize, this.totalChunks := wire, info.streamId, chunkSize, info.totalChunks;
      chunkIndex, checksum := 0, 0;
      written, folded := 0, [];
    }

    method SendChunk(chunk: seq<byte>, accepted: bool) returns (ok: bool)
      requires Valid()
      modifies this, wire
      ensures Valid() && ok == accepted
      ensures folded == old(folded) + chunk
      ensures written == old(written) + (if ok then 1 else 0)
      ensures wire.sent == old(wire.sent) + (if ok then [Chunk(streamId, Saturating(old(written)), chunk)] else [])
    {
      Xor8Concat(folded, chunk);
      Xor8Fits(folded + chunk);
      checksum := Bits.Xor(checksum, Xor8(chunk));
      folded := folded + chunk;
      ok := wire.SendRaw(Chunk(streamId, chunkIndex, chunk), accepted);
      if ok {
        chunkIndex := if chunkIndex < TWO32 - 1 then chunkIndex + 1 else chunkIndex;
        written := written + 1;
      }
    }

    /** k of the chunks cs are on the wire since it held `onWire`, when `first` chunks were
        written and `start` was folded in. */
    ghost predicate Sent(cs: seq<seq<byte>>, k: nat, first: nat, start: seq<byte>, onWire: seq<Packet>)
      reads this, wire
    {
      && k <= |cs| && written == first + k
      && wire.sent == onWire + Packets(streamId, first, cs[..k])
      && folded == start + Flatten(cs[..k])
    }

    method SendNext(chunk: seq<byte>, accepted: bool,
                    ghost cs: seq<seq<byte>>, ghost k: nat,
                    ghost first: nat, ghost start: seq<byte>, ghost onWire: seq<Packet>)
      returns (ok: bool)
      requires Valid() && k < |cs| && chunk == cs[k] && Sent(cs, k, first, start, onWire)
      modifies this, wire
      ensures Valid() && ok == accepted
      ensures ok ==> Sent(cs, k + 1, first, start, onWire)
      ensures !ok ==> wire.sent == old(wire.sent) && written == old(written) && folded == start + Flatten(cs[..k + 1])
    {
      PacketsGrow(onWire, streamId, first, cs, k);
      FlattenGrows(start, cs, k);
      ok := SendChunk(chunk, accepted);
    }

    /** Splits the data and sends the chunks until one is refused; accepts(k) is the answer
        to the k-th.  The checksum takes in the chunks sent and the refused one, no more. */
    method Write(data: seq<byte>, accepts: nat -> bool) returns (ok: bool, k: nat)
      requires Valid()
      modifies this, wire
      ensures Valid() && k <= |Chunks(data, chunkSize)|
      ensures wire.sent == old(wire.sent) + Packets(streamId, old(written), Chunks(data, chunkSize)[..k])
      ensures written == old(written) + k
      ensures ok ==> k == |Chunks(data, chunkSize)| && folded == old(folded) + data
      ensures !ok ==>
        && k < |Chunks(data, chunkSize)| && !accepts(k)
        && folded == old(folded) + Flatten(Chunks(data, chunkSize)[..k + 1])
      ensures forall i: nat | i < k :: accepts(i)
    {
      ghost var cs := Chunks(data, chunkSize);
      ghost var first, start, onWire := written, folded, wire.sent;
      var rest := data;
      k := 0;
      while rest != []
        invariant Valid() && Ahead(cs, k, rest, chunkSize)
        invariant Sent(cs, k, first, start, onWire)
        invariant forall j: nat | j < k :: accepts(j)
        decreases |rest|
      {
        var chunk := if |rest| <= chunkSize then rest else rest[..chunkSize];
        NextChunk(cs, k, rest, chunkSize);
        ok := SendNext(chunk, accepts(k), cs, k, first, start, onWire);
        if !ok { return; }
        rest := rest[|chunk|..];
        k := k + 1;
      }
      AllFolded(start, data, chunkSize);
      ok := true;
    }

    method Finish(accepted: bool) returns (ok: bool)
      requires Valid()
      modifies wire
      ensures ok == accepted
      ensures wire.sent == old(wire.sent) + (if ok then [End(streamId, Xor8(folded))] else [])
    {
      ok := wire.SendRaw(End(streamId, checksum), accepted);
    }
  }

  /** The chunks from the k-th on are those of the rest of the data. */
  ghost predicate Ahead(cs: seq<seq<byte>>, k: nat, rest: seq<byte>, n: nat)
    requires n > 0
  {
    k <= |cs| && cs[k..] == Chunks(rest, n)
  }

  lemma NextChunk(cs: seq<seq<byte>>, k: nat, rest: seq<byte>, n: nat)
    requires n > 0 && rest != [] && Ahead(cs, k, rest, n)
    ensures var chunk := if |rest| <= n then rest else rest[..n];
            k < |cs| && cs[k] == chunk && Ahead(cs, k + 1, rest[|chunk|..], n)
  {
    assert cs[k..][0] == cs[k] && cs[k + 1..] == cs[k..][1..];
  }

  lemma {:induction false} FlattenLast(cs: seq<seq<byte>>, c: seq<byte>)
    ensures Flatten(cs + [c]) == Flatten(cs) + c
  {
    if cs == [] {
      assert Flatten([c]) == c + Flatten([]);
    } else {
      assert (cs + [c])[1..] == cs[1..] + [c];
      FlattenLast(cs[1..], c);
    }
  }

  lemma AllFolded(start: seq<byte>, data: seq<byte>, n: nat)
    requires n > 0
    ensures var cs := Chunks(data, n); start + Flatten(cs[..|cs|]) == start + data
  {
    ChunksAreData(data, n);
    assert Chunks(data, n)[..|Chunks(data, n)|] == Chunks(data, n);
  }

  lemma FlattenGrows(start: seq<byte>, cs: seq<seq<byte>>, k: nat)
    requires k < |cs|
    ensures start + Flatten(cs[..k]) + cs[k] == start + Flatten(cs[..k + 1])
  {
    assert cs[..k + 1] == cs[..k] + [cs[k]];
    FlattenLast(cs[..k], cs[k]);
    assert start + (Flatten(cs[..k]) + cs[k]) == start + Flatten(cs[..k]) + cs[k];
  }

  lemma PacketsGrow(sent: seq<Packet>, id: u16, from: nat, cs: seq<seq<byte>>, k: nat)
    requires k < |cs|
    ensures sent + Packets(id, from, cs[..k]) + [Chunk(id, Saturating(from + k), cs[k])]
        == sent + Packets(id, from, cs[..k + 1])
  {
  }

  /** Announces a stream and makes its writer. */
  method CreateStream(wire: Wire, id: u16, data: seq<byte>, chunkSize: u64, accepted: bool)
    returns (w: Option<StreamWriter>)
    requires |data| < TWO64
    modifies wire
    ensures w.Some? <==> chunkSize > 0 && accepted
    ensures w.Some? ==>
      && fresh(w.value) && w.value.Valid() && w.value.wire == wire
      && w.value.streamId == id && w.value.chunkSize == chunkSize
      && w.value.written == 0 && w.value.folded == [] && w.value.totalChunks == TotalChunks(|data|, chunkSize)
      && wire.sent == old(wire.sent) + [Start(StreamInfo(id, TotalChunks(|data|, chunkSize), |data|))]
    ensures w == None ==> wire.sent == old(wire.sent)
  {
    if chunkSize == 0 { return None; }
    var info := StreamInfo(id, TotalChunks(|data|, chunkSize), |data|);
    var ok := wire.SendRaw(Start(info), accepted);
    if !ok { return None; }
    var writer := new StreamWriter(wire, info, chunkSize);
    return Some(writer);
  }

  /** Everything one stream puts on the wire when nothing is refused. */
  function Emitted(id: u16, data: seq<byte>, n: u64): seq<Packet>
    requires n > 0 && |data| < TWO64
  {
    Xor8Fits(data);
    [Start(StreamInfo(id, TotalChunks(|data|, n), |data|))] + Packets(id, 0, Chunks(data, n)) + [End(id, Xor8(data))]
  }

  /** Create, one write of the data, and finish put exactly the stream on the wire. */
  method SendStream(wire: Wire, id: u16, data: seq<byte>, chunkSize: u64)
    requires 0 < chunkSize && |data| < TWO64
    modifies wire
    ensures wire.sent == old(wire.sent) + Emitted(id, data, chunkSize)
  {
    var w := CreateStream(wire, id, data, chunkSize, true);
    var writer := w.value;
    var ok, k := writer.Write(data, i => true);
    assert Chunks(data, chunkSize)[..k] == Chunks(data, chunkSize);
    assert [] + data == data;
    ok := writer.Finish(true);
    EmittedInParts(old(wire.sent), id, data, chunkSize);
  }

  lemma EmittedInParts(before: seq<Packet>, id: u16, data: seq<byte>, n: u64)
    requires n > 0 && |data| < TWO64 && Xor8(data) < 256
    ensures before + [Start(StreamInfo(id, TotalChunks(|data|, n), |data|))] + Packets(id, 0, Chunks(data, n))
            + [End(id, Xor8(data))]
            == before + Emitted(id, data, n)
  {
  }

  // ---- the reader ----

  /** Frames that mean something to the reader of stream id. */
  function Mine(id: u16): Packet -> bool {
    (p: Packet) => (p.Chunk? || p.End?) && p.streamId == id
  }

  /** The chunks a reader of stream id gets out of the frames ahead of it. */
  function Delivered(inbox: seq<Packet>, id: u16): seq<seq<byte>> {
    if inbox == [] then []
    else if !Mine(id)(inbox[0]) then Delivered(inbox[1..], id)
    else if inbox[0].End? then []
    else [inbox[0].data] + Delivered(inbox[1..], id)
  }

  class StreamReader {
    const streamId: u16
    const totalChunks: u32
    var received: u32
    var done: bool
    /** The frames still ahead on the connection; past them it is closed. */
    var inbox: seq<Packet>

    constructor (info: StreamInfo, inbox: seq<Packet>)
      ensures streamId == info.streamId && totalChunks == info.totalChunks
      ensures received == 0 && !done && this.inbox == inbox
    {
      streamId, totalChunks := info.streamId, info.totalChunks;
      received, done, this.inbox := 0, false, inbox;
    }

    /** What this reader will still yield. */
    ghost function Pending(): seq<seq<byte>>
      reads this
    {
      if done then [] else Delivered(inbox, streamId)
    }

    /** The next chunk of the stream with the count received so far; nothing once the
        stream has ended or the connection closed. */
    method Next() returns (r: Option<(seq<byte>, u32)>)
      modifies this
      ensures old(Pending()) == [] ==> r == None && done && Pending() == []
      ensures old(Pending()) != [] ==>
        && r == Some((old(Pending())[0], received))
        && Pending() == old(Pending())[1..]
        && received == if old(received) < TWO32 - 1 then old(received) + 1 else old(received)
    {
      if done { return None; }
      while true
        invariant !done && received == old(received)
        invariant Delivered(inbox, streamId) == old(Pending())
        decreases |inbox|
      {
        if inbox == [] {
          done := true;
          return None;
        }
        var p := inbox[0];
        inbox := inbox[1..];
        match p {
          case Chunk(id, _, data) =>
            if id == streamId {
              received := if received < TWO32 - 1 then received + 1 else received;
              return Some((data, received));
            }
          case End(id, _) =>
            if id == streamId {
              done := true;
              return None;
            }
          case _ =>
        }
      }
    }
  }

  /** Reads a stream to its end. */
  method ReadAll(reader: StreamReader) returns (cs: seq<seq<byte>>)
    modifies reader
    ensures cs == old(reader.Pending())
    ensures reader.done && reader.Pending() == []
  {
    cs := [];
    ghost var all := reader.Pending();
    while true
      invariant cs + reader.Pending() == all
      decreases |reader.Pending()|
    {
      var r := reader.Next();
      if r == None { return; }
      cs := cs + [r.value.0];
    }
  }

  /** Foreign frames make no difference to a reader. */
  lemma {:induction false} ForeignFramesIgnored(inbox: seq<Packet>, id: u16)
    ensures Delivered(inbox, id) == Delivered(Seqs.Filter(Mine(id), inbox), id)
  {
    if inbox != [] {
      ForeignFramesIgnored(inbox[1..], id);
      assert inbox == [inbox[0]] + inbox[1..];
      Seqs.FilterConcat(Mine(id), [inbox[0]], inbox[1..]);
      var rest := Seqs.Filter(Mine(id), inbox[1..]);
      assert [inbox[0]][..0] == [];
      assert Seqs.Filter(Mine(id), [inbox[0]]) == if Mine(id)(inbox[0]) then [inbox[0]] else [];
      if Mine(id)(inbox[0]) { assert ([inbox[0]] + rest)[1..] == rest; } else { assert [] + rest == rest; }
    }
  }

  /** A frame that is no chunk or end of this stream. */
  predicate ForeignTo(p: Packet, id: u16) {
    match p
    case Chunk(other, _, _) => other != id
    case End(other, _) => other != id
    case _ => true
  }

  /** Taking a frame of another stream, or a malformed one, off the connection changes
      nothing for the reader. */
  lemma {:induction false} ForeignFrameRemoved(inbox: seq<Packet>, k: nat, id: u16)
    requires k < |inbox| && ForeignTo(inbox[k], id)
    ensures Delivered(inbox[..k] + inbox[k + 1..], id) == Delivered(inbox, id)
  {
    var rest := inbox[..k] + inbox[k + 1..];
    if k == 0 {
      assert rest == inbox[1..];
    } else {
      ForeignFrameRemoved(inbox[1..], k - 1, id);
      assert rest[1..] == inbox[1..][..k - 1] + inbox[1..][k..];
    }
  }

  lemma {:induction false} DeliveredOfPackets(id: u16, from: nat, cs: seq<seq<byte>>, sum: byte)
    ensures Delivered(Packets(id, from, cs) + [End(id, sum)], id) == cs
    decreases |cs|
  {
    var inbox := Packets(id, from, cs) + [End(id, sum)];
    if cs != [] {
      DeliveredOfPackets(id, from + 1, cs[1..], sum);
      assert inbox[1..] == Packets(id, from + 1, cs[1..]) + [End(id, sum)];
      assert inbox[0] == Chunk(id, Saturating(from), cs[0]);
    }
  }

  /** Round trip: on a connection that loses nothing and keeps the order, however other
      traffic is mixed in, the reader yields exactly the chunks written, in order; together
      they are the data, and their checksum is the one in the end frame. */
  lemma StreamRoundTrip(id: u16, data: seq<byte>, n: u64, inbox: seq<Packet>)
    requires n > 0 && |data| < TWO64
    requires Seqs.Filter(Mine(id), inbox) == Seqs.Filter(Mine(id), Emitted(id, data, n))
    ensures Delivered(inbox, id) == Chunks(data, n)
    ensures Flatten(Delivered(inbox, id)) == data
    ensures Emitted(id, data, n)[|Emitted(id, data, n)| - 1] == End(id, Xor8(Flatten(Delivered(inbox, id))))
  {
    Xor8Fits(data);
    ForeignFramesIgnored(inbox, id);
    ForeignFramesIgnored(Emitted(id, data, n), id);
    var tail := Packets(id, 0, Chunks(data, n)) + [End(id, Xor8(data))];
    assert Emitted(id, data, n)[1..] == tail;
    DeliveredOfPackets(id, 0, Chunks(data, n), Xor8(data));
    ChunksAreData(data, n);
  }

  /** The receiving end: whatever else is on the connection, reading the stream to its end
      gives the chunks written and so the data. */
  method ReceiveStream(info: StreamInfo, inbox: seq<Packet>, ghost data: seq<byte>, ghost n: u64)
    returns (cs: seq<seq<byte>>)
    requires n > 0 && |data| < TWO64
    requires Seqs.Filter(Mine(info.streamId), inbox)
        == Seqs.Filter(Mine(info.streamId), Emitted(info.streamId, data, n))
    ensures cs == Chunks(data, n) && Flatten(cs) == data
  {
    StreamRoundTrip(info.streamId, data, n, inbox);
    var reader := new StreamReader(info, inbox);
    cs := ReadAll(reader);
  }

  // ---- stream ids ----

  /** The k-th id handed out by the two counters, which step by two and wrap at 16 bits. */
  function CentralId(k: nat): u16 {
    (2 * k) % 0x1_0000
  }

  function PeripheralId(k: nat): u16 {
    (2 * k + 1) % 0x1_0000
  }

  /** The two ends never choose the same id, and one end repeats an id exactly after a
      multiple of 32768 streams. */
  lemma StreamIdsCollide(j: nat, k: nat)
    ensures CentralId(j) != PeripheralId(k)
    ensures CentralId(j) == CentralId(k) <==> (j - k) % 0x8000 == 0
    ensures PeripheralId(j) == PeripheralId(k) <==> (j - k) % 0x8000 == 0
  {
    IdsParity(j);
    IdsParity(k);
    SameIdWhen(2 * j, 2 * k);
    SameIdWhen(2 * j + 1, 2 * k + 1);
    HalfDistance(j - k);
    assert 2 * j - 2 * k == 2 * (j - k) == (2 * j + 1) - (2 * k + 1);
  }

  lemma IdsParity(k: nat)
    ensures CentralId(k) % 2 == 0 && PeripheralId(k) % 2 == 1
  {
  }

  lemma SameIdWhen(a: nat, b: nat)
    ensures a % 0x1_0000 == b % 0x1_0000 <==> (a - b) % 0x1_0000 == 0
  {
  }

  lemma HalfDistance(d: int)
    ensures (2 * d) % 0x1_0000 == 0 <==> d % 0x8000 == 0
  {
  }
}
