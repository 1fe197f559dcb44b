/** Cutting a message into datagrams: the frame iterator and the send loop around it. */
module UdpFrames {
  import opened Options
  import opened MemoryPool

  const SIZES := 0x1_0000_0000
  const SEQUENCES := 0x1_0000
  const KINDS := 256
  const HEADER_SIZE := 16

  /** The header, with fields of 64, 32, 16 and 8 bits. */
  datatype Header = Header(created: nat, size: nat, sequence: nat, kind: nat)

  datatype Datagram = Datagram(header: Header, data: seq<Byte>)

  /** A message as its reader at the source sees it. */
  datatype Message = Message(kind: nat, bytes: seq<Byte>)

  function Least(a: nat, b: nat): nat {
    if a < b then a else b
  }

  function ChunkCount(size: nat, payload: nat): nat
    requires payload > 0
  {
    (size + payload - 1) / payload
  }

  /** Where the chunk of a sequence number belongs. */
  function ChunkStart(k: nat, payload: nat): nat {
    k * payload
  }

  /** Chunk `k` starts at `k * payload`. */
  function Chunk(m: seq<Byte>, payload: nat, k: nat): seq<Byte> {
    m[Least(k * payload, |m|)..Least((k + 1) * payload, |m|)]
  }

  /** Datagram `k` of a message: a 16-bit sequence number, an 8-bit kind. */
  function Fragment(m: Message, created: nat, payload: nat, k: nat): Datagram {
    Datagram(Header(created, |m.bytes| % SIZES, k % SEQUENCES, m.kind % KINDS), Chunk(m.bytes, payload, k))
  }

  function FirstFragments(m: Message, created: nat, payload: nat, n: nat): (r: seq<Datagram>)
    ensures |r| == n && forall k | 0 <= k < n :: r[k] == Fragment(m, created, payload, k)
  {
    if n == 0 then [] else FirstFragments(m, created, payload, n - 1) + [Fragment(m, created, payload, n - 1)]
  }

  function Joined(ds: seq<Datagram>): seq<Byte> {
    if ds == [] then [] else Joined(ds[..|ds| - 1]) + ds[|ds| - 1].data
  }

  /** `ChunkCount` rounds up: a chunk exists exactly when it starts inside the message. */
  lemma ChunkExists(size: nat, payload: nat, k: nat)
    requires payload > 0
    ensures k < ChunkCount(size, payload) <==> k * payload < size
  {
    var n := ChunkCount(size, payload);
    assert n * payload <= size + payload - 1 < n * payload + payload by {
      assert size + payload - 1 == n * payload + (size + payload - 1) % payload;
    }
    if k < n {
      assert (n - 1 - k) * payload >= 0;
      assert (n - 1) * payload == n * payload - payload;
    } else {
      assert (k - n) * payload >= 0;
    }
  }

  lemma NextSequence(k: nat)
    ensures (k % SEQUENCES + 1) % SEQUENCES == (k + 1) % SEQUENCES
  {
  }

  /** A chunk ends where the next one starts. */
  lemma ChunksFollow(size: nat, payload: nat, k: nat)
    ensures
      var offset := Least(k * payload, size);
      offset + Least(payload, size - offset) == Least((k + 1) * payload, size)
  {
    assert (k + 1) * payload == k * payload + payload;
  }

  lemma JoinOneMore(ds: seq<Datagram>, d: Datagram)
    ensures Joined(ds + [d]) == Joined(ds) + d.data
  {
    assert (ds + [d])[..|ds|] == ds;
  }

  /** A chunk continues the message where the chunks before it end. */
  lemma ChunkContinues(m: seq<Byte>, payload: nat, k: nat)
    ensures m[..Least(k * payload, |m|)] + Chunk(m, payload, k) == m[..Least((k + 1) * payload, |m|)]
  {
    ChunksFollow(|m|, payload, k);
    var a, b := Least(k * payload, |m|), Least((k + 1) * payload, |m|);
    assert m[..a] + m[a..b] == m[..b];
  }

  /** The chunks in order are the message. */
  lemma {:induction false} FragmentsJoin(m: Message, created: nat, payload: nat, n: nat)
    ensures Joined(FirstFragments(m, created, payload, n)) == m.bytes[..Least(n * payload, |m.bytes|)]
  {
    if n > 0 {
      var k := n - 1;
      FragmentsJoin(m, created, payload, k);
      JoinOneMore(FirstFragments(m, created, payload, k), Fragment(m, created, payload, k));
      ChunkContinues(m.bytes, payload, k);
      assert FirstFragments(m, created, payload, n)
          == FirstFragments(m, created, payload, k) + [Fragment(m, created, payload, k)];
    }
  }

  class UdpFrameIterator {
    const payloadSize: nat
    const buffer: seq<Byte>
    var header: Header
    var offset: nat
    ghost const message: Message
    ghost var count: nat

    ghost predicate Valid()
      reads this
    {
      && payloadSize > 0
      && message.bytes == buffer[..|buffer| % SIZES]
      && header == Header(header.created, |message.bytes|, count % SEQUENCES, message.kind % KINDS)
      && offset == Least(count * payloadSize, |message.bytes|)
    }

    /** The size is kept in 32 bits, so a longer message is cut off. */
    constructor (buffer: seq<Byte>, kind: nat, created: nat, payloadSize: nat)
      requires payloadSize > 0
      ensures Valid() && count == 0 && header.created == created && this.payloadSize == payloadSize
      ensures message == Message(kind, buffer[..|buffer| % SIZES])
    {
      this.payloadSize, this.buffer, offset := payloadSize, buffer, 0;
      header := Header(created, |buffer| % SIZES, 0, kind % KINDS);
      message, count := Message(kind, buffer[..|buffer| % SIZES]), 0;
    }

    predicate CanRead()
      requires Valid()
      reads this
      ensures CanRead() <==> count < ChunkCount(|message.bytes|, payloadSize)
    {
      ChunkExists(|message.bytes|, payloadSize, count);
      offset < header.size
    }

    /** `operator*`; `None` is its exception. */
    method Current() returns (d: Option<Datagram>)
      requires Valid()
      ensures d == if count < ChunkCount(|message.bytes|, payloadSize)
                   then Some(Fragment(message, header.created, payloadSize, count)) else None
    {
      ChunkExists(|message.bytes|, payloadSize, count);
      if offset >= header.size { return None; }
      var chunkSize := Least(payloadSize, header.size - offset);
      ChunksFollow(header.size, payloadSize, count);
      assert buffer[offset..offset + chunkSize] == Chunk(message.bytes, payloadSize, count);
      return Some(Datagram(header, buffer[offset..offset + chunkSize]));
    }

    /** `operator++`; false is its exception. */
    method Advance() returns (ok: bool)
      requires Valid()
      modifies this
      ensures Valid() && header.created == old(header.created)
      ensures ok == (old(count) < ChunkCount(|message.bytes|, payloadSize))
      ensures count == old(count) + if ok then 1 else 0
    {
      ChunkExists(|message.bytes|, payloadSize, count);
      if offset >= header.size { return false; }
      var chunkSize := Least(payloadSize, header.size - offset);
      ChunksFollow(header.size, payloadSize, count);
      NextSequence(count);
      offset := offset + chunkSize;
      header := header.(sequence := (header.sequence + 1) % SEQUENCES);
      count := count + 1;
      return true;
    }
  }

  function Failures(outcomes: seq<bool>, n: nat): nat {
    if n == 0 then 0
    else Failures(outcomes, n - 1) + if n <= |outcomes| && outcomes[n - 1] then 1 else 0
  }

  /** The send loop over one message.  `outcomes[i]` says that send number `i` fails with a system
      error, which is logged and retried; sends beyond the end of the pattern succeed. */
  method SendMessage(frames: UdpFrameIterator, outcomes: seq<bool>)
    returns (sent: seq<Datagram>, attempts: nat)
    requires frames.Valid() && frames.count == 0
    modifies frames
    ensures
      var m, payload := frames.message, frames.payloadSize;
      && sent == FirstFragments(m, old(frames.header.created), payload, ChunkCount(|m.bytes|, payload))
      && Joined(sent) == m.bytes
    ensures attempts == |sent| + Failures(outcomes, attempts)
  {
    sent, attempts := [], 0;
    ghost var m, payload := frames.message, frames.payloadSize;
    ghost var created := frames.header.created;
    while frames.CanRead()
      invariant frames.Valid() && frames.header.created == created
      invariant frames.count == |sent| <= ChunkCount(|m.bytes|, payload)
      invariant sent == FirstFragments(m, created, payload, |sent|)
      invariant attempts == |sent| + Failures(outcomes, attempts)
      decreases (if attempts < |outcomes| then |outcomes| - attempts else 0)
                + ChunkCount(|m.bytes|, payload) - |sent|
    {
      var buffers := frames.Current();
      var failed := attempts < |outcomes| && outcomes[attempts];
      attempts := attempts + 1;
      if !failed {
        sent := sent + [buffers.value];
        var ok := frames.Advance();
      }
    }
    ChunkExists(|m.bytes|, payload, |sent|);
    FragmentsJoin(m, created, payload, |sent|);
  }
}
