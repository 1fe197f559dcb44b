/** Fragmentation and reassembly: the fragments of a message, in any order and with any duplicates, come
    back as that message. */
module RoundTrip {
  import opened BitSet
  import opened Cursors
  import opened Options
  import opened MemoryPool
  import opened Ring
  import opened UdpFrames
  import opened Reassembly

  /** A message of several chunks that fits the pool and a 32-bit size. */
  predicate Fragmented(m: Message, payload: nat, poolSize: nat)
    requires payload > 0
  {
    |m.bytes| <= poolSize && |m.bytes| < SIZES && ChunkCount(|m.bytes|, payload) >= 2
  }

  /** `d` is one of the datagrams the send loop produces for the message. */
  ghost predicate FragmentOf(d: Datagram, m: Message, created: nat, payload: nat)
    requires payload > 0
  {
    exists k: nat :: k < ChunkCount(|m.bytes|, payload) && d == Fragment(m, created, payload, k)
  }

  /** A fragment of a message no newer than the last one opened. */
  predicate Late(d: Datagram, time: nat) {
    d.header.created <= time && d.header.size > |d.data|
  }

  /** Fragments of the message, in any order, any number of times, among late ones of others. */
  ghost predicate Arrivals(ds: seq<Datagram>, m: Message, created: nat, payload: nat, time: nat)
    requires payload > 0
  {
    forall d | d in ds :: FragmentOf(d, m, created, payload) || Late(d, time)
  }

  /** No fragment of the message is lost. */
  ghost predicate Covers(ds: seq<Datagram>, m: Message, created: nat, payload: nat)
    requires payload > 0
  {
    forall k: nat | k < ChunkCount(|m.bytes|, payload) :: Fragment(m, created, payload, k) in ds
  }

  /** The sequence number of a fragment of the message; late fragments have none that counts. */
  function Number(d: Datagram, created: nat): set<nat> {
    if d.header.created == created then {d.header.sequence} else {}
  }

  /** The sequence numbers received for the message. */
  function Got(ds: seq<Datagram>, created: nat): set<nat>
    decreases |ds|
  {
    if ds == [] then {}
    else Got(ds[..|ds| - 1], created) + Number(ds[|ds| - 1], created)
  }

  /** The last arrival is the one that completes the set. */
  predicate Completes(ds: seq<Datagram>, created: nat, n: nat)
    requires ds != []
  {
    Full(Got(ds, created), n) && !Full(Got(ds[..|ds| - 1], created), n)
  }

  lemma {:induction false} GotSequence(ds: seq<Datagram>, created: nat, i: nat)
    requires i < |ds| && ds[i].header.created == created
    ensures ds[i].header.sequence in Got(ds, created)
    decreases |ds|
  {
    if i < |ds| - 1 { GotSequence(ds[..|ds| - 1], created, i); }
  }

  /** Up to 65536 chunks have different sequence numbers, so losing no fragment means getting them all. */
  lemma CoveredIsAll(ds: seq<Datagram>, m: Message, created: nat, payload: nat)
    requires payload > 0 && Covers(ds, m, created, payload) && ChunkCount(|m.bytes|, payload) <= SEQUENCES
    ensures Full(Got(ds, created), ChunkCount(|m.bytes|, payload))
  {
    forall k: nat | k < ChunkCount(|m.bytes|, payload) ensures k in Got(ds, created) {
      assert Fragment(m, created, payload, k) in ds;
      var i :| 0 <= i < |ds| && ds[i] == Fragment(m, created, payload, k);
      GotSequence(ds, created, i);
    }
  }

  // ---- bytes ----------------------------------------------------------------------------------

  /** The bytes of the chunks in `got` stand at their places. */
  ghost predicate Held(bytes: seq<Byte>, start: nat, m: seq<Byte>, payload: nat, got: set<nat>)
    requires payload > 0 && start + |m| <= |bytes|
  {
    forall i | 0 <= i < |m| && i / payload in got :: bytes[start + i] == m[i]
  }

  lemma ChunkOf(i: nat, payload: nat, k: nat)
    requires payload > 0
    ensures i / payload == k <==> k * payload <= i < (k + 1) * payload
  {
    var q := i / payload;
    assert i == q * payload + i % payload;
    assert (k + 1) * payload == k * payload + payload;
    MultiplesApart(payload, k, q);
    MultiplesApart(payload, q, k);
  }

  /** Writing a chunk at its place brings in its bytes and touches no others. */
  lemma ChunkLands(p: Pool, start: nat, m: seq<Byte>, payload: nat, got: set<nat>, k: nat)
    requires payload > 0 && start + |m| <= |p.bytes| && k < ChunkCount(|m|, payload)
    requires Held(p.bytes, start, m, payload, got)
    ensures Held(Write(p, start + k * payload, Chunk(m, payload, k)).bytes, start, m, payload, got + {k})
  {
    ChunkExists(|m|, payload, k);
    ChunksFollow(|m|, payload, k);
    var data := Chunk(m, payload, k);
    var p' := Write(p, start + k * payload, data);
    forall i | 0 <= i < |m| && i / payload in got + {k} ensures p'.bytes[start + i] == m[i] {
      ChunkOf(i, payload, k);
      if k * payload <= i < k * payload + |data| {
        assert p'.bytes[start + i] == data[i - k * payload];
      } else {
        assert p'.bytes[start + i] == p.bytes[start + i];
      }
    }
  }

  /** All chunks together are the message. */
  lemma AllChunksHeld(p: Pool, start: nat, m: seq<Byte>, payload: nat, got: set<nat>)
    requires payload > 0 && start + |m| <= |p.bytes| && Held(p.bytes, start, m, payload, got)
    requires Full(got, ChunkCount(|m|, payload))
    ensures Bytes(p, start, |m|) == m
  {
    forall i | 0 <= i < |m| ensures p.bytes[start + i] == m[i] {
      ChunkExists(|m|, payload, i / payload);
      assert i / payload * payload <= i;
    }
  }

  // ---- one arrival ----------------------------------------------------------------------------

  ghost predicate Idle(r: Receiver) {
    OneFrame(r) && r.current.None? && r.previous.None?
  }

  ghost predicate Pending(r: Receiver, r0: Receiver, m: Message, created: nat, payload: nat, got: set<nat>)
    requires payload > 0
  {
    && OneFrame(r) && r.current.Some? && r.previous.None? && r.currentCreated == created
    && r.buffer.history == r0.buffer.history && |r.buffer.pool.bytes| == |r0.buffer.pool.bytes|
    && var f := r.current.value;
       && f.chunks == ChunkCount(|m.bytes|, payload) && f.received == got
       && f.scope.kind == m.kind % KINDS
       && f.scope.span.start + |m.bytes| <= |r.buffer.pool.bytes|
       && Held(r.buffer.pool.bytes, f.scope.span.start, m.bytes, payload, got)
  }

  /** The message is in the history, byte for byte, and nothing is pending. */
  ghost predicate Received(r: Receiver, r0: Receiver, m: Message, created: nat) {
    && Idle(r) && r.currentCreated == created && |r.buffer.pool.bytes| == |r0.buffer.pool.bytes|
    && Delivered(r.buffer.history, r0.buffer.history, m)
  }

  ghost predicate Delivered(h: seq<Published>, h0: seq<Published>, m: Message) {
    && |h| == |h0| + 1 && h[..|h0|] == h0
    && h[|h0|].payload == m.bytes
    && h[|h0|].entry.size == |m.bytes| && h[|h0|].entry.kind == m.kind % KINDS
  }

  /** The receiver once the sequence numbers `got` have arrived. */
  ghost predicate Assembling(r: Receiver, r0: Receiver, m: Message, created: nat, payload: nat, got: set<nat>)
    requires payload > 0
  {
    if got == {} then r == r0
    else if Full(got, ChunkCount(|m.bytes|, payload)) then Received(r, r0, m, created)
    else Pending(r, r0, m, created, payload, got)
  }

  /** The datagram takes the receiver from `got` to `got'`, and the call returns true when that completes
      the set. */
  ghost predicate Advances(
    r: Receiver, d: Datagram, r0: Receiver, m: Message, created: nat, payload: nat, got: set<nat>, got': set<nat>)
    requires payload > 0
  {
    var (r', outcome) := Process(r, payload, d);
    var n := ChunkCount(|m.bytes|, payload);
    Assembling(r', r0, m, created, payload, got') && outcome == Returned(Full(got', n) && !Full(got, n))
  }

  ghost predicate Setting(r0: Receiver, m: Message, created: nat, payload: nat)
  {
    && payload > 0 && Idle(r0) && created > r0.currentCreated
    && Fragmented(m, payload, |r0.buffer.pool.bytes|)
  }

  lemma FragmentIsPart(m: Message, created: nat, payload: nat, poolSize: nat, k: nat)
    requires payload > 0 && Fragmented(m, payload, poolSize) && k < ChunkCount(|m.bytes|, payload)
    ensures
      var d := Fragment(m, created, payload, k);
      d.header.size == |m.bytes| && |d.data| < d.header.size && k * payload + |d.data| <= |m.bytes|
  {
    ChunkExists(|m.bytes|, payload, 1);
    ChunkExists(|m.bytes|, payload, k);
    ChunksFollow(|m.bytes|, payload, k);
  }

  /** The first fragment opens the frame. */
  lemma FirstStep(r0: Receiver, m: Message, created: nat, payload: nat, k: nat)
    requires Setting(r0, m, created, payload)
    requires k < ChunkCount(|m.bytes|, payload) <= SEQUENCES
    ensures
      var d := Fragment(m, created, payload, k);
      var (b, scope) := OpenScope(r0.buffer, |m.bytes|, m.kind % KINDS);
      && scope.Some?
      && Process(r0, payload, d)
         == (r0.(buffer := FillScope(b, scope.value, k * payload, d.data),
                 current := Some(Frame(scope.value, {k}, ChunkCount(|m.bytes|, payload), created, 1)),
                 currentCreated := created),
             Returned(false))
  {
    FragmentIsPart(m, created, payload, |r0.buffer.pool.bytes|, k);
    var d, n := Fragment(m, created, payload, k), ChunkCount(|m.bytes|, payload);
    var (b, scope) := OpenScope(r0.buffer, |m.bytes|, m.kind % KINDS);
    assert Process(r0, payload, d) == StartFrame(r0, payload, d)
        == OpenFrame(r0.(buffer := b), scope.value, payload, d);
    assert Mark(Frame(scope.value, {}, n, 0, 0), d.header) == Frame(scope.value, {k}, n, created, 1) by {
      assert {} + {k} == {k};
    }
  }

  lemma FirstArrives(r0: Receiver, m: Message, created: nat, payload: nat, k: nat)
    requires Setting(r0, m, created, payload)
    requires k < ChunkCount(|m.bytes|, payload) <= SEQUENCES
    ensures
      var (r, outcome) := Process(r0, payload, Fragment(m, created, payload, k));
      Pending(r, r0, m, created, payload, {k}) && outcome == Returned(false)
  {
    var (b, scope) := OpenScope(r0.buffer, |m.bytes|, m.kind % KINDS);
    assert OneFrame(Process(r0, payload, Fragment(m, created, payload, k)).0) by {
      StepKeepsOneFrame(r0, payload, Fragment(m, created, payload, k));
    }
    FirstStep(r0, m, created, payload, k);
    ChunkLands(b.pool, scope.value.span.start, m.bytes, payload, {}, k);
    assert {} + {k} == {k};
  }

  /** A fragment that is still missing goes to its place; the last one commits and publishes. */
  lemma NextStep(r: Receiver, r0: Receiver, m: Message, created: nat, payload: nat, got: set<nat>, k: nat)
    requires Setting(r0, m, created, payload)
    requires k < ChunkCount(|m.bytes|, payload) <= SEQUENCES
    requires Pending(r, r0, m, created, payload, got) && k !in got
    ensures
      var d, f := Fragment(m, created, payload, k), r.current.value;
      var b, f1 := FillScope(r.buffer, f.scope, k * payload, d.data), Mark(f, d.header);
      Process(r, payload, d)
      == if Full(got + {k}, ChunkCount(|m.bytes|, payload))
         then (r.(buffer := CloseScope(CommitBuffer(b, f.scope, |m.bytes|), CommitScope(f.scope, |m.bytes|)),
                  current := None), Returned(true))
         else (r.(buffer := b, current := Some(f1)), Returned(false))
  {
    FragmentIsPart(m, created, payload, |r0.buffer.pool.bytes|, k);
  }

  /** The frame with one chunk more, still incomplete. */
  lemma ChunkIsPending(
    r: Receiver, r0: Receiver, m: Message, created: nat, payload: nat, got: set<nat>, k: nat, r': Receiver)
    requires payload > 0 && |m.bytes| <= |r0.buffer.pool.bytes| && k < ChunkCount(|m.bytes|, payload)
    requires Pending(r, r0, m, created, payload, got) && OneFrame(r')
    requires
      var d, f := Fragment(m, created, payload, k), r.current.value;
      d.header.sequence == k
      && r' == r.(buffer := FillScope(r.buffer, f.scope, k * payload, d.data), current := Some(Mark(f, d.header)))
    ensures Pending(r', r0, m, created, payload, got + {k})
  {
    ChunkLands(r.buffer.pool, r.current.value.scope.span.start, m.bytes, payload, got, k);
  }

  lemma AnotherArrives(r: Receiver, r0: Receiver, m: Message, created: nat, payload: nat, got: set<nat>, k: nat)
    requires Setting(r0, m, created, payload)
    requires k < ChunkCount(|m.bytes|, payload) <= SEQUENCES
    requires Pending(r, r0, m, created, payload, got) && k !in got
    requires !Full(got + {k}, ChunkCount(|m.bytes|, payload))
    ensures
      var (r', outcome) := Process(r, payload, Fragment(m, created, payload, k));
      outcome == Returned(false) && Pending(r', r0, m, created, payload, got + {k})
  {
    var d := Fragment(m, created, payload, k);
    assert OneFrame(Process(r, payload, d).0) by { StepKeepsOneFrame(r, payload, d); }
    NextStep(r, r0, m, created, payload, got, k);
    ChunkIsPending(r, r0, m, created, payload, got, k, Process(r, payload, d).0);
  }

  /** The last chunk in its place, committed and published. */
  lemma LastChunkIsReceived(
    r: Receiver, r0: Receiver, m: Message, created: nat, payload: nat, got: set<nat>, k: nat, r': Receiver)
    requires payload > 0 && 0 < |m.bytes| <= |r0.buffer.pool.bytes| && k < ChunkCount(|m.bytes|, payload)
    requires Pending(r, r0, m, created, payload, got) && Full(got + {k}, ChunkCount(|m.bytes|, payload))
    requires OneFrame(r')
    requires
      var d, f := Fragment(m, created, payload, k), r.current.value;
      var b := FillScope(r.buffer, f.scope, k * payload, d.data);
      r' == r.(buffer := CloseScope(CommitBuffer(b, f.scope, |m.bytes|), CommitScope(f.scope, |m.bytes|)),
               current := None)
    ensures Received(r', r0, m, created)
  {
    var d, f := Fragment(m, created, payload, k), r.current.value;
    ChunkLands(r.buffer.pool, f.scope.span.start, m.bytes, payload, got, k);
    AllChunksHeld(FillScope(r.buffer, f.scope, k * payload, d.data).pool,
                  f.scope.span.start, m.bytes, payload, got + {k});
  }

  lemma LastOneArrives(r: Receiver, r0: Receiver, m: Message, created: nat, payload: nat, got: set<nat>, k: nat)
    requires Setting(r0, m, created, payload)
    requires k < ChunkCount(|m.bytes|, payload) <= SEQUENCES
    requires Pending(r, r0, m, created, payload, got) && k !in got
    requires Full(got + {k}, ChunkCount(|m.bytes|, payload))
    ensures
      var (r', outcome) := Process(r, payload, Fragment(m, created, payload, k));
      outcome == Returned(true) && Received(r', r0, m, created)
  {
    var d := Fragment(m, created, payload, k);
    assert OneFrame(Process(r, payload, d).0) by { StepKeepsOneFrame(r, payload, d); }
    NextStep(r, r0, m, created, payload, got, k);
    ChunkExists(|m.bytes|, payload, 0);
    LastChunkIsReceived(r, r0, m, created, payload, got, k, Process(r, payload, d).0);
  }

  lemma DuplicateArrives(r: Receiver, r0: Receiver, m: Message, created: nat, payload: nat, got: set<nat>, k: nat)
    requires Setting(r0, m, created, payload)
    requires k < ChunkCount(|m.bytes|, payload) <= SEQUENCES
    requires Received(r, r0, m, created) || (Pending(r, r0, m, created, payload, got) && k in got)
    ensures Process(r, payload, Fragment(m, created, payload, k)) == (r, Returned(false))
  {
    FragmentIsPart(m, created, payload, |r0.buffer.pool.bytes|, k);
    if Received(r, r0, m, created) {
    } else {
      assert r.current.value.received == got;
    }
  }

  lemma OneIsNotAll(got: set<nat>, k: nat, n: nat)
    requires n >= 2 && got <= {k}
    ensures !Full(got, n)
  {
    var other := if k == 0 then 1 else 0;
    assert other !in got;
  }

  /** A fragment of the message: it is counted once, and completing the set publishes. */
  lemma OwnArrives(r: Receiver, r0: Receiver, m: Message, created: nat, payload: nat, got: set<nat>, k: nat)
    requires Setting(r0, m, created, payload)
    requires k < ChunkCount(|m.bytes|, payload) <= SEQUENCES
    requires Assembling(r, r0, m, created, payload, got)
    ensures Advances(r, Fragment(m, created, payload, k), r0, m, created, payload, got, got + {k})
  {
    if got == {} {
      FirstArrives(r0, m, created, payload, k);
      assert got + {k} == {k};
      OneIsNotAll(got, k, ChunkCount(|m.bytes|, payload));
      OneIsNotAll({k}, k, ChunkCount(|m.bytes|, payload));
    } else if k in got || Full(got, ChunkCount(|m.bytes|, payload)) {
      DuplicateArrives(r, r0, m, created, payload, got, k);
      assert got + {k} == got;
    } else {
      assert got + {k} != {};
      if Full(got + {k}, ChunkCount(|m.bytes|, payload)) {
        LastOneArrives(r, r0, m, created, payload, got, k);
      } else {
        AnotherArrives(r, r0, m, created, payload, got, k);
      }
    }
  }

  /** A late fragment changes nothing that matters. */
  lemma LateArrives(r: Receiver, r0: Receiver, m: Message, created: nat, payload: nat, got: set<nat>, d: Datagram)
    requires Setting(r0, m, created, payload) && Late(d, r0.currentCreated)
    requires Assembling(r, r0, m, created, payload, got)
    ensures Advances(r, d, r0, m, created, payload, got, got)
  {
  }

  lemma NumberOfFragment(m: Message, created: nat, payload: nat, k: nat)
    requires payload > 0 && k < SEQUENCES
    ensures Number(Fragment(m, created, payload, k), created) == {k}
  {
  }

  lemma NumberedChunk(d: Datagram, m: Message, created: nat, payload: nat) returns (k: nat)
    requires payload > 0 && FragmentOf(d, m, created, payload) && ChunkCount(|m.bytes|, payload) <= SEQUENCES
    ensures k < ChunkCount(|m.bytes|, payload) && d == Fragment(m, created, payload, k)
    ensures Number(d, created) == {k}
  {
    k :| k < ChunkCount(|m.bytes|, payload) && d == Fragment(m, created, payload, k);
    NumberOfFragment(m, created, payload, k);
  }

  lemma OneArrives(r: Receiver, r0: Receiver, m: Message, created: nat, payload: nat, got: set<nat>, d: Datagram)
    requires Setting(r0, m, created, payload) && ChunkCount(|m.bytes|, payload) <= SEQUENCES
    requires FragmentOf(d, m, created, payload) || Late(d, r0.currentCreated)
    requires Assembling(r, r0, m, created, payload, got)
    ensures Advances(r, d, r0, m, created, payload, got, got + Number(d, created))
  {
    if d.header.created == created {
      var k := NumberedChunk(d, m, created, payload);
      OwnArrives(r, r0, m, created, payload, got, k);
    } else {
      assert got + Number(d, created) == got;
      LateArrives(r, r0, m, created, payload, got, d);
    }
  }

  // ---- whole runs -----------------------------------------------------------------------------

  lemma {:induction false} MessageAssembles(r0: Receiver, m: Message, created: nat, payload: nat, ds: seq<Datagram>)
    requires Setting(r0, m, created, payload) && ChunkCount(|m.bytes|, payload) <= SEQUENCES
    requires Arrivals(ds, m, created, payload, r0.currentCreated)
    ensures Assembling(ProcessAll(r0, payload, ds), r0, m, created, payload, Got(ds, created))
    ensures ds != [] ==>
              Last(r0, payload, ds) == Returned(Completes(ds, created, ChunkCount(|m.bytes|, payload)))
    decreases |ds|
  {
    if ds != [] {
      var before, d := ds[..|ds| - 1], ds[|ds| - 1];
      assert d in ds;
      MessageAssembles(r0, m, created, payload, before);
      OneArrives(ProcessAll(r0, payload, before), r0, m, created, payload, Got(before, created), d);
    }
  }

  /** Of all the calls of the run, exactly the one that completes the set returns true; none throws. */
  ghost predicate OnlyCompletionIsTrue(r0: Receiver, payload: nat, ds: seq<Datagram>, created: nat, n: nat)
    requires payload > 0
    decreases |ds|
  {
    ds == []
    || (OnlyCompletionIsTrue(r0, payload, ds[..|ds| - 1], created, n)
        && Last(r0, payload, ds) == Returned(Completes(ds, created, n)))
  }

  lemma {:induction false} TrueOnCompletion(r0: Receiver, m: Message, created: nat, payload: nat, ds: seq<Datagram>)
    requires Setting(r0, m, created, payload) && ChunkCount(|m.bytes|, payload) <= SEQUENCES
    requires Arrivals(ds, m, created, payload, r0.currentCreated)
    ensures OnlyCompletionIsTrue(r0, payload, ds, created, ChunkCount(|m.bytes|, payload))
    decreases |ds|
  {
    MessageAssembles(r0, m, created, payload, ds);
    if ds != [] { TrueOnCompletion(r0, m, created, payload, ds[..|ds| - 1]); }
  }

  /** The round trip.  A receiver with nothing pending, given the fragments of a message in any order,
      with any duplicates and any late ones in between, publishes exactly that message, byte for byte and
      of the same kind, and nothing else; no call throws, and only the call that completes the set
      returns true. */
  lemma {:induction false} FragmentsRoundTrip(
    r0: Receiver, m: Message, created: nat, payload: nat, ds: seq<Datagram>)
    requires Setting(r0, m, created, payload) && ChunkCount(|m.bytes|, payload) <= SEQUENCES
    requires Arrivals(ds, m, created, payload, r0.currentCreated) && Covers(ds, m, created, payload)
    ensures Received(ProcessAll(r0, payload, ds), r0, m, created)
    ensures OnlyCompletionIsTrue(r0, payload, ds, created, ChunkCount(|m.bytes|, payload))
  {
    MessageAssembles(r0, m, created, payload, ds);
    TrueOnCompletion(r0, m, created, payload, ds);
    CoveredIsAll(ds, m, created, payload);
    assert 0 in Got(ds, created);
  }

  // ---- lost fragments -------------------------------------------------------------------------

  /** The exact condition: whatever has arrived of a message, in whatever order and however often, the
      message has been published if and only if every one of its fragments has arrived. */
  lemma {:induction false} PublishedIffComplete(
    r0: Receiver, m: Message, created: nat, payload: nat, ds: seq<Datagram>)
    requires Setting(r0, m, created, payload) && ChunkCount(|m.bytes|, payload) <= SEQUENCES
    requires Arrivals(ds, m, created, payload, r0.currentCreated)
    ensures Received(ProcessAll(r0, payload, ds), r0, m, created)
            <==> Full(Got(ds, created), ChunkCount(|m.bytes|, payload))
    ensures !Received(ProcessAll(r0, payload, ds), r0, m, created)
            <==> ProcessAll(r0, payload, ds).buffer.history == r0.buffer.history
  {
    MessageAssembles(r0, m, created, payload, ds);
    OneIsNotAll({}, 0, ChunkCount(|m.bytes|, payload));
  }

  /** Once any fragment has arrived and another has not, the frame is open and lacks that one. */
  lemma {:induction false} OpenFrameLacks(
    r0: Receiver, m: Message, created: nat, payload: nat, ds: seq<Datagram>, missing: nat)
    requires Setting(r0, m, created, payload) && ChunkCount(|m.bytes|, payload) <= SEQUENCES
    requires Arrivals(ds, m, created, payload, r0.currentCreated)
    requires Got(ds, created) != {} && missing < ChunkCount(|m.bytes|, payload) && missing !in Got(ds, created)
    ensures Lacks(ProcessAll(r0, payload, ds), created, missing)
  {
    MessageAssembles(r0, m, created, payload, ds);
  }

  /** So one fragment lost for good stops the receiver for good: whatever arrives later, as long as it is
      not that fragment, nothing more is published, of this message or any other. */
  lemma {:induction false} LostFragmentStops(
    r0: Receiver, m: Message, created: nat, payload: nat, ds: seq<Datagram>, missing: nat, later: seq<Datagram>)
    requires Setting(r0, m, created, payload) && ChunkCount(|m.bytes|, payload) <= SEQUENCES
    requires Arrivals(ds, m, created, payload, r0.currentCreated)
    requires Got(ds, created) != {} && missing < ChunkCount(|m.bytes|, payload) && missing !in Got(ds, created)
    requires forall d | d in later && d.header.size != |d.data| ::
               d.header.created != created || d.header.sequence != missing
    ensures ProcessAll(ProcessAll(r0, payload, ds), payload, later).buffer.history == r0.buffer.history
  {
    OpenFrameLacks(r0, m, created, payload, ds, missing);
    LostFragmentBlocks(ProcessAll(r0, payload, ds), payload, later, created, missing);
    PublishedIffComplete(r0, m, created, payload, ds);
  }

  /** The condition is met in a run as short as one fragment of any message of several chunks. */
  lemma OneFragmentLacks(r0: Receiver, m: Message, created: nat, payload: nat, k: nat, missing: nat)
    requires Setting(r0, m, created, payload)
    requires k < ChunkCount(|m.bytes|, payload) <= SEQUENCES
    requires missing < ChunkCount(|m.bytes|, payload) && missing != k
    ensures Lacks(Process(r0, payload, Fragment(m, created, payload, k)).0, created, missing)
  {
    FirstArrives(r0, m, created, payload, k);
  }

  lemma OwnFits(r: Receiver, r0: Receiver, m: Message, created: nat, payload: nat, got: set<nat>, k: nat)
    requires Setting(r0, m, created, payload)
    requires k < ChunkCount(|m.bytes|, payload) <= SEQUENCES
    requires Assembling(r, r0, m, created, payload, got)
    ensures CopyFits(r, payload, Fragment(m, created, payload, k))
  {
    FragmentIsPart(m, created, payload, |r0.buffer.pool.bytes|, k);
    if got == {} {
    } else if Full(got, ChunkCount(|m.bytes|, payload)) {
    } else {
      assert Pending(r, r0, m, created, payload, got);
    }
  }

  lemma ArrivalFits(r: Receiver, r0: Receiver, m: Message, created: nat, payload: nat, got: set<nat>, d: Datagram)
    requires Setting(r0, m, created, payload) && ChunkCount(|m.bytes|, payload) <= SEQUENCES
    requires FragmentOf(d, m, created, payload) || Late(d, r0.currentCreated)
    requires Assembling(r, r0, m, created, payload, got)
    ensures CopyFits(r, payload, d)
  {
    if FragmentOf(d, m, created, payload) {
      var k: nat :| k < ChunkCount(|m.bytes|, payload) && d == Fragment(m, created, payload, k);
      OwnFits(r, r0, m, created, payload, got, k);
    }
  }

  /** No copy made on the way leaves the pool. */
  lemma {:induction false} ArrivalsFit(r0: Receiver, m: Message, created: nat, payload: nat, ds: seq<Datagram>)
    requires Setting(r0, m, created, payload) && ChunkCount(|m.bytes|, payload) <= SEQUENCES
    requires Arrivals(ds, m, created, payload, r0.currentCreated)
    ensures AllFit(r0, payload, ds)
    decreases |ds|
  {
    if ds != [] {
      var before := ds[..|ds| - 1];
      assert ds[|ds| - 1] in ds;
      ArrivalsFit(r0, m, created, payload, before);
      MessageAssembles(r0, m, created, payload, before);
      ArrivalFits(ProcessAll(r0, payload, before), r0, m, created, payload, Got(before, created), ds[|ds| - 1]);
    }
  }

  // ---- messages with too many chunks ----------------------------------------------------------

  /** A frame that waits for sequence numbers its 16 bits cannot carry. */
  ghost predicate Stuck(r: Receiver, r0: Receiver, created: nat) {
    || r == r0
    || (&& r.current.Some? && r.previous.None? && r.currentCreated == created
        && r.buffer.history == r0.buffer.history
        && r.current.value.chunks > SEQUENCES
        && SEQUENCES !in r.current.value.received)
  }

  lemma StuckStays(r: Receiver, r0: Receiver, m: Message, created: nat, payload: nat, d: Datagram)
    requires Setting(r0, m, created, payload) && ChunkCount(|m.bytes|, payload) > SEQUENCES
    requires FragmentOf(d, m, created, payload) || Late(d, r0.currentCreated)
    requires Stuck(r, r0, created)
    ensures Stuck(Process(r, payload, d).0, r0, created)
  {
    if FragmentOf(d, m, created, payload) {
      var k: nat :| k < ChunkCount(|m.bytes|, payload) && d == Fragment(m, created, payload, k);
      FragmentIsPart(m, created, payload, |r0.buffer.pool.bytes|, k);
    }
  }

  lemma {:induction false} TooManyChunksStick(
    r0: Receiver, m: Message, created: nat, payload: nat, ds: seq<Datagram>)
    requires Setting(r0, m, created, payload) && ChunkCount(|m.bytes|, payload) > SEQUENCES
    requires Arrivals(ds, m, created, payload, r0.currentCreated)
    ensures Stuck(ProcessAll(r0, payload, ds), r0, created)
    decreases |ds|
  {
    if ds != [] {
      var before := ds[..|ds| - 1];
      assert ds[|ds| - 1] in ds;
      TooManyChunksStick(r0, m, created, payload, before);
      StuckStays(ProcessAll(r0, payload, before), r0, m, created, payload, ds[|ds| - 1]);
    }
  }

  /** With no fragment lost, a message is published exactly when its chunks can be numbered in 16 bits:
      beyond that the numbers wrap around and the frame never completes. */
  lemma {:induction false} PublishedIffNumbered(r0: Receiver, m: Message, created: nat, payload: nat, ds: seq<Datagram>)
    requires Setting(r0, m, created, payload)
    requires Arrivals(ds, m, created, payload, r0.currentCreated) && Covers(ds, m, created, payload)
    ensures Received(ProcessAll(r0, payload, ds), r0, m, created) <==> ChunkCount(|m.bytes|, payload) <= SEQUENCES
    ensures ChunkCount(|m.bytes|, payload) > SEQUENCES ==>
              ProcessAll(r0, payload, ds).buffer.history == r0.buffer.history
  {
    if ChunkCount(|m.bytes|, payload) <= SEQUENCES {
      FragmentsRoundTrip(r0, m, created, payload, ds);
    } else {
      TooManyChunksStick(r0, m, created, payload, ds);
    }
  }

  /** What the send loop sends, without loss, reordering or duplicates, is an arrival of the message. */
  lemma SentIsArrival(m: Message, created: nat, payload: nat, time: nat)
    requires payload > 0
    ensures
      var sent := FirstFragments(m, created, payload, ChunkCount(|m.bytes|, payload));
      Arrivals(sent, m, created, payload, time) && Covers(sent, m, created, payload)
  {
    var n := ChunkCount(|m.bytes|, payload);
    var sent := FirstFragments(m, created, payload, n);
    forall d | d in sent ensures FragmentOf(d, m, created, payload) {
      var k :| 0 <= k < n && sent[k] == d;
      assert d == Fragment(m, created, payload, k);
    }
    forall k: nat | k < n ensures Fragment(m, created, payload, k) in sent { assert sent[k] in sent; }
  }

  /** A message of more than 65536 chunks, delivered perfectly, publishes nothing. */
  lemma TooLongPublishesNothing(r0: Receiver, m: Message, created: nat, payload: nat)
    requires Setting(r0, m, created, payload) && ChunkCount(|m.bytes|, payload) > SEQUENCES
    ensures
      var sent := FirstFragments(m, created, payload, ChunkCount(|m.bytes|, payload));
      ProcessAll(r0, payload, sent).buffer.history == r0.buffer.history
  {
    SentIsArrival(m, created, payload, r0.currentCreated);
    PublishedIffNumbered(r0, m, created, payload, FirstFragments(m, created, payload, ChunkCount(|m.bytes|, payload)));
  }

  /** A receiver over an empty buffer whose pool has `size` bytes. */
  function FreshReceiver(size: nat): Receiver {
    Fresh(Buffer(Pool(seq(size, i => 0), 0, false), []))
  }

  lemma FreshSetting(m: Message, created: nat, payload: nat)
    requires payload > 0 && created > 0 && Fragmented(m, payload, |m.bytes|)
    ensures Setting(FreshReceiver(|m.bytes|), m, created, payload)
  {
  }

  /** One byte more than 65536 chunks hold. */
  lemma LongCount(payload: nat)
    requires 0 < payload < SEQUENCES
    ensures SEQUENCES * payload + 1 < SIZES && ChunkCount(SEQUENCES * payload + 1, payload) > SEQUENCES
  {
    ChunkExists(SEQUENCES * payload + 1, payload, SEQUENCES);
  }

  /** There are such messages for every payload a UDP datagram can have: a message of one byte more than
      65536 chunks hold still has a 32-bit size, and a fresh receiver over a pool of that size, given all of
      it, publishes nothing. */
  lemma LongMessageIsLost(m: Message, created: nat, payload: nat)
    requires 0 < payload < SEQUENCES && created > 0 && |m.bytes| == SEQUENCES * payload + 1
    ensures Setting(FreshReceiver(|m.bytes|), m, created, payload)
    ensures
      var sent := FirstFragments(m, created, payload, ChunkCount(|m.bytes|, payload));
      ProcessAll(FreshReceiver(|m.bytes|), payload, sent).buffer.history == []
  {
    LongCount(payload);
    FreshSetting(m, created, payload);
    TooLongPublishesNothing(FreshReceiver(|m.bytes|), m, created, payload);
  }
}
