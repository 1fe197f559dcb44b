/** Replicating a topic over UDP: what the sender's messages become at the receiver, and how often its
    subscribers are notified. */
module Replication {
  import opened Cursors
  import opened Defragmentator
  import opened MemoryPool
  import opened Options
  import opened Reassembly
  import opened Ring
  import opened RoundTrip
  import opened UdpFrames

  /** One message, when it was sent, and the datagrams that arrive before the next one is sent. */
  datatype Delivery = Delivery(message: Message, created: nat, arrivals: seq<Datagram>)

  predicate Several(v: Delivery, payload: nat)
    requires payload > 0
  {
    ChunkCount(|v.message.bytes|, payload) >= 2
  }

  /** What the send loop sends of the message. */
  function Sent(v: Delivery, payload: nat): seq<Datagram>
    requires payload > 0
  {
    FirstFragments(v.message, v.created, payload, ChunkCount(|v.message.bytes|, payload))
  }

  /** What the network may make of `sent`: any order, any duplicates, and between them late fragments of
      messages created no later than `time`; but no loss. */
  predicate Shuffled(sent: seq<Datagram>, ds: seq<Datagram>, time: nat) {
    (forall d | d in ds :: d in sent || Late(d, time)) && (forall d | d in sent :: d in ds)
  }

  /** Copies of one datagram among late ones of others. */
  predicate CopiesOf(ds: seq<Datagram>, d: Datagram, time: nat) {
    forall x | x in ds :: x == d || Late(x, time)
  }

  /** A message of several chunks arrives shuffled.  A message of one datagram arrives any number of times,
      among late fragments of others. */
  ghost predicate Arrives(time: nat, poolSize: nat, payload: nat, v: Delivery)
    requires payload > 0
  {
    && 1 <= |v.message.bytes| <= poolSize && |v.message.bytes| < SIZES && v.message.kind < KINDS
    && ChunkCount(|v.message.bytes|, payload) <= SEQUENCES
    && if Several(v, payload) then v.created > time && Shuffled(Sent(v, payload), v.arrivals, time)
       else CopiesOf(v.arrivals, Whole(v, payload), time)
  }

  /** The only datagram of a message of one chunk. */
  function Whole(v: Delivery, payload: nat): Datagram
    requires payload > 0
  {
    Fragment(v.message, v.created, payload, 0)
  }

  /** How often `d` arrives. */
  function Copies(ds: seq<Datagram>, d: Datagram): nat
    decreases |ds|
  {
    if ds == [] then 0 else Copies(ds[..|ds| - 1], d) + if ds[|ds| - 1] == d then 1 else 0
  }

  function Repeat(m: Message, n: nat): (r: seq<Message>)
    ensures |r| == n
  {
    if n == 0 then [] else Repeat(m, n - 1) + [m]
  }

  /** What one delivery adds to the replica: a message of several chunks once, a message of one datagram as
      often as it arrives. */
  function Echo(v: Delivery, payload: nat): seq<Message>
    requires payload > 0
  {
    if Several(v, payload) then [v.message] else Repeat(v.message, Copies(v.arrivals, Whole(v, payload)))
  }

  function Echoes(vs: seq<Delivery>, payload: nat): seq<Message>
    requires payload > 0
    decreases |vs|
  {
    if vs == [] then [] else Echoes(vs[..|vs| - 1], payload) + Echo(vs[|vs| - 1], payload)
  }

  /** The source's messages. */
  function Source(vs: seq<Delivery>): (r: seq<Message>)
    ensures |r| == |vs| && forall i | 0 <= i < |vs| :: r[i] == vs[i].message
    decreases |vs|
  {
    if vs == [] then [] else Source(vs[..|vs| - 1]) + [vs[|vs| - 1].message]
  }

  /** When the last message of several chunks was created, starting from `time`. */
  function LastCreated(time: nat, payload: nat, vs: seq<Delivery>): nat
    requires payload > 0
    decreases |vs|
  {
    if vs == [] then time
    else
      var v := vs[|vs| - 1];
      if Several(v, payload) then v.created else LastCreated(time, payload, vs[..|vs| - 1])
  }

  /** What is asked of sender and network: every message fits, the creation times of the messages of
      several chunks increase from `time` on, and each arrives before the next is sent. */
  ghost predicate AllArrive(time: nat, poolSize: nat, payload: nat, vs: seq<Delivery>)
    requires payload > 0
    decreases |vs|
  {
    vs == []
    || var before := vs[..|vs| - 1];
       AllArrive(time, poolSize, payload, before)
       && Arrives(LastCreated(time, payload, before), poolSize, payload, vs[|vs| - 1])
  }

  /** Reordering and duplicating what the send loop sent gives arrivals the round trip is about. */
  lemma SentFragmentsArrive(v: Delivery, payload: nat, time: nat)
    requires payload > 0 && Shuffled(Sent(v, payload), v.arrivals, time)
    ensures Arrivals(v.arrivals, v.message, v.created, payload, time)
    ensures Covers(v.arrivals, v.message, v.created, payload)
  {
    SentIsArrival(v.message, v.created, payload, time);
  }

  // ---- histories ------------------------------------------------------------------------------

  /** A message as a reader of the replica sees it. */
  function MessageOf(p: Published): Message {
    Message(p.entry.kind, p.payload)
  }

  /** `h'` continues `h` with exactly these messages, in this order. */
  ghost predicate Replicates(h': seq<Published>, h: seq<Published>, ms: seq<Message>) {
    && |h'| == |h| + |ms| && h'[..|h|] == h
    && forall i | 0 <= i < |ms| :: MessageOf(h'[|h| + i]) == ms[i]
  }

  lemma OneReplicated(h': seq<Published>, h: seq<Published>, m: Message)
    requires Delivered(h', h, m) && m.kind < KINDS
    ensures Replicates(h', h, [m])
  {
  }

  lemma ReplicatesConcat(
    h: seq<Published>, h1: seq<Published>, h': seq<Published>, a: seq<Message>, b: seq<Message>)
    requires Replicates(h1, h, a) && Replicates(h', h1, b)
    ensures Replicates(h', h, a + b)
  {
    assert h'[..|h|] == h'[..|h1|][..|h|];
    forall i | 0 <= i < |a + b| ensures MessageOf(h'[|h| + i]) == (a + b)[i] {
      if i < |a| {
        assert h'[|h| + i] == h'[..|h1|][|h| + i];
      } else {
        assert MessageOf(h'[|h1| + (i - |a|)]) == b[i - |a|];
      }
    }
  }

  /** What continues a history is determined. */
  lemma ReplicatesOne(h': seq<Published>, h: seq<Published>, a: seq<Message>, b: seq<Message>)
    requires Replicates(h', h, a) && Replicates(h', h, b)
    ensures a == b
  {
    forall i | 0 <= i < |a| ensures a[i] == b[i] {
      assert MessageOf(h'[|h| + i]) == a[i];
    }
  }

  // ---- one delivery ---------------------------------------------------------------------------

  /** Every call of the run stays in the pool and returns. */
  predicate Smooth(r: Receiver, payload: nat, ds: seq<Datagram>)
    requires payload > 0
  {
    AllFit(r, payload, ds) && Quiet(r, payload, ds)
  }

  /** The receiver after a run that published these messages and left nothing pending. */
  ghost predicate Grown(r: Receiver, r0: Receiver, ms: seq<Message>) {
    && Idle(r) && |r.buffer.pool.bytes| == |r0.buffer.pool.bytes|
    && Replicates(r.buffer.history, r0.buffer.history, ms)
  }

  /** A message that one datagram holds. */
  predicate Single(m: Message, payload: nat, poolSize: nat)
    requires payload > 0
  {
    ChunkCount(|m.bytes|, payload) == 1 && m.kind < KINDS && 1 <= |m.bytes| <= poolSize && |m.bytes| < SIZES
  }

  lemma WholeArrives(r: Receiver, m: Message, created: nat, payload: nat)
    requires payload > 0 && Idle(r) && Single(m, payload, |r.buffer.pool.bytes|)
    ensures
      var (r', outcome) := Process(r, payload, Fragment(m, created, payload, 0));
      Grown(r', r, [m]) && r'.currentCreated == r.currentCreated && outcome == Returned(true)
    ensures CopyFits(r, payload, Fragment(m, created, payload, 0))
  {
    var d := Fragment(m, created, payload, 0);
    ChunkExists(|m.bytes|, payload, 1);
    assert d.data == m.bytes;
    StepKeepsOneFrame(r, payload, d);
    var (b, scope) := OpenScope(r.buffer, d.header.size, d.header.kind);
    var start := scope.value.span.start;
    assert Bytes(Write(b.pool, start, m.bytes), start, |m.bytes|) == m.bytes;
    OneReplicated(Process(r, payload, d).0.buffer.history, r.buffer.history, m);
  }

  lemma LateOneIgnored(r: Receiver, payload: nat, d: Datagram)
    requires payload > 0 && Idle(r) && Late(d, r.currentCreated)
    ensures Process(r, payload, d) == (r, Returned(false)) && CopyFits(r, payload, d)
  {
  }

  /** One copy more of a message published `n` times. */
  lemma AnotherCopy(r1: Receiver, r: Receiver, m: Message, created: nat, payload: nat, n: nat)
    requires payload > 0 && Single(m, payload, |r.buffer.pool.bytes|) && Grown(r1, r, Repeat(m, n))
    ensures
      var (r', outcome) := Process(r1, payload, Fragment(m, created, payload, 0));
      Grown(r', r, Repeat(m, n + 1)) && r'.currentCreated == r1.currentCreated && outcome == Returned(true)
    ensures CopyFits(r1, payload, Fragment(m, created, payload, 0))
  {
    WholeArrives(r1, m, created, payload);
    ReplicatesConcat(r.buffer.history, r1.buffer.history,
                     Process(r1, payload, Fragment(m, created, payload, 0)).0.buffer.history, Repeat(m, n), [m]);
  }

  /** A message of one datagram is published, and announced, once for every copy of it that arrives. */
  lemma {:induction false} CopiesPublish(r: Receiver, m: Message, created: nat, payload: nat, ds: seq<Datagram>)
    requires payload > 0 && Idle(r) && Single(m, payload, |r.buffer.pool.bytes|)
    requires CopiesOf(ds, Fragment(m, created, payload, 0), r.currentCreated)
    ensures
      var n, r' := Copies(ds, Fragment(m, created, payload, 0)), ProcessAll(r, payload, ds);
      Grown(r', r, Repeat(m, n)) && r'.currentCreated == r.currentCreated && Notifications(r, payload, ds) == n
    decreases |ds|
  {
    if ds != [] {
      var before, d := ds[..|ds| - 1], ds[|ds| - 1];
      assert d in ds;
      CopiesPublish(r, m, created, payload, before);
      var r1 := ProcessAll(r, payload, before);
      if d == Fragment(m, created, payload, 0) {
        AnotherCopy(r1, r, m, created, payload, Copies(before, d));
      } else {
        LateOneIgnored(r1, payload, d);
      }
    }
  }

  lemma {:induction false} CopiesAreSmooth(r: Receiver, m: Message, created: nat, payload: nat, ds: seq<Datagram>)
    requires payload > 0 && Idle(r) && Single(m, payload, |r.buffer.pool.bytes|)
    requires CopiesOf(ds, Fragment(m, created, payload, 0), r.currentCreated)
    ensures Smooth(r, payload, ds)
    decreases |ds|
  {
    if ds != [] {
      var before, d := ds[..|ds| - 1], ds[|ds| - 1];
      assert d in ds;
      CopiesAreSmooth(r, m, created, payload, before);
      CopiesPublish(r, m, created, payload, before);
      var r1 := ProcessAll(r, payload, before);
      if d == Fragment(m, created, payload, 0) {
        WholeArrives(r1, m, created, payload);
      } else {
        LateOneIgnored(r1, payload, d);
      }
    }
  }

  /** So it is published exactly once if and only if exactly one copy arrives. */
  lemma PublishedOnceIffOneCopy(r: Receiver, m: Message, created: nat, payload: nat, ds: seq<Datagram>)
    requires payload > 0 && Idle(r) && Single(m, payload, |r.buffer.pool.bytes|)
    requires CopiesOf(ds, Fragment(m, created, payload, 0), r.currentCreated)
    ensures Replicates(ProcessAll(r, payload, ds).buffer.history, r.buffer.history, [m])
            <==> Copies(ds, Fragment(m, created, payload, 0)) == 1
  {
    CopiesPublish(r, m, created, payload, ds);
    if Copies(ds, Fragment(m, created, payload, 0)) == 1 { assert Repeat(m, 1) == [m]; }
  }

  /** A datagram that arrives twice is two messages of the replica, announced twice. */
  lemma DuplicateIsPublished(r: Receiver, m: Message, created: nat, payload: nat)
    requires payload > 0 && Idle(r) && Single(m, payload, |r.buffer.pool.bytes|)
    ensures
      var d := Fragment(m, created, payload, 0);
      && Replicates(ProcessAll(r, payload, [d, d]).buffer.history, r.buffer.history, [m, m])
      && Notifications(r, payload, [d, d]) == 2
  {
    var d := Fragment(m, created, payload, 0);
    var ds := [d, d];
    assert ds[..1] == [d] && [d][..0] == [];
    assert Copies([], d) == 0 && Copies([d], d) == 1 && Copies(ds, d) == 2;
    assert Repeat(m, 0) == [] && Repeat(m, 1) == [m] && Repeat(m, 2) == [m, m];
    CopiesPublish(r, m, created, payload, ds);
  }

  lemma {:induction false} ReturnsAreQuiet(r: Receiver, payload: nat, ds: seq<Datagram>, created: nat, n: nat)
    requires payload > 0 && OnlyCompletionIsTrue(r, payload, ds, created, n)
    ensures Quiet(r, payload, ds)
    decreases |ds|
  {
    if ds != [] { ReturnsAreQuiet(r, payload, ds[..|ds| - 1], created, n); }
  }

  /** The receiver after one delivery. */
  ghost predicate DeliveredTo(r: Receiver, r0: Receiver, payload: nat, v: Delivery)
    requires payload > 0
  {
    && Grown(r, r0, Echo(v, payload))
    && r.currentCreated == if Several(v, payload) then v.created else r0.currentCreated
  }

  lemma SeveralPublish(r: Receiver, payload: nat, v: Delivery)
    requires payload > 0 && Idle(r) && Several(v, payload)
    requires Arrives(r.currentCreated, |r.buffer.pool.bytes|, payload, v)
    ensures DeliveredTo(ProcessAll(r, payload, v.arrivals), r, payload, v)
  {
    SentFragmentsArrive(v, payload, r.currentCreated);
    FragmentsRoundTrip(r, v.message, v.created, payload, v.arrivals);
    OneReplicated(ProcessAll(r, payload, v.arrivals).buffer.history, r.buffer.history, v.message);
  }

  lemma SeveralAreSmooth(r: Receiver, payload: nat, v: Delivery)
    requires payload > 0 && Idle(r) && Several(v, payload)
    requires Arrives(r.currentCreated, |r.buffer.pool.bytes|, payload, v)
    ensures Smooth(r, payload, v.arrivals)
  {
    SentFragmentsArrive(v, payload, r.currentCreated);
    FragmentsRoundTrip(r, v.message, v.created, payload, v.arrivals);
    ReturnsAreQuiet(r, payload, v.arrivals, v.created, ChunkCount(|v.message.bytes|, payload));
    ArrivalsFit(r, v.message, v.created, payload, v.arrivals);
  }

  lemma NotEmpty(d: Datagram, m: Message, created: nat, payload: nat, time: nat)
    requires payload > 0 && 0 < |m.bytes| < SIZES && (FragmentOf(d, m, created, payload) || Late(d, time))
    ensures d.header.size > 0
  {
  }

  lemma SeveralNotifyOnce(r: Receiver, payload: nat, v: Delivery)
    requires payload > 0 && Idle(r) && Several(v, payload)
    requires Arrives(r.currentCreated, |r.buffer.pool.bytes|, payload, v)
    requires DeliveredTo(ProcessAll(r, payload, v.arrivals), r, payload, v)
    ensures Notifications(r, payload, v.arrivals) == 1
  {
    SentFragmentsArrive(v, payload, r.currentCreated);
    forall d | d in v.arrivals ensures d.header.size > 0 {
      NotEmpty(d, v.message, v.created, payload, r.currentCreated);
    }
    NotifiedPerMessage(r, payload, v.arrivals);
  }

  /** One delivery adds its message, or as many copies of it as arrive; it leaves nothing pending, notifies
      once for each, and no call of it throws or leaves the pool. */
  lemma DeliveryPublishes(r: Receiver, payload: nat, v: Delivery)
    requires payload > 0 && Idle(r)
    requires Arrives(r.currentCreated, |r.buffer.pool.bytes|, payload, v)
    ensures DeliveredTo(ProcessAll(r, payload, v.arrivals), r, payload, v)
    ensures Smooth(r, payload, v.arrivals)
    ensures Notifications(r, payload, v.arrivals) == |Echo(v, payload)|
  {
    if Several(v, payload) {
      SeveralPublish(r, payload, v);
      SeveralAreSmooth(r, payload, v);
      SeveralNotifyOnce(r, payload, v);
    } else {
      ChunkExists(|v.message.bytes|, payload, 0);
      CopiesPublish(r, v.message, v.created, payload, v.arrivals);
      CopiesAreSmooth(r, v.message, v.created, payload, v.arrivals);
    }
  }

  // ---- all deliveries -------------------------------------------------------------------------

  /** Everything that arrives at the receiver's socket. */
  function Flatten(vs: seq<Delivery>): seq<Datagram>
    decreases |vs|
  {
    if vs == [] then [] else Flatten(vs[..|vs| - 1]) + vs[|vs| - 1].arrivals
  }

  /** The receiver after all the datagrams: its history continues with the echoes of the source's
      messages; nothing is pending; there was one notification for each; no call threw or left the pool. */
  ghost predicate Replicated(r: Receiver, payload: nat, vs: seq<Delivery>)
    requires payload > 0
  {
    var r', ds := ProcessAll(r, payload, Flatten(vs)), Flatten(vs);
    && Grown(r', r, Echoes(vs, payload)) && r'.currentCreated == LastCreated(r.currentCreated, payload, vs)
    && Notifications(r, payload, ds) == |Echoes(vs, payload)| && Smooth(r, payload, ds)
  }

  lemma OneMoreDelivery(r: Receiver, payload: nat, vs: seq<Delivery>, v: Delivery)
    requires payload > 0 && Replicated(r, payload, vs)
    requires Arrives(LastCreated(r.currentCreated, payload, vs), |r.buffer.pool.bytes|, payload, v)
    ensures Replicated(r, payload, vs + [v])
  {
    assert (vs + [v])[..|vs|] == vs;
    var r1 := ProcessAll(r, payload, Flatten(vs));
    DeliveryPublishes(r1, payload, v);
    RunsConcat(r, payload, Flatten(vs), v.arrivals);
    ReplicatesConcat(r.buffer.history, r1.buffer.history, ProcessAll(r1, payload, v.arrivals).buffer.history,
                     Echoes(vs, payload), Echo(v, payload));
  }

  /** End to end: whatever messages the source publishes, shuffled and duplicated on the way, the replica is
      the source with each message of one datagram repeated as often as it arrived. */
  lemma {:induction false} ReplicaEchoesSource(r: Receiver, payload: nat, vs: seq<Delivery>)
    requires payload > 0 && Idle(r)
    requires AllArrive(r.currentCreated, |r.buffer.pool.bytes|, payload, vs)
    ensures Replicated(r, payload, vs)
    decreases |vs|
  {
    if vs != [] {
      var before, v := vs[..|vs| - 1], vs[|vs| - 1];
      assert vs == before + [v];
      ReplicaEchoesSource(r, payload, before);
      OneMoreDelivery(r, payload, before, v);
    }
  }

  /** No message is lost. */
  predicate NoneLost(vs: seq<Delivery>, payload: nat)
    requires payload > 0
  {
    forall v | v in vs && !Several(v, payload) :: Copies(v.arrivals, Whole(v, payload)) >= 1
  }

  predicate EachOnce(vs: seq<Delivery>, payload: nat)
    requires payload > 0
  {
    forall v | v in vs && !Several(v, payload) :: Copies(v.arrivals, Whole(v, payload)) == 1
  }

  /** With none lost there are at least as many echoes as messages, and exactly as many only if each message
      of one datagram arrives once; then they are the messages. */
  lemma {:induction false} EchoesCount(vs: seq<Delivery>, payload: nat)
    requires payload > 0 && NoneLost(vs, payload)
    ensures |Echoes(vs, payload)| >= |vs|
    ensures |Echoes(vs, payload)| == |vs| <==> EachOnce(vs, payload)
    ensures EachOnce(vs, payload) ==> Echoes(vs, payload) == Source(vs)
    decreases |vs|
  {
    if vs != [] {
      var before, v := vs[..|vs| - 1], vs[|vs| - 1];
      assert vs == before + [v];
      assert forall u :: u in vs <==> u in before || u == v;
      EchoesCount(before, payload);
      if Copies(v.arrivals, Whole(v, payload)) == 1 { assert Repeat(v.message, 1) == [v.message]; }
    }
  }

  /** With no message lost, the replica equals the source if and only if every message of one datagram
      arrives exactly once. */
  lemma ReplicaEqualsSourceIff(r: Receiver, payload: nat, vs: seq<Delivery>)
    requires payload > 0 && Idle(r) && NoneLost(vs, payload)
    requires AllArrive(r.currentCreated, |r.buffer.pool.bytes|, payload, vs)
    ensures Replicates(ProcessAll(r, payload, Flatten(vs)).buffer.history, r.buffer.history, Source(vs))
            <==> EachOnce(vs, payload)
  {
    ReplicaEchoesSource(r, payload, vs);
    EchoesCount(vs, payload);
    var h', h := ProcessAll(r, payload, Flatten(vs)).buffer.history, r.buffer.history;
    assert Replicates(h', h, Echoes(vs, payload));
    if Replicates(h', h, Source(vs)) { ReplicatesOne(h', h, Source(vs), Echoes(vs, payload)); }
  }

  // ---- the two loops --------------------------------------------------------------------------

  lemma {:induction false} AllSized(time: nat, poolSize: nat, payload: nat, vs: seq<Delivery>)
    requires payload > 0 && AllArrive(time, poolSize, payload, vs)
    ensures forall v | v in vs :: |v.message.bytes| < SIZES
    decreases |vs|
  {
    if vs != [] {
      AllSized(time, poolSize, payload, vs[..|vs| - 1]);
      assert vs == vs[..|vs| - 1] + [vs[|vs| - 1]];
    }
  }

  /** The source's loop over the messages of a topic; `failures[i]` says which sends of message `i` fail. */
  method SendAll(vs: seq<Delivery>, payload: nat, failures: seq<seq<bool>>) returns (sent: seq<seq<Datagram>>)
    requires payload > 0 && |failures| == |vs|
    requires forall v | v in vs :: |v.message.bytes| < SIZES
    ensures |sent| == |vs| && forall i | 0 <= i < |vs| :: sent[i] == Sent(vs[i], payload)
  {
    sent := [];
    for i := 0 to |vs|
      invariant |sent| == i && forall j | 0 <= j < i :: sent[j] == Sent(vs[j], payload)
    {
      var m := vs[i].message;
      assert vs[i] in vs && m.bytes[..|m.bytes| % SIZES] == m.bytes;
      var frames := new UdpFrameIterator(m.bytes, m.kind, vs[i].created, payload);
      var ds, attempts := SendMessage(frames, failures[i]);
      sent := sent + [ds];
    }
  }

  /** After `n` calls, none of which threw, with `notified` notifications made. */
  ghost predicate Running(s: Receiver, r: Receiver, payload: nat, ds: seq<Datagram>, n: nat, notified: nat) {
    && payload > 0 && n <= |ds| && s == ProcessAll(r, payload, ds[..n])
    && notified == Notifications(r, payload, ds[..n]) && Quiet(r, payload, ds[..n])
  }

  /** After `n` calls, the last of which threw. */
  ghost predicate Escaped(s: Receiver, r: Receiver, payload: nat, ds: seq<Datagram>, n: nat, notified: nat) {
    && payload > 0 && 0 < n <= |ds| && s == ProcessAll(r, payload, ds[..n])
    && notified == Notifications(r, payload, ds[..n])
    && Quiet(r, payload, ds[..n - 1]) && Last(r, payload, ds[..n]) == Threw
  }

  /** One round of the receive loop. */
  method Receive(defragmentator: UdpFrameDefragmentator, ghost r: Receiver, datagrams: seq<Datagram>,
                 i: nat, notified: nat)
    returns (outcome: Outcome, notified': nat)
    requires defragmentator.Valid() && defragmentator.buffer.nextIndex + 1 < WORD && i < |datagrams|
    requires AllFit(r, defragmentator.maxPayloadSize, datagrams)
    requires Running(defragmentator.State(), r, defragmentator.maxPayloadSize, datagrams, i, notified)
    modifies defragmentator.footprint
    ensures defragmentator.Valid() && fresh(defragmentator.footprint - old(defragmentator.footprint))
    ensures defragmentator.buffer.nextIndex <= old(defragmentator.buffer.nextIndex) + 1
    ensures if outcome == Threw
            then Escaped(defragmentator.State(), r, defragmentator.maxPayloadSize, datagrams, i + 1, notified')
            else Running(defragmentator.State(), r, defragmentator.maxPayloadSize, datagrams, i + 1, notified')
  {
    NextCall(r, defragmentator.maxPayloadSize, datagrams, i);
    assert datagrams[..i + 1][..i] == datagrams[..i];
    outcome := defragmentator.ProcessFragment(datagrams[i]);
    notified' := if outcome == Returned(true) then notified + 1 else notified;
  }

  /** The first datagram that is refused, given what the ones before it have left open. */
  ghost predicate FirstRefused(r: Receiver, payload: nat, ds: seq<Datagram>, n: nat) {
    && payload > 0 && 0 < n <= |ds| && NoneRefused(r, payload, ds[..n - 1])
    && Refuses(ProcessAll(r, payload, ds[..n - 1]), payload, ds[n - 1])
  }

  lemma EscapedIsRefused(s: Receiver, r: Receiver, payload: nat, ds: seq<Datagram>, n: nat, notified: nat)
    requires OneFrame(r) && Escaped(s, r, payload, ds, n, notified)
    ensures FirstRefused(r, payload, ds, n) && !NoneRefused(r, payload, ds)
  {
    var before := ds[..n - 1];
    assert ds[..n][..n - 1] == before;
    RunKeepsOneFrame(r, payload, before);
    OutcomeOfCall(ProcessAll(r, payload, before), payload, ds[n - 1]);
    QuietIffNoneRefused(r, payload, before);
    QuietIffNoneRefused(r, payload, ds);
    if Quiet(r, payload, ds) { QuietPrefix(r, payload, ds, n); }
  }

  lemma RunningIsNotRefused(s: Receiver, r: Receiver, payload: nat, ds: seq<Datagram>, notified: nat)
    requires OneFrame(r) && Running(s, r, payload, ds, |ds|, notified)
    ensures NoneRefused(r, payload, ds)
  {
    assert ds[..|ds|] == ds;
    QuietIffNoneRefused(r, payload, ds);
  }

  /** The loop catches nothing but errors of the socket, so an exception of `ProcessFragment` leaves it:
      at the first datagram that is refused, and if none is, not at all. */
  method ReceiveLoop(defragmentator: UdpFrameDefragmentator, datagrams: seq<Datagram>)
    returns (handled: nat, notified: nat, escaped: bool)
    requires defragmentator.Valid() && defragmentator.buffer.nextIndex + |datagrams| < WORD
    requires AllFit(defragmentator.State(), defragmentator.maxPayloadSize, datagrams)
    modifies defragmentator.footprint
    ensures
      var s, r, payload := defragmentator.State(), old(defragmentator.State()), defragmentator.maxPayloadSize;
      if escaped then Escaped(s, r, payload, datagrams, handled, notified)
      else Running(s, r, payload, datagrams, |datagrams|, notified)
    ensures
      var r, payload := old(defragmentator.State()), defragmentator.maxPayloadSize;
      if escaped then FirstRefused(r, payload, datagrams, handled) else NoneRefused(r, payload, datagrams)
  {
    handled, notified, escaped := 0, 0, false;
    ghost var r, payload, footprint := defragmentator.State(), defragmentator.maxPayloadSize, defragmentator.footprint;
    while handled < |datagrams|
      invariant handled <= |datagrams| && defragmentator.Valid() && !escaped
      invariant fresh(defragmentator.footprint - footprint)
      invariant Running(defragmentator.State(), r, payload, datagrams, handled, notified)
      invariant defragmentator.buffer.nextIndex + |datagrams| - handled < WORD
    {
      var outcome;
      outcome, notified := Receive(defragmentator, r, datagrams, handled, notified);
      handled := handled + 1;
      if outcome == Threw {
        EscapedIsRefused(defragmentator.State(), r, payload, datagrams, handled, notified);
        return handled, notified, true;
      }
    }
    RunningIsNotRefused(defragmentator.State(), r, payload, datagrams, notified);
  }

  lemma QuietNeverEscapes(s: Receiver, r: Receiver, payload: nat, ds: seq<Datagram>, n: nat, notified: nat)
    requires payload > 0 && Quiet(r, payload, ds)
    ensures !Escaped(s, r, payload, ds, n, notified)
  {
    if 0 < n <= |ds| { QuietPrefix(r, payload, ds, n); }
  }

  /** Both loops around the network: what is asked of it is said of what the source sends.  Then the receive
      loop handles every datagram, is left by no exception, notifies once for every message it publishes, and
      leaves the source's messages, repeated as often as they arrived; with none lost, the source itself if
      and only if every message of one datagram arrived once. */
  method Replicate(vs: seq<Delivery>, failures: seq<seq<bool>>, defragmentator: UdpFrameDefragmentator)
    returns (sent: seq<seq<Datagram>>, notified: nat, escaped: bool)
    requires defragmentator.Valid() && |failures| == |vs|
    requires defragmentator.buffer.nextIndex + |Flatten(vs)| < WORD
    requires Idle(defragmentator.State())
    requires AllArrive(defragmentator.currentFrameCreated, defragmentator.buffer.memory.buffer.Length,
                       defragmentator.maxPayloadSize, vs)
    modifies defragmentator.footprint
    ensures |sent| == |vs| && forall i | 0 <= i < |vs| :: sent[i] == Sent(vs[i], defragmentator.maxPayloadSize)
    ensures !escaped && notified == |Echoes(vs, defragmentator.maxPayloadSize)|
    ensures
      var h', h := defragmentator.State().buffer.history, old(defragmentator.State()).buffer.history;
      var payload := defragmentator.maxPayloadSize;
      && Replicates(h', h, Echoes(vs, payload))
      && (NoneLost(vs, payload) ==> (Replicates(h', h, Source(vs)) <==> EachOnce(vs, payload)))
  {
    ghost var r, payload := defragmentator.State(), defragmentator.maxPayloadSize;
    AllSized(r.currentCreated, |r.buffer.pool.bytes|, payload, vs);
    sent := SendAll(vs, defragmentator.maxPayloadSize, failures);
    ReplicaEchoesSource(r, payload, vs);
    if NoneLost(vs, payload) { ReplicaEqualsSourceIff(r, payload, vs); }
    var handled;
    handled, notified, escaped := ReceiveLoop(defragmentator, Flatten(vs));
    QuietNeverEscapes(defragmentator.State(), r, payload, Flatten(vs), handled, notified);
    assert Flatten(vs)[..|Flatten(vs)|] == Flatten(vs);
  }
}
