/** Putting datagrams back together: what one call of the defragmentator does to its frames and to the
    buffer it publishes into, and what every run of calls keeps. */
module Reassembly {
  import opened BitSet
  import opened Options
  import opened MemoryPool
  import opened Ring
  import opened UdpFrames

  const MAX_NEXT_FRAME_MESSAGES := 16

  /** A message in the making: its open scope, the chunks it has, how many it needs. */
  datatype Frame = Frame(scope: Scope, received: set<nat>, chunks: nat, lastActivity: nat, count: nat)

  /** The defragmentator and the buffer, of which it is the only writer. */
  datatype Receiver = Receiver(
    buffer: Buffer, current: Option<Frame>, previous: Option<Frame>,
    currentCreated: nat, previousCreated: nat, nextMessages: nat)

  /** What a call of `ProcessFragment` ends in. */
  datatype Outcome = Returned(published: bool) | Threw

  function Fresh(b: Buffer): Receiver {
    Receiver(b, None, None, 0, 0, 0)
  }

  predicate Complete(f: Frame) {
    Full(f.received, f.chunks)
  }

  /** Destroying a frame closes its scope. */
  function Drop(b: Buffer, f: Option<Frame>): Buffer {
    if f.Some? then CloseScope(b, f.value.scope) else b
  }

  function Mark(f: Frame, h: Header): Frame {
    f.(received := f.received + {h.sequence}, count := (f.count + 1) % SEQUENCES, lastActivity := h.created)
  }

  /** `processFrameFragment`, up to the commit of a frame that has become complete. */
  function Arrive(b: Buffer, f: Frame, payload: nat, d: Datagram): (Buffer, Frame, Outcome) {
    var h := d.header;
    if h.sequence >= f.chunks then (b, f, Threw)
    else if h.sequence in f.received then (b, f, Returned(false))
    else
      var b1 := FillScope(b, f.scope, ChunkStart(h.sequence, payload), d.data);
      var f1 := Mark(f, h);
      if !Complete(f1) then (b1, f1, Returned(false))
      else if !CanCommit(f1.scope.span, h.size) then (b1, f1, Threw)
      else (CommitBuffer(b1, f1.scope, h.size), f1.(scope := CommitScope(f1.scope, h.size)), Returned(true))
  }

  /** A datagram that holds its whole message. */
  function TakeWhole(r: Receiver, d: Datagram): (Receiver, Outcome) {
    var h := d.header;
    var (b, scope) := OpenScope(r.buffer, h.size, h.kind);
    if scope.None? then (r, Threw)
    else
      var b1 := CommitBuffer(FillScope(b, scope.value, 0, d.data), scope.value, h.size);
      (r.(buffer := CloseScope(b1, CommitScope(scope.value, h.size))), Returned(true))
  }

  function TakePrevious(r: Receiver, payload: nat, d: Datagram): (Receiver, Outcome)
    requires r.previous.Some?
  {
    var (b, f, outcome) := Arrive(r.buffer, r.previous.value, payload, d);
    if outcome == Returned(true)
    then (r.(buffer := CloseScope(Drop(b, r.current), f.scope), current := None, previous := None), outcome)
    else (r.(buffer := b, previous := Some(f)), outcome)
  }

  function TakeCurrent(r: Receiver, payload: nat, d: Datagram): (Receiver, Outcome)
    requires r.current.Some?
  {
    var (b, f, outcome) := Arrive(r.buffer, r.current.value, payload, d);
    if outcome == Returned(true) then (r.(buffer := CloseScope(b, f.scope), current := None), outcome)
    else (r.(buffer := b, current := Some(f)), outcome)
  }

  /** `previousFrame_ = std::move(currentFrame_)` and what goes with it. */
  function SetAside(r: Receiver): Receiver {
    if r.current.Some?
    then Receiver(Drop(r.buffer, r.previous), None, r.current, r.currentCreated, r.currentCreated, 1)
    else r
  }

  /** What `initializeNewFrame` does with the scope it has got.  A frame of no chunks throws from the
      constructor of its bit set, and its scope is closed again. */
  function OpenFrame(r: Receiver, scope: Scope, payload: nat, d: Datagram): (Receiver, Outcome)
    requires payload > 0
  {
    var h := d.header;
    var chunks := ChunkCount(h.size, payload);
    if chunks == 0 then (r.(buffer := CloseScope(r.buffer, scope)), Threw)
    else
      var f := Frame(scope, {}, chunks, 0, 0);
      var r1 := r.(buffer := FillScope(r.buffer, scope, ChunkStart(h.sequence, payload), d.data),
                   current := Some(f), currentCreated := h.created);
      if h.sequence >= chunks then (r1, Threw) else (r1.(current := Some(Mark(f, h))), Returned(false))
  }

  /** `initializeNewFrame`.  A pool that is locked or too small throws. */
  function StartFrame(r: Receiver, payload: nat, d: Datagram): (Receiver, Outcome)
    requires payload > 0
  {
    var (b, scope) := OpenScope(r.buffer, d.header.size, d.header.kind);
    if scope.None? then (r, Threw) else OpenFrame(r.(buffer := b), scope.value, payload, d)
  }

  /** A datagram of an older message than the current one. */
  function TakeOld(r: Receiver, d: Datagram): Receiver {
    if r.current.Some? && d.header.created > r.previousCreated then
      var n := (r.nextMessages + 1) % SEQUENCES;
      if n > MAX_NEXT_FRAME_MESSAGES && r.previous.Some?
      then r.(nextMessages := n, buffer := Drop(r.buffer, r.previous), previous := None)
      else r.(nextMessages := n)
    else r
  }

  /** `ProcessFragment`. */
  function Process(r: Receiver, payload: nat, d: Datagram): (Receiver, Outcome)
    requires payload > 0
  {
    if d.header.size == |d.data| then TakeWhole(r, d)
    else if r.previous.Some? && d.header.created == r.previousCreated then TakePrevious(r, payload, d)
    else if r.current.Some? && d.header.created == r.currentCreated then TakeCurrent(r, payload, d)
    else if d.header.created > r.currentCreated then StartFrame(SetAside(r), payload, d)
    else (TakeOld(r, d), Returned(false))
  }

  predicate FitsAt(p: Pool, start: nat, payload: nat, d: Datagram) {
    start + ChunkStart(d.header.sequence, payload) + |d.data| <= |p.bytes|
  }

  /** The copy made by the call stays inside the pool, which the code itself does not check. */
  predicate CopyFits(r: Receiver, payload: nat, d: Datagram) {
    if d.header.size == |d.data| then true
    else if r.previous.Some? && d.header.created == r.previousCreated
    then FitsAt(r.buffer.pool, r.previous.value.scope.span.start, payload, d)
    else if r.current.Some? && d.header.created == r.currentCreated
    then FitsAt(r.buffer.pool, r.current.value.scope.span.start, payload, d)
    else if d.header.created > r.currentCreated then
      var (b, scope) := OpenScope(SetAside(r).buffer, d.header.size, d.header.kind);
      scope.Some? ==> FitsAt(b.pool, scope.value.span.start, payload, d)
    else true
  }

  function ProcessAll(r: Receiver, payload: nat, ds: seq<Datagram>): Receiver
    requires payload > 0
    decreases |ds|
  {
    if ds == [] then r else Process(ProcessAll(r, payload, ds[..|ds| - 1]), payload, ds[|ds| - 1]).0
  }

  /** No call of the run copies beyond the pool. */
  predicate AllFit(r: Receiver, payload: nat, ds: seq<Datagram>)
    requires payload > 0
    decreases |ds|
  {
    ds == []
    || var before := ds[..|ds| - 1];
       AllFit(r, payload, before) && CopyFits(ProcessAll(r, payload, before), payload, ds[|ds| - 1])
  }

  lemma {:induction false} AllFitPrefix(r: Receiver, payload: nat, ds: seq<Datagram>, i: nat)
    requires payload > 0 && AllFit(r, payload, ds) && i <= |ds|
    ensures AllFit(r, payload, ds[..i])
    decreases |ds|
  {
    if i < |ds| {
      AllFitPrefix(r, payload, ds[..|ds| - 1], i);
      assert ds[..|ds| - 1][..i] == ds[..i];
    } else {
      assert ds[..i] == ds;
    }
  }

  /** The outcome of the last call of a run. */
  function Last(r: Receiver, payload: nat, ds: seq<Datagram>): Outcome
    requires payload > 0 && ds != []
  {
    Process(ProcessAll(r, payload, ds[..|ds| - 1]), payload, ds[|ds| - 1]).1
  }

  // ---- what every run keeps -------------------------------------------------------------------

  /** An open frame has the rest of the pool and has committed nothing yet. */
  ghost predicate Holds(f: Frame, p: Pool) {
    var span := f.scope.span;
    span.committed == 0 && span.start == p.offset && span.start + span.size == |p.bytes|
  }

  /** At most one frame is open, and the pool is locked exactly while one is. */
  ghost predicate OneFrame(r: Receiver) {
    && !(r.current.Some? && r.previous.Some?)
    && r.buffer.pool.inUse == (r.current.Some? || r.previous.Some?)
    && r.buffer.pool.offset <= |r.buffer.pool.bytes|
    && (r.current.Some? ==> Holds(r.current.value, r.buffer.pool))
    && (r.previous.Some? ==> Holds(r.previous.value, r.buffer.pool) && r.previousCreated == r.currentCreated)
  }

  /** How the history may move in one call: by one message, and then the call returns true. */
  ghost predicate PublishesOnce(r: Receiver, d: Datagram, r': Receiver, outcome: Outcome) {
    var h, h' := r.buffer.history, r'.buffer.history;
    && (outcome != Returned(true) ==> h' == h)
    && (outcome == Returned(true) && d.header.size == 0 ==> h' == h)
    && (outcome == Returned(true) && d.header.size > 0 ==>
          && |h'| == |h| + 1 && h == h'[..|h|]
          && h'[|h|].entry.size == d.header.size == |h'[|h|].payload|)
  }

  /** What a datagram for an open frame does, up to the commit. */
  lemma ArriveKeepsFrame(b: Buffer, f: Frame, payload: nat, d: Datagram)
    requires Holds(f, b.pool)
    ensures
      var (b', f', outcome) := Arrive(b, f, payload, d);
      && b'.history == b.history && |b'.pool.bytes| == |b.pool.bytes| && b'.pool.inUse == b.pool.inUse
      && f'.chunks == f.chunks
      && (outcome != Returned(true) ==> b'.pool.offset == b.pool.offset && Holds(f', b'.pool))
      && (outcome == Returned(true) ==>
            && f'.scope == f.scope.(span := f.scope.span.(committed := d.header.size))
            && b'.pool.offset == b.pool.offset + d.header.size <= |b.pool.bytes|)
  {
  }

  lemma WholeKeepsOneFrame(r: Receiver, d: Datagram)
    requires OneFrame(r)
    ensures OneFrame(TakeWhole(r, d).0) && PublishesOnce(r, d, TakeWhole(r, d).0, TakeWhole(r, d).1)
    ensures |TakeWhole(r, d).0.buffer.pool.bytes| == |r.buffer.pool.bytes|
  {
  }

  lemma StartKeepsOneFrame(r: Receiver, payload: nat, d: Datagram)
    requires payload > 0 && OneFrame(r) && r.current.None?
    ensures
      var (r', outcome) := StartFrame(r, payload, d);
      OneFrame(r') && PublishesOnce(r, d, r', outcome) && |r'.buffer.pool.bytes| == |r.buffer.pool.bytes|
  {
  }

  /** One call, whatever the datagram. */
  lemma StepKeepsOneFrame(r: Receiver, payload: nat, d: Datagram)
    requires payload > 0 && OneFrame(r)
    ensures OneFrame(Process(r, payload, d).0)
    ensures PublishesOnce(r, d, Process(r, payload, d).0, Process(r, payload, d).1)
    ensures |Process(r, payload, d).0.buffer.pool.bytes| == |r.buffer.pool.bytes|
  {
    if d.header.size == |d.data| {
      WholeKeepsOneFrame(r, d);
    } else if r.previous.Some? && d.header.created == r.previousCreated {
      ArriveKeepsFrame(r.buffer, r.previous.value, payload, d);
    } else if r.current.Some? && d.header.created == r.currentCreated {
      ArriveKeepsFrame(r.buffer, r.current.value, payload, d);
    } else if d.header.created > r.currentCreated {
      StartKeepsOneFrame(SetAside(r), payload, d);
    }
  }

  // ---- what one call does ---------------------------------------------------------------------

  predicate Open(r: Receiver) {
    r.current.Some? || r.previous.Some?
  }

  /** The frame that is open, set aside or not. */
  function TheFrame(r: Receiver): Frame
    requires Open(r)
  {
    if r.current.Some? then r.current.value else r.previous.value
  }

  predicate IsWhole(d: Datagram) {
    d.header.size == |d.data|
  }

  /** A fragment of the frame that is open. */
  predicate OfTheFrame(r: Receiver, d: Datagram) {
    !IsWhole(d) && Open(r) && d.header.created == r.currentCreated
  }

  /** A fragment of a message newer than every frame so far. */
  predicate IsNewer(r: Receiver, d: Datagram) {
    !IsWhole(d) && d.header.created > r.currentCreated
  }

  /** The chunk is the only one the open frame still lacks. */
  predicate IsLast(r: Receiver, d: Datagram)
    requires Open(r)
  {
    var f := TheFrame(r);
    && d.header.sequence < f.chunks && d.header.sequence !in f.received
    && Full(f.received + {d.header.sequence}, f.chunks)
  }

  /** When a call throws.  While a frame is open nothing can be written for any other message: whole datagrams
      and newer fragments are refused.  With none open they are if the message exceeds the pool, and a newer
      fragment also if its message is empty or has no such chunk.  A fragment of the open frame is refused if
      the frame has no such chunk, or if it is the last and the size it states exceeds what the frame holds. */
  predicate Refuses(r: Receiver, payload: nat, d: Datagram)
    requires payload > 0
  {
    if IsWhole(d) then Open(r) || d.header.size > |r.buffer.pool.bytes|
    else if OfTheFrame(r, d) then
      || d.header.sequence >= TheFrame(r).chunks
      || (IsLast(r, d) && d.header.size > |r.buffer.pool.bytes| - TheFrame(r).scope.span.start)
    else if IsNewer(r, d) then
      || Open(r) || d.header.size > |r.buffer.pool.bytes|
      || d.header.sequence >= ChunkCount(d.header.size, payload)
    else false
  }

  /** When a call returns true. */
  predicate Publishes(r: Receiver, payload: nat, d: Datagram)
    requires payload > 0
  {
    !Refuses(r, payload, d) && (IsWhole(d) || (OfTheFrame(r, d) && IsLast(r, d)))
  }

  lemma WholeOutcome(r: Receiver, payload: nat, d: Datagram)
    requires payload > 0 && OneFrame(r) && IsWhole(d)
    ensures Process(r, payload, d).1 == if Refuses(r, payload, d) then Threw else Returned(true)
  {
  }

  lemma FrameOutcome(r: Receiver, payload: nat, d: Datagram)
    requires payload > 0 && OneFrame(r) && OfTheFrame(r, d)
    ensures Process(r, payload, d).1
            == if Refuses(r, payload, d) then Threw else Returned(IsLast(r, d))
  {
  }

  lemma NewerOutcome(r: Receiver, payload: nat, d: Datagram)
    requires payload > 0 && OneFrame(r) && IsNewer(r, d)
    ensures Process(r, payload, d).1 == if Refuses(r, payload, d) then Threw else Returned(false)
  {
    if !Open(r) && d.header.size == 0 { assert ChunkCount(0, payload) == 0; }
  }

  /** What every call answers, whatever the datagram. */
  lemma OutcomeOfCall(r: Receiver, payload: nat, d: Datagram)
    requires payload > 0 && OneFrame(r)
    ensures Process(r, payload, d).1
            == if Refuses(r, payload, d) then Threw else Returned(Publishes(r, payload, d))
  {
    if IsWhole(d) {
      WholeOutcome(r, payload, d);
    } else if OfTheFrame(r, d) {
      FrameOutcome(r, payload, d);
    } else if IsNewer(r, d) {
      NewerOutcome(r, payload, d);
    }
  }

  /** What becomes of the open frame, of the kind of message it makes, and of the pool's bytes.  A whole
      datagram and an old fragment leave the frame alone.  A fragment of the frame adds its chunk, and the
      last one closes it.  A newer fragment leaves an open frame as it is, and with none open opens one for
      its message if that fits, also if it then throws for want of such a chunk. */
  ghost predicate After(r: Receiver, payload: nat, d: Datagram, r': Receiver)
    requires payload > 0
  {
    var h := d.header;
    if OfTheFrame(r, d) && Publishes(r, payload, d) then !Open(r') && r'.currentCreated == r.currentCreated
    else if OfTheFrame(r, d) then
      && Open(r') && r'.currentCreated == r.currentCreated
      && var f, f' := TheFrame(r), TheFrame(r');
         && f'.scope == f.scope && f'.chunks == f.chunks
         && f'.received == f.received + if h.sequence < f.chunks then {h.sequence} else {}
    else if IsNewer(r, d) && !Open(r) && h.size <= |r.buffer.pool.bytes| && ChunkCount(h.size, payload) > 0 then
      && Open(r') && r'.currentCreated == h.created
      && var f', n := TheFrame(r'), ChunkCount(h.size, payload);
         f'.chunks == n && f'.received == (if h.sequence < n then {h.sequence} else {}) && f'.scope.kind == h.kind
    else
      && r'.currentCreated == r.currentCreated && Open(r') == Open(r)
      && (Open(r) ==> TheFrame(r') == TheFrame(r))
      && (!IsWhole(d) ==> r'.buffer.pool.bytes == r.buffer.pool.bytes)
  }

  lemma WholeAfter(r: Receiver, payload: nat, d: Datagram)
    requires payload > 0 && OneFrame(r) && IsWhole(d)
    ensures After(r, payload, d, Process(r, payload, d).0)
  {
  }

  lemma FrameAfter(r: Receiver, payload: nat, d: Datagram)
    requires payload > 0 && OneFrame(r) && OfTheFrame(r, d)
    ensures After(r, payload, d, Process(r, payload, d).0)
  {
    var f, k := TheFrame(r), d.header.sequence;
    assert f.received + {} == f.received;
    if k in f.received { assert f.received + {k} == f.received; }
  }

  lemma NewerAfter(r: Receiver, payload: nat, d: Datagram)
    requires payload > 0 && OneFrame(r) && IsNewer(r, d)
    ensures After(r, payload, d, Process(r, payload, d).0)
  {
    assert {} + {d.header.sequence} == {d.header.sequence};
  }

  lemma StateAfterCall(r: Receiver, payload: nat, d: Datagram)
    requires payload > 0 && OneFrame(r)
    ensures After(r, payload, d, Process(r, payload, d).0)
  {
    if IsWhole(d) {
      WholeAfter(r, payload, d);
    } else if OfTheFrame(r, d) {
      FrameAfter(r, payload, d);
    } else if IsNewer(r, d) {
      NewerAfter(r, payload, d);
    }
  }

  /** The message a call publishes is of the kind its frame, or its datagram, was opened with. */
  lemma PublishedKind(r: Receiver, payload: nat, d: Datagram)
    requires payload > 0 && OneFrame(r) && Publishes(r, payload, d) && d.header.size > 0
    ensures
      var h, h' := r.buffer.history, Process(r, payload, d).0.buffer.history;
      |h'| == |h| + 1 && h'[|h|].entry.kind == if IsWhole(d) then d.header.kind else TheFrame(r).scope.kind
  {
    StepKeepsOneFrame(r, payload, d);
    OutcomeOfCall(r, payload, d);
  }

  /** In every run, exceptions included: at most one of the two frames is open, the pool is locked exactly
      while one is, and so a frame set aside never meets another one to be dropped for. */
  lemma {:induction false} RunKeepsOneFrame(r: Receiver, payload: nat, ds: seq<Datagram>)
    requires payload > 0 && OneFrame(r)
    ensures OneFrame(ProcessAll(r, payload, ds))
    ensures |ProcessAll(r, payload, ds).buffer.pool.bytes| == |r.buffer.pool.bytes|
    decreases |ds|
  {
    if ds != [] {
      RunKeepsOneFrame(r, payload, ds[..|ds| - 1]);
      StepKeepsOneFrame(ProcessAll(r, payload, ds[..|ds| - 1]), payload, ds[|ds| - 1]);
    }
  }

  /** The books of the open frame: it has counted its chunks in 16 bits, each once, and was last active at the
      creation time of its message. */
  ghost predicate Counted(r: Receiver) {
    Open(r) ==>
      var f := TheFrame(r);
      f.count == |f.received| % SEQUENCES && (f.received != {} ==> f.lastActivity == r.currentCreated)
  }

  lemma MarkCounts(f: Frame, h: Header)
    requires f.count == |f.received| % SEQUENCES && h.sequence !in f.received
    ensures Mark(f, h).count == |Mark(f, h).received| % SEQUENCES && Mark(f, h).lastActivity == h.created
  {
    NextSequence(|f.received|);
  }

  lemma StepCounts(r: Receiver, payload: nat, d: Datagram)
    requires payload > 0 && OneFrame(r) && Counted(r)
    ensures Counted(Process(r, payload, d).0)
  {
    if OfTheFrame(r, d) {
      if d.header.sequence !in TheFrame(r).received { MarkCounts(TheFrame(r), d.header); }
    } else if IsNewer(r, d) && !Open(r) {
      assert |{d.header.sequence}| == 1;
    }
  }

  /** In every run, duplicates and exceptions included. */
  lemma {:induction false} RunCounts(r: Receiver, payload: nat, ds: seq<Datagram>)
    requires payload > 0 && OneFrame(r) && Counted(r)
    ensures Counted(ProcessAll(r, payload, ds))
    decreases |ds|
  {
    if ds != [] {
      RunCounts(r, payload, ds[..|ds| - 1]);
      RunKeepsOneFrame(r, payload, ds[..|ds| - 1]);
      StepCounts(ProcessAll(r, payload, ds[..|ds| - 1]), payload, ds[|ds| - 1]);
    }
  }

  /** The creation times of the frames opened during a run: a frame is opened when, and only when, the
      current creation time changes. */
  function Opened(r: Receiver, payload: nat, ds: seq<Datagram>): seq<nat>
    requires payload > 0
    decreases |ds|
  {
    if ds == [] then []
    else
      var before := ds[..|ds| - 1];
      Opened(r, payload, before)
      + if ProcessAll(r, payload, ds).currentCreated != ProcessAll(r, payload, before).currentCreated
        then [ProcessAll(r, payload, ds).currentCreated] else []
  }

  /** The creation times of the frames that were completed and published during a run. */
  function Completed(r: Receiver, payload: nat, ds: seq<Datagram>): seq<nat>
    requires payload > 0
    decreases |ds|
  {
    if ds == [] then []
    else
      var d := ds[|ds| - 1];
      Completed(r, payload, ds[..|ds| - 1])
      + if Last(r, payload, ds) == Returned(true) && d.header.size != |d.data| then [d.header.created] else []
  }

  ghost predicate Increasing(l: seq<nat>) {
    forall i, j | 0 <= i < j < |l| :: l[i] < l[j]
  }

  /** The times opened and completed never pass the current one; while a frame is open, its own time is
      not among the completed. */
  ghost predicate Timely(r: Receiver, start: nat, begun: seq<nat>, completed: seq<nat>) {
    && Increasing(begun) && Increasing(completed)
    && start <= r.currentCreated
    && (forall t | t in begun :: start < t <= r.currentCreated)
    && (forall t | t in completed :: t <= r.currentCreated && t in begun)
    && (r.current.Some? || r.previous.Some? ==>
          r.currentCreated in begun && forall t | t in completed :: t < r.currentCreated)
  }

  lemma Appended(l: seq<nat>, t: nat)
    requires Increasing(l) && forall x | x in l :: x < t
    ensures Increasing(l + [t])
  {
    forall i, j | 0 <= i < j < |l + [t]| ensures (l + [t])[i] < (l + [t])[j] {
      if j == |l| { assert l[i] in l; }
    }
  }

  /** The creation time only moves when a frame opens, and a completion leaves no frame open. */
  lemma StepMovesForward(r: Receiver, payload: nat, d: Datagram)
    requires payload > 0 && OneFrame(r)
    ensures
      var (r', outcome) := Process(r, payload, d);
      && r.currentCreated <= r'.currentCreated
      && (r'.currentCreated != r.currentCreated ==> r'.current.Some? && outcome != Returned(true))
      && (r'.currentCreated == r.currentCreated && (r'.current.Some? || r'.previous.Some?) ==>
            r.current.Some? || r.previous.Some?)
      && (outcome == Returned(true) && d.header.size != |d.data| ==>
            && (r.current.Some? || r.previous.Some?) && d.header.created == r.currentCreated
            && r'.current.None? && r'.previous.None?)
  {
  }

  /** Frames are opened in strictly increasing order of creation, and each of them is published at most
      once, in that order, however many duplicates arrive and however late. */
  lemma {:induction false} FramesPublishedOnce(r: Receiver, payload: nat, ds: seq<Datagram>)
    requires payload > 0 && OneFrame(r) && r.current.None? && r.previous.None?
    ensures Timely(ProcessAll(r, payload, ds), r.currentCreated, Opened(r, payload, ds), Completed(r, payload, ds))
    decreases |ds|
  {
    if ds != [] {
      var before := ds[..|ds| - 1];
      FramesPublishedOnce(r, payload, before);
      RunKeepsOneFrame(r, payload, before);
      var s := ProcessAll(r, payload, before);
      StepMovesForward(s, payload, ds[|ds| - 1]);
      if ProcessAll(r, payload, ds).currentCreated != s.currentCreated {
        Appended(Opened(r, payload, before), ProcessAll(r, payload, ds).currentCreated);
      } else if Completed(r, payload, ds) != Completed(r, payload, before) {
        Appended(Completed(r, payload, before), s.currentCreated);
      }
    }
  }

  // ---- a lost fragment ------------------------------------------------------------------------

  /** The one open frame was created at `time` and lacks chunk `missing`. */
  ghost predicate Lacks(r: Receiver, time: nat, missing: nat) {
    && OneFrame(r) && r.currentCreated == time && (r.current.Some? || r.previous.Some?)
    && var f := if r.current.Some? then r.current.value else r.previous.value;
       missing < f.chunks && missing !in f.received
  }

  lemma StillLacks(r: Receiver, payload: nat, d: Datagram, time: nat, missing: nat)
    requires payload > 0 && Lacks(r, time, missing)
    requires d.header.size != |d.data| ==> d.header.created != time || d.header.sequence != missing
    ensures
      var (r', outcome) := Process(r, payload, d);
      Lacks(r', time, missing) && r'.buffer.history == r.buffer.history && outcome != Returned(true)
  {
    StepKeepsOneFrame(r, payload, d);
  }

  /** While one chunk stays missing nothing is ever published: the open frame keeps the pool, so newer
      messages, of one datagram or many, throw. */
  lemma {:induction false} LostFragmentBlocks(
    r: Receiver, payload: nat, ds: seq<Datagram>, time: nat, missing: nat)
    requires payload > 0 && Lacks(r, time, missing)
    requires forall d | d in ds && d.header.size != |d.data| ::
               d.header.created != time || d.header.sequence != missing
    ensures Lacks(ProcessAll(r, payload, ds), time, missing)
    ensures ProcessAll(r, payload, ds).buffer.history == r.buffer.history
    decreases |ds|
  {
    if ds != [] {
      var before := ds[..|ds| - 1];
      LostFragmentBlocks(r, payload, before, time, missing);
      assert ds[|ds| - 1] in ds;
      StillLacks(ProcessAll(r, payload, before), payload, ds[|ds| - 1], time, missing);
    }
  }

  // ---- notifications --------------------------------------------------------------------------

  /** How many calls of a run return true, which is how often the receive loop notifies. */
  function Notifications(r: Receiver, payload: nat, ds: seq<Datagram>): nat
    requires payload > 0
    decreases |ds|
  {
    if ds == [] then 0
    else Notifications(r, payload, ds[..|ds| - 1]) + if Last(r, payload, ds) == Returned(true) then 1 else 0
  }

  /** How many of them publish nothing: the datagram says its message is empty. */
  function EmptyReturns(r: Receiver, payload: nat, ds: seq<Datagram>): nat
    requires payload > 0
    decreases |ds|
  {
    if ds == [] then 0
    else EmptyReturns(r, payload, ds[..|ds| - 1])
         + if Last(r, payload, ds) == Returned(true) && ds[|ds| - 1].header.size == 0 then 1 else 0
  }

  /** Whatever datagrams arrive, subscribers are notified exactly once for every message published, and
      once for nothing for every empty one whose call returns true. */
  lemma {:induction false} NotificationsCount(r: Receiver, payload: nat, ds: seq<Datagram>)
    requires payload > 0 && OneFrame(r)
    ensures r.buffer.history <= ProcessAll(r, payload, ds).buffer.history
    ensures |ProcessAll(r, payload, ds).buffer.history| - |r.buffer.history| + EmptyReturns(r, payload, ds)
            == Notifications(r, payload, ds)
    decreases |ds|
  {
    if ds != [] {
      var before := ds[..|ds| - 1];
      NotificationsCount(r, payload, before);
      RunKeepsOneFrame(r, payload, before);
      StepKeepsOneFrame(ProcessAll(r, payload, before), payload, ds[|ds| - 1]);
    }
  }

  lemma {:induction false} NoneEmpty(r: Receiver, payload: nat, ds: seq<Datagram>)
    requires payload > 0 && forall d | d in ds :: d.header.size > 0
    ensures EmptyReturns(r, payload, ds) == 0
    decreases |ds|
  {
    if ds != [] {
      assert ds[|ds| - 1] in ds;
      NoneEmpty(r, payload, ds[..|ds| - 1]);
    }
  }

  /** So with no empty messages there is exactly one notification for every message published. */
  lemma {:induction false} NotifiedPerMessage(r: Receiver, payload: nat, ds: seq<Datagram>)
    requires payload > 0 && OneFrame(r) && forall d | d in ds :: d.header.size > 0
    ensures r.buffer.history <= ProcessAll(r, payload, ds).buffer.history
    ensures |ProcessAll(r, payload, ds).buffer.history| == |r.buffer.history| + Notifications(r, payload, ds)
  {
    NotificationsCount(r, payload, ds);
    NoneEmpty(r, payload, ds);
  }

  /** An empty datagram is such a message: the call returns true and publishes nothing, or throws while a
      frame is open. */
  lemma EmptyDatagramNotifies(r: Receiver, payload: nat, d: Datagram)
    requires payload > 0 && OneFrame(r) && d.header.size == |d.data| == 0
    ensures
      var (r', outcome) := Process(r, payload, d);
      && r'.buffer.history == r.buffer.history
      && outcome == if r.current.Some? || r.previous.Some? then Threw else Returned(true)
  {
    StepKeepsOneFrame(r, payload, d);
  }

  /** The call a run makes next. */
  lemma NextCall(r: Receiver, payload: nat, ds: seq<Datagram>, i: nat)
    requires payload > 0 && AllFit(r, payload, ds) && i < |ds|
    ensures
      var s := ProcessAll(r, payload, ds[..i]);
      var (s', outcome) := Process(s, payload, ds[i]);
      && CopyFits(s, payload, ds[i])
      && ProcessAll(r, payload, ds[..i + 1]) == s' && Last(r, payload, ds[..i + 1]) == outcome
      && Notifications(r, payload, ds[..i + 1])
         == Notifications(r, payload, ds[..i]) + if outcome == Returned(true) then 1 else 0
  {
    AllFitPrefix(r, payload, ds, i + 1);
    assert ds[..i + 1][..i] == ds[..i];
  }

  /** No call of the run threw. */
  predicate Quiet(r: Receiver, payload: nat, ds: seq<Datagram>)
    requires payload > 0
    decreases |ds|
  {
    ds == [] || (Quiet(r, payload, ds[..|ds| - 1]) && Last(r, payload, ds) != Threw)
  }

  lemma {:induction false} QuietPrefix(r: Receiver, payload: nat, ds: seq<Datagram>, i: nat)
    requires payload > 0 && Quiet(r, payload, ds) && i <= |ds|
    ensures Quiet(r, payload, ds[..i])
    decreases |ds|
  {
    if i < |ds| {
      QuietPrefix(r, payload, ds[..|ds| - 1], i);
      assert ds[..|ds| - 1][..i] == ds[..i];
    } else {
      assert ds[..i] == ds;
    }
  }

  /** No datagram of the run is refused. */
  predicate NoneRefused(r: Receiver, payload: nat, ds: seq<Datagram>)
    requires payload > 0
    decreases |ds|
  {
    ds == []
    || (NoneRefused(r, payload, ds[..|ds| - 1])
        && !Refuses(ProcessAll(r, payload, ds[..|ds| - 1]), payload, ds[|ds| - 1]))
  }

  /** So a run throws nothing exactly if none of its datagrams is refused. */
  lemma {:induction false} QuietIffNoneRefused(r: Receiver, payload: nat, ds: seq<Datagram>)
    requires payload > 0 && OneFrame(r)
    ensures Quiet(r, payload, ds) <==> NoneRefused(r, payload, ds)
    decreases |ds|
  {
    if ds != [] {
      var before := ds[..|ds| - 1];
      QuietIffNoneRefused(r, payload, before);
      RunKeepsOneFrame(r, payload, before);
      OutcomeOfCall(ProcessAll(r, payload, before), payload, ds[|ds| - 1]);
    }
  }

  /** With no frame open, a run of whole datagrams is refused nothing exactly if each fits the pool. */
  lemma {:induction false} WholesRefusedBySize(r: Receiver, payload: nat, ds: seq<Datagram>)
    requires payload > 0 && OneFrame(r) && !Open(r) && forall d | d in ds :: IsWhole(d)
    ensures NoneRefused(r, payload, ds) <==> forall d | d in ds :: d.header.size <= |r.buffer.pool.bytes|
    ensures !Open(ProcessAll(r, payload, ds))
    decreases |ds|
  {
    if ds != [] {
      var before, d := ds[..|ds| - 1], ds[|ds| - 1];
      assert ds == before + [d];
      WholesRefusedBySize(r, payload, before);
      RunKeepsOneFrame(r, payload, before);
      StateAfterCall(ProcessAll(r, payload, before), payload, d);
    }
  }

  /** Two runs, one after the other. */
  lemma {:induction false} RunsConcat(r: Receiver, payload: nat, a: seq<Datagram>, b: seq<Datagram>)
    requires payload > 0
    ensures
      var s := ProcessAll(r, payload, a);
      && ProcessAll(r, payload, a + b) == ProcessAll(s, payload, b)
      && Notifications(r, payload, a + b) == Notifications(r, payload, a) + Notifications(s, payload, b)
      && (AllFit(r, payload, a + b) <==> AllFit(r, payload, a) && AllFit(s, payload, b))
      && (Quiet(r, payload, a + b) <==> Quiet(r, payload, a) && Quiet(s, payload, b))
    decreases |b|
  {
    if b == [] {
      assert a + b == a;
    } else {
      assert (a + b)[..|a + b| - 1] == a + b[..|b| - 1];
      RunsConcat(r, payload, a, b[..|b| - 1]);
    }
  }
}
