/** The ring of message entries over the byte pool, its writer scopes and its cursors, against the
    unbounded history of everything published. */
module Ring {
  import opened Options
  import opened Cursors
  import opened MemoryPool

  /** An entry of the ring: where in the pool a message lies. */
  datatype Entry = Entry(size: nat, kind: nat, offset: nat)

  /** One message of the history, with the bytes it had when it was published. */
  datatype Published = Published(entry: Entry, payload: seq<Byte>)

  /** The buffer as a value: the ring itself is a function of the history. */
  datatype Buffer = Buffer(pool: Pool, history: seq<Published>)

  /** A writer scope as a value. */
  datatype Scope = Scope(span: Reservation, kind: nat)

  function OpenScope(b: Buffer, minSize: nat, kind: nat): (Buffer, Option<Scope>) {
    var (p, span) := Reserve(b.pool, minSize);
    (b.(pool := p), if span.Some? then Some(Scope(span.value, kind)) else None)
  }

  function FillScope(b: Buffer, s: Scope, at: nat, data: seq<Byte>): Buffer {
    b.(pool := Write(b.pool, s.span.start + at, data))
  }

  function CommitBuffer(b: Buffer, s: Scope, n: nat): Buffer {
    b.(pool := CommitPool(b.pool, s.span, n))
  }

  function CommitScope(s: Scope, n: nat): Scope {
    s.(span := CommitSpan(s.span, n))
  }

  function Bytes(p: Pool, start: nat, size: nat): seq<Byte> {
    if start + size <= |p.bytes| then p.bytes[start..start + size] else []
  }

  /** What the destructor of a scope adds to the history: a message, if anything was committed. */
  function Messages(p: Pool, s: Scope): seq<Published> {
    var start, size := s.span.start, s.span.committed;
    if size > 0 then [Published(Entry(size, s.kind, start), Bytes(p, start, size))] else []
  }

  /** The destructor of a scope: publish if anything was committed, and give the pool back. */
  function CloseScope(b: Buffer, s: Scope): Buffer {
    Buffer(b.pool.(inUse := false), b.history + Messages(b.pool, s))
  }

  // ---- the ring and the history ---------------------------------------------------------------

  function WindowStart(n: nat, capacity: nat): nat {
    if n > capacity then n - capacity else 0
  }

  /** The ring holds the last `capacity` messages of the history, each at its index modulo `capacity`. */
  ghost predicate RingHolds(items: seq<Entry>, h: seq<Published>) {
    |items| > 0
    && forall i | WindowStart(|h|, |items|) <= i < |h| :: items[i % |items|] == h[i].entry
  }

  function SizeSum(h: seq<Published>): nat {
    if h == [] then 0 else SizeSum(h[..|h| - 1]) + h[|h| - 1].entry.size
  }

  /** The sizes of the messages the ring holds. */
  function HeldSize(h: seq<Published>, capacity: nat): nat {
    SizeSum(h[WindowStart(|h|, capacity)..])
  }

  lemma {:induction false} SizeSumFront(h: seq<Published>)
    requires h != []
    ensures SizeSum(h) == h[0].entry.size + SizeSum(h[1..])
  {
    if |h| > 1 {
      SizeSumFront(h[..|h| - 1]);
      assert h[..|h| - 1][1..] == h[1..][..|h| - 2];
    }
  }

  /** Replacing the oldest entry by the newest keeps the ring in step with the history. */
  lemma RingTakesEntry(items: seq<Entry>, h: seq<Published>, m: Published)
    requires RingHolds(items, h)
    ensures RingHolds(items[|h| % |items| := m.entry], h + [m])
  {
    var n, c := |h|, |items|;
    forall i | WindowStart(n + 1, c) <= i < n + 1
      ensures items[n % c := m.entry][i % c] == (h + [m])[i].entry
    {
      if i < n { DistinctSlots(i, n, c); }
    }
  }

  /** The newest message enters the window and, once the ring is full, the oldest leaves it. */
  lemma HeldSizeMoves(h: seq<Published>, m: Published, capacity: nat)
    requires capacity > 0
    ensures HeldSize(h + [m], capacity) ==
            HeldSize(h, capacity) + m.entry.size - if |h| >= capacity then h[|h| - capacity].entry.size else 0
  {
    var held := h[WindowStart(|h|, capacity)..];
    assert (held + [m])[..|held|] == held;
    assert SizeSum(held + [m]) == SizeSum(held) + m.entry.size;
    if |h| >= capacity {
      SizeSumFront(held + [m]);
      assert (h + [m])[WindowStart(|h| + 1, capacity)..] == (held + [m])[1..];
      assert (held + [m])[0] == h[|h| - capacity];
    } else {
      assert (h + [m])[WindowStart(|h| + 1, capacity)..] == held + [m];
    }
  }

  lemma ReducedTwice(x: int, y: int)
    ensures (x % WORD + y) % WORD == (x + y) % WORD
  {
  }

  /** The running size, kept modulo 2^64 by adding the difference of the two entries, stays in step
      with the sizes held. */
  lemma RingTakesSize(items: seq<Entry>, h: seq<Published>, m: Published, currentSize: nat)
    requires RingHolds(items, h) && currentSize == HeldSize(h, |items|) % WORD
    ensures
      var previous := if |h| >= |items| then items[(|h| - |items|) % |items|].size else 0;
      Minus(currentSize + m.entry.size, previous) == HeldSize(h + [m], |items|) % WORD
  {
    HeldSizeMoves(h, m, |items|);
    var previous := if |h| >= |items| then h[|h| - |items|].entry.size else 0;
    ReducedTwice(HeldSize(h, |items|), m.entry.size - previous);
  }

  /** Ring and running size agree with the history. */
  ghost predicate InStep(items: seq<Entry>, h: seq<Published>, currentSize: nat) {
    RingHolds(items, h) && currentSize == HeldSize(h, |items|) % WORD
  }

  /** What the destructor of a writer scope does to the ring keeps it in step. */
  lemma RingTakesMessage(items: seq<Entry>, h: seq<Published>, m: Published, currentSize: nat)
    requires InStep(items, h, currentSize)
    ensures
      var previous := if |h| >= |items| then items[(|h| - |items|) % |items|].size else 0;
      InStep(items[|h| % |items| := m.entry], h + [m], Minus(currentSize + m.entry.size, previous))
  {
    RingTakesEntry(items, h, m);
    RingTakesSize(items, h, m, currentSize);
  }

  class CyclicBuffer {
    var nextIndex: nat
    var currentSize: nat
    const items: array<Entry>
    const memory: CyclicMemoryPool
    ghost var history: seq<Published>

    ghost function Repr(): set<object> {
      {this, items, memory, memory.buffer}
    }

    ghost predicate Valid()
      reads Repr()
    {
      && nextIndex == |history| < WORD
      && InStep(items[..], history, currentSize)
      && memory.offset <= memory.buffer.Length
    }

    ghost function State(): Buffer
      reads Repr()
    {
      Buffer(memory.State(), history)
    }

    constructor (capacity: nat, size: nat)
      requires capacity > 0
      ensures Valid() && State().history == [] && items.Length == capacity && fresh(Repr())
      ensures State().pool == Pool(memory.buffer[..], 0, false) && memory.buffer.Length == size
    {
      nextIndex, currentSize, history := 0, 0, [];
      items := new Entry[capacity](i => Entry(0, 0, 0));
      memory := new CyclicMemoryPool(size);
    }

    /** `null` is the exception of `GetWriteSpan`. */
    method WriteScope(minSize: nat, kind: nat) returns (scope: WriterScope?)
      requires Valid()
      modifies memory
      ensures Valid() && State() == OpenScope(old(State()), minSize, kind).0
      ensures scope == null <==> OpenScope(old(State()), minSize, kind).1 == None
      ensures scope != null ==>
                && fresh(scope) && fresh(scope.span)
                && scope.parent == this && scope.span.parent == memory
                && Some(scope.State()) == OpenScope(old(State()), minSize, kind).1
    {
      var span := memory.GetWriteSpan(minSize);
      if span == null { return null; }
      scope := new WriterScope(span, kind, this);
    }

    /** The size of the entry that the next message takes over. */
    ghost function PreviousSize(): nat
      requires items.Length > 0
      reads this, items
    {
      if nextIndex >= items.Length then items[(nextIndex - items.Length) % items.Length].size else 0
    }

    /** The destructor of a scope, first half: the running size. */
    method AddSize(written: nat)
      requires items.Length > 0
      modifies this`currentSize
      ensures currentSize == Minus(old(currentSize) + written, PreviousSize())
    {
      var nx, capacity := nextIndex, items.Length;
      var prvSize := if nx >= capacity then items[(nx - capacity) % capacity].size else 0;
      currentSize := Minus(currentSize + written, prvSize);
    }

    /** Second half: the entry. */
    method Place(entry: Entry)
      requires items.Length > 0
      modifies items
      ensures items[..] == old(items[..])[nextIndex % items.Length := entry]
    {
      items[nextIndex % items.Length] := entry;
    }

    /** Both, and the index: one message more. */
    method Append(entry: Entry, ghost m: Published)
      requires Valid() && nextIndex + 1 < WORD && m.entry == entry
      modifies this, items
      ensures Valid() && history == old(history) + [m]
    {
      ghost var before, size := items[..], currentSize;
      RingTakesMessage(before, history, m, size);
      AddSize(entry.size);
      Place(entry);
      assert items[..] == before[|history| % |before| := m.entry];
      nextIndex := nextIndex + 1;
      history := history + [m];
    }

    /** The sizes of the messages in the ring, as long as they fit 64 bits. */
    method BufferItemsSize() returns (size: nat)
      requires Valid()
      ensures size == HeldSize(history, items.Length) % WORD
      ensures HeldSize(history, items.Length) < WORD ==> size == HeldSize(history, items.Length)
    {
      return currentSize;
    }

    /** Any start is accepted, also one the writer has not reached. */
    method OpenCursor(at: nat) returns (c: Cursor)
      requires at < WORD
      ensures fresh(c) && c.parent == this && c.Valid() && c.start == at && c.taken == 0
    {
      c := new Cursor(Cursors.Open(at), at, this);
    }
  }

  class WriterScope {
    const span: Span
    const kind: nat
    const parent: CyclicBuffer

    ghost function State(): Scope
      reads span
    {
      Scope(span.State(), kind)
    }

    constructor (span: Span, kind: nat, parent: CyclicBuffer)
      ensures this.span == span && this.kind == kind && this.parent == parent
    {
      this.span, this.kind, this.parent := span, kind, parent;
    }

    /** A copy into the span. */
    method Fill(at: nat, data: seq<Byte>)
      requires parent.Valid() && span.parent == parent.memory
      requires span.start + at + |data| <= parent.memory.buffer.Length
      modifies parent.memory.buffer
      ensures parent.Valid() && parent.State() == FillScope(old(parent.State()), State(), at, data)
    {
      span.Store(at, data);
    }

    /** `Span.Commit` on the span of the scope; false is its exception. */
    method Commit(n: nat) returns (ok: bool)
      requires parent.Valid() && span.parent == parent.memory
      requires span.committed <= span.size
      requires parent.memory.offset + span.size - span.committed <= parent.memory.buffer.Length
      modifies span, parent.memory
      ensures parent.Valid() && ok == CanCommit(old(State()).span, n)
      ensures parent.State() == CommitBuffer(old(parent.State()), old(State()), n)
      ensures State() == CommitScope(old(State()), n)
    {
      ok := span.Commit(n);
    }

    /** The body of the destructor: a committed message takes over the oldest entry of the ring. */
    method Publish()
      requires parent.Valid() && span.parent == parent.memory && parent.nextIndex + 1 < WORD
      modifies parent, parent.items
      ensures parent.Valid()
      ensures parent.history == old(parent.history) + Messages(parent.memory.State(), State())
    {
      var written := span.committed;
      if written > 0 {
        parent.Append(Entry(written, kind, span.start), Messages(parent.memory.State(), State())[0]);
      }
    }

    /** The destructor: its body, then the destructor of the span. */
    method Dispose()
      requires parent.Valid() && span.parent == parent.memory && parent.nextIndex + 1 < WORD
      modifies parent, parent.items, parent.memory
      ensures parent.Valid() && parent.State() == CloseScope(old(parent.State()), State())
      ensures unchanged(parent.memory.buffer) && parent.memory.offset == old(parent.memory.offset)
    {
      Publish();
      span.Release();
    }
  }

  /** A reader: `start` and `taken` say where it was opened and how many messages it has taken. */
  class Cursor {
    var index: nat
    const parent: CyclicBuffer
    ghost const start: nat
    ghost var taken: nat

    ghost predicate Valid()
      reads this
    {
      index == Standing(start, taken) && start + taken < WORD
    }

    constructor (index: nat, ghost start: nat, parent: CyclicBuffer)
      ensures this.index == index && this.start == start && taken == 0 && this.parent == parent
    {
      this.index, this.start, taken, this.parent := index, start, 0, parent;
    }

    /** The number of messages published and not yet read; ahead of the writer, what it has still to
        publish, counted down from 2^64. */
    method Remaining() returns (r: nat)
      requires Valid() && parent.nextIndex + 1 < WORD
      ensures start + taken <= parent.nextIndex ==> r == parent.nextIndex - (start + taken)
      ensures start + taken > parent.nextIndex ==> r == WORD - (start + taken - parent.nextIndex)
    {
      StandingCounts(start + taken, parent.nextIndex);
      return Minus(Minus(parent.nextIndex, index), 1);
    }

    /** Succeeds exactly when a message is left, and then stands on the index of the next one.  Ahead of
        the writer it waits when it is one message ahead, and further ahead succeeds on an index where
        nothing has been published. */
    method TryRead() returns (ok: bool)
      requires Valid() && start + taken + 1 < WORD && parent.nextIndex + 1 < WORD
      modifies this
      ensures Valid() && taken == old(taken) + if ok then 1 else 0
      ensures ok == (old(start + taken) < parent.nextIndex || old(start + taken) > parent.nextIndex + 1)
      ensures ok ==> index == start + taken - 1
      ensures !ok ==> index == old(index)
    {
      StandingCounts(start + taken, parent.nextIndex);
      var diff := Minus(parent.nextIndex, index);
      if diff > 1 {
        index := Advance(index);
        taken := taken + 1;
        return true;
      }
      return false;
    }

    /** The entry in the ring slot is that of the message read, while at most `capacity` messages have
        been published from it on. */
    method Data() returns (entry: Entry)
      requires parent.Valid() && Valid()
      ensures 0 < taken && start + taken <= parent.nextIndex
              && parent.nextIndex - (start + taken - 1) <= parent.items.Length
              ==> entry == parent.history[start + taken - 1].entry
    {
      MinusSmall(start + taken, 1);
      ghost var j := start + taken - 1;
      if 0 < taken && start + taken <= parent.nextIndex && parent.nextIndex - j <= parent.items.Length {
        assert WindowStart(|parent.history|, parent.items.Length) <= j;
        assert parent.items[..][j % parent.items.Length] == parent.history[j].entry;
      }
      entry := parent.items[index % parent.items.Length];
    }
  }

  // ---- what a reader finds --------------------------------------------------------------------

  /** The only writer of a buffer: the pool underneath, the kind of the scope it has open, the history and
      the ring. */
  datatype Log = Log(writer: Writer, kind: nat, history: seq<Published>, items: seq<Entry>)

  /** A step of the pool's writer; `kind` matters to the opening of a scope. */
  datatype LogEvent = LogEvent(event: Event, kind: nat)

  /** What the destructor of the open scope adds to the history. */
  function Closed(l: Log): seq<Published> {
    if l.writer.span.Some? then Messages(l.writer.pool, Scope(l.writer.span.value, l.kind)) else []
  }

  /** The ring after new messages, each at its index modulo the capacity. */
  function Placed(items: seq<Entry>, n: nat, ms: seq<Published>): (r: seq<Entry>)
    ensures |r| == |items|
  {
    if ms == [] || items == [] then items else items[n % |items| := ms[0].entry]
  }

  function LogStep(l: Log, e: LogEvent): Log {
    var added := if e.event.Close? then Closed(l) else [];
    Log(Step(l.writer, e.event),
        if e.event.Open? && l.writer.span.None? then e.kind else l.kind,
        l.history + added, Placed(l.items, |l.history|, added))
  }

  function LogRun(l: Log, es: seq<LogEvent>): Log
    decreases |es|
  {
    if es == [] then l else LogStep(LogRun(l, es[..|es| - 1]), es[|es| - 1])
  }

  /** Over every run of the writer the ring holds the last messages of the history. */
  lemma {:induction false} LogKeepsRing(l: Log, es: seq<LogEvent>)
    requires RingHolds(l.items, l.history)
    ensures RingHolds(LogRun(l, es).items, LogRun(l, es).history) && |LogRun(l, es).items| == |l.items|
    decreases |es|
  {
    if es != [] {
      var before, e := LogRun(l, es[..|es| - 1]), es[|es| - 1];
      LogKeepsRing(l, es[..|es| - 1]);
      if e.event.Close? && Closed(before) != [] {
        RingTakesEntry(before.items, before.history, Closed(before)[0]);
      }
    }
  }

  function Events(es: seq<LogEvent>): seq<Event>
    decreases |es|
  {
    if es == [] then [] else Events(es[..|es| - 1]) + [es[|es| - 1].event]
  }

  /** The pool does not notice the history; the history only grows, and by exactly the bytes that the
      pool counts as finished. */
  lemma {:induction false} LogFollowsPool(l: Log, es: seq<LogEvent>)
    ensures LogRun(l, es).writer == Run(l.writer, Events(es))
    ensures l.history <= LogRun(l, es).history
    ensures SizeSum(LogRun(l, es).history) == SizeSum(l.history) + Finished(l.writer, Events(es))
    decreases |es|
  {
    if es != [] {
      var before := es[..|es| - 1];
      LogFollowsPool(l, before);
      var e := Events(before);
      assert (e + [es[|es| - 1].event])[..|e|] == e;
      var h, h' := LogRun(l, before).history, LogRun(l, es).history;
      if h' != h { assert h'[..|h'| - 1] == h; }
    }
  }

  /** The last message of the history has just been published: the pool is free and stands at its end. */
  ghost predicate JustPublished(l: Log) {
    && l.history != []
    && var m := l.history[|l.history| - 1];
       && l.writer.span.None? && !l.writer.pool.inUse
       && l.writer.pool.offset == m.entry.offset + m.entry.size <= |l.writer.pool.bytes|
       && m.payload == Bytes(l.writer.pool, m.entry.offset, m.entry.size)
  }

  /** Closing a scope with something committed publishes the bytes the pool holds there. */
  lemma ClosingPublishes(l: Log, e: LogEvent)
    requires Consistent(l.writer) && e.event.Close?
    requires l.writer.span.Some? && l.writer.span.value.committed > 0
    ensures JustPublished(LogStep(l, e)) && |LogStep(l, e).history| == |l.history| + 1
    ensures LogStep(l, e).history[|l.history|].entry.kind == l.kind
    ensures RingHolds(l.items, l.history) ==> RingHolds(LogStep(l, e).items, LogStep(l, e).history)
  {
    if RingHolds(l.items, l.history) { RingTakesEntry(l.items, l.history, Closed(l)[0]); }
  }

  /** The bytes of the message just published survive the run, within the pool's retention bound. */
  lemma PayloadStays(l: Log, es: seq<LogEvent>, limit: nat)
    requires JustPublished(l)
    requires Behaved(l.writer, Events(es), limit)
    requires Within(l.writer, Events(es),
                    |l.writer.pool.bytes| - l.history[|l.history| - 1].entry.size - (limit - 1))
    ensures
      var m := l.history[|l.history| - 1];
      Bytes(LogRun(l, es).writer.pool, m.entry.offset, m.entry.size) == m.payload
  {
    var m, events := l.history[|l.history| - 1], Events(es);
    MessageIsRetained(l.writer, events, m.entry.offset, m.entry.size, limit);
    assert LogRun(l, es).writer == Run(l.writer, events) by { LogFollowsPool(l, es); }
  }

  /** A reader that goes to the ring for message `j` finds its entry, and at its place in the pool the
      bytes it was published with, for as long as at most `capacity` messages have been published from
      `j` on and the bytes published after it, plus the request in flight, stayed within the pool's
      retention bound. */
  lemma ReaderFindsMessage(l: Log, es: seq<LogEvent>, limit: nat)
    requires JustPublished(l) && RingHolds(l.items, l.history)
    requires Behaved(l.writer, Events(es), limit)
    requires Within(l.writer, Events(es),
                    |l.writer.pool.bytes| - l.history[|l.history| - 1].entry.size - (limit - 1))
    requires |LogRun(l, es).history| - (|l.history| - 1) <= |l.items|
    ensures
      var j, l' := |l.history| - 1, LogRun(l, es);
      && |l'.items| == |l.items| > 0
      && var entry := l'.items[j % |l'.items|];
         && entry == l.history[j].entry
         && Bytes(l'.writer.pool, entry.offset, entry.size) == l.history[j].payload
  {
    var j, items := |l.history| - 1, LogRun(l, es).items;
    var h := LogRun(l, es).history;
    LogKeepsRing(l, es);
    assert l.history <= h by { LogFollowsPool(l, es); }
    assert WindowStart(|h|, |items|) <= j < |h| && h[j] == l.history[j];
    PayloadStays(l, es, limit);
  }

  // ---- every message of every run -------------------------------------------------------------

  /** A buffer nothing has been written to. */
  function FreshLog(capacity: nat, size: nat): Log {
    Log(Writer(Pool(seq(size, i => 0), 0, false), None, 0), 0, [], seq(capacity, i => Entry(0, 0, 0)))
  }

  lemma {:induction false} LogRunsConcat(l: Log, a: seq<LogEvent>, b: seq<LogEvent>)
    ensures LogRun(l, a + b) == LogRun(LogRun(l, a), b)
    ensures Events(a + b) == Events(a) + Events(b)
    decreases |b|
  {
    if b == [] {
      assert a + b == a;
    } else {
      assert (a + b)[..|a + b| - 1] == a + b[..|b| - 1];
      LogRunsConcat(l, a, b[..|b| - 1]);
    }
  }

  /** The event that published message `j`. */
  lemma {:induction false} PublishedAt(l: Log, es: seq<LogEvent>, j: nat) returns (k: nat)
    requires |l.history| <= j < |LogRun(l, es).history|
    ensures k < |es| && |LogRun(l, es[..k]).history| == j
    ensures LogRun(l, es[..k + 1]) == LogStep(LogRun(l, es[..k]), es[k])
    ensures |LogRun(l, es[..k + 1]).history| == j + 1
    decreases |es|
  {
    var before := es[..|es| - 1];
    if j < |LogRun(l, before).history| {
      k := PublishedAt(l, before, j);
      assert before[..k] == es[..k] && before[..k + 1] == es[..k + 1];
    } else {
      k := |es| - 1;
      assert es[..k + 1] == es;
    }
  }

  /** Whatever a well-behaved writer has done, the message it has just published is in place. */
  lemma PublishedIsInPlace(l: Log, es: seq<LogEvent>, e: LogEvent, limit: nat)
    requires Consistent(l.writer) && RingHolds(l.items, l.history) && Behaved(l.writer, Events(es), limit)
    requires |LogStep(LogRun(l, es), e).history| > |LogRun(l, es).history|
    ensures JustPublished(LogStep(LogRun(l, es), e))
    ensures RingHolds(LogStep(LogRun(l, es), e).items, LogStep(LogRun(l, es), e).history)
  {
    assert LogRun(l, es).writer == Run(l.writer, Events(es)) by { LogFollowsPool(l, es); }
    RunKeepsConsistent(l.writer, Events(es), limit);
    LogKeepsRing(l, es);
    ClosingPublishes(LogRun(l, es), e);
  }

  /** The run up to the publishing event, that event, and the rest. */
  lemma Parts(l: Log, es: seq<LogEvent>, k: nat, limit: nat)
    requires k < |es| && Behaved(l.writer, Events(es), limit)
    ensures Behaved(l.writer, Events(es[..k]), limit)
    ensures Behaved(LogRun(l, es[..k + 1]).writer, Events(es[k + 1..]), limit)
    ensures LogRun(l, es) == LogRun(LogRun(l, es[..k + 1]), es[k + 1..])
  {
    var a, b := es[..k + 1], es[k + 1..];
    assert es == a + b && a == es[..k] + [es[k]];
    LogRunsConcat(l, a, b);
    LogRunsConcat(l, es[..k], [es[k]]);
    WriterRunsConcat(l.writer, Events(a), Events(b), limit);
    WriterRunsConcat(l.writer, Events(es[..k]), Events([es[k]]), limit);
    assert LogRun(l, a).writer == Run(l.writer, Events(a)) by { LogFollowsPool(l, a); }
  }

  /** Event `k` of the run published message `j`. */
  ghost predicate PublishedBy(l: Log, es: seq<LogEvent>, k: nat, j: nat) {
    k < |es| && |LogRun(l, es[..k]).history| == j && |LogRun(l, es[..k + 1]).history| == j + 1
  }

  /** Since the last message of `l`, `es` has kept within the capacity of the ring and the pool's bound. */
  ghost predicate KeptWithin(l: Log, es: seq<LogEvent>, limit: nat) {
    && l.history != []
    && Within(l.writer, Events(es),
              |l.writer.pool.bytes| - l.history[|l.history| - 1].entry.size - (limit - 1))
    && |LogRun(l, es).history| - (|l.history| - 1) <= |l.items|
  }

  /** A reader finds the entry of message `j` in the ring, and its bytes in the pool. */
  ghost predicate Found(l: Log, j: nat) {
    && j < |l.history| && |l.items| > 0
    && var entry := l.items[j % |l.items|];
       && entry == l.history[j].entry
       && Bytes(l.writer.pool, entry.offset, entry.size) == l.history[j].payload
  }

  lemma LastIsFound(l: Log, es: seq<LogEvent>, limit: nat)
    requires JustPublished(l) && RingHolds(l.items, l.history)
    requires Behaved(l.writer, Events(es), limit) && KeptWithin(l, es, limit)
    ensures Found(LogRun(l, es), |l.history| - 1)
  {
    ReaderFindsMessage(l, es, limit);
    assert l.history <= LogRun(l, es).history by { LogFollowsPool(l, es); }
  }

  lemma {:induction false} EveryMessageStays(l: Log, es: seq<LogEvent>, limit: nat, j: nat) returns (k: nat)
    requires Consistent(l.writer) && RingHolds(l.items, l.history) && Behaved(l.writer, Events(es), limit)
    requires |l.history| <= j < |LogRun(l, es).history|
    ensures PublishedBy(l, es, k, j)
    ensures KeptWithin(LogRun(l, es[..k + 1]), es[k + 1..], limit) ==> Found(LogRun(l, es), j)
  {
    k := PublishedAt(l, es, j);
    Parts(l, es, k, limit);
    PublishedIsInPlace(l, es[..k], es[k], limit);
    if KeptWithin(LogRun(l, es[..k + 1]), es[k + 1..], limit) {
      LastIsFound(LogRun(l, es[..k + 1]), es[k + 1..], limit);
    }
  }

  /** Every message of every run from an empty buffer: some event `k` published message `j`, and at the end
      a reader finds it, if since then the run has kept within the capacity and the retention bound. */
  lemma {:induction false} EveryMessageIsFound(
    capacity: nat, size: nat, es: seq<LogEvent>, limit: nat, j: nat) returns (k: nat)
    requires capacity > 0 && Behaved(FreshLog(capacity, size).writer, Events(es), limit)
    requires j < |LogRun(FreshLog(capacity, size), es).history|
    ensures PublishedBy(FreshLog(capacity, size), es, k, j)
    ensures KeptWithin(LogRun(FreshLog(capacity, size), es[..k + 1]), es[k + 1..], limit)
            ==> Found(LogRun(FreshLog(capacity, size), es), j)
  {
    k := EveryMessageStays(FreshLog(capacity, size), es, limit, j);
  }
}
