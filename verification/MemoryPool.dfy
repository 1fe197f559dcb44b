/** The byte pool that messages are written into: a bump allocator that starts over at 0 when the tail
    is too short, with one span handed out at a time. */
module MemoryPool {
  import opened Options

  type Byte = b: nat | b < 256

  /** The pool as a value. */
  datatype Pool = Pool(bytes: seq<Byte>, offset: nat, inUse: bool)

  /** A span as a value: all the bytes from `start` to the end of the pool. */
  datatype Reservation = Reservation(start: nat, size: nat, committed: nat)

  /** `GetWriteSpan`; `None` is its exception, which leaves the pool as it was. */
  function Reserve(p: Pool, minSize: nat): (Pool, Option<Reservation>) {
    if minSize > |p.bytes| || p.inUse then (p, None)
    else
      var start := if |p.bytes| - p.offset < minSize then 0 else p.offset;
      (p.(offset := start, inUse := true), Some(Reservation(start, |p.bytes| - start, 0)))
  }

  /** Whether `Span::Commit` succeeds; otherwise it throws. */
  predicate CanCommit(r: Reservation, n: nat) {
    r.committed + n <= r.size
  }

  function CommitPool(p: Pool, r: Reservation, n: nat): Pool {
    if CanCommit(r, n) then p.(offset := p.offset + n) else p
  }

  function CommitSpan(r: Reservation, n: nat): Reservation {
    if CanCommit(r, n) then r.(committed := r.committed + n) else r
  }

  /** Copying `data` into the pool; a copy that does not fit is outside the model. */
  function Write(p: Pool, at: nat, data: seq<Byte>): (r: Pool)
    ensures |r.bytes| == |p.bytes|
  {
    if at + |data| <= |p.bytes| then p.(bytes := p.bytes[..at] + data + p.bytes[at + |data|..]) else p
  }

  class CyclicMemoryPool {
    var offset: nat
    var inUse: bool
    const buffer: array<Byte>

    ghost function State(): Pool
      reads this, buffer
    {
      Pool(buffer[..], offset, inUse)
    }

    constructor (size: nat)
      ensures State() == Pool(buffer[..], 0, false) && buffer.Length == size && fresh(buffer)
    {
      offset, inUse := 0, false;
      buffer := new Byte[size];
    }

    /** `null` is the source's exception: the request exceeds the pool, or a span is out. */
    method GetWriteSpan(minSize: nat) returns (span: Span?)
      requires offset <= buffer.Length
      modifies this
      ensures State() == Reserve(old(State()), minSize).0
      ensures span == null <==> Reserve(old(State()), minSize).1 == None
      ensures span != null ==> fresh(span) && span.parent == this
                               && Some(span.State()) == Reserve(old(State()), minSize).1
    {
      if minSize > buffer.Length { return null; }
      var freeSpace := buffer.Length - offset;
      if inUse { return null; }
      inUse := true;
      if freeSpace < minSize {
        offset := 0;
        freeSpace := buffer.Length;
      }
      span := new Span(offset, freeSpace, this);
    }
  }

  class Span {
    const start: nat
    const size: nat
    const parent: CyclicMemoryPool
    var committed: nat

    ghost function State(): Reservation
      reads this
    {
      Reservation(start, size, committed)
    }

    constructor (start: nat, size: nat, parent: CyclicMemoryPool)
      ensures State() == Reservation(start, size, 0) && this.parent == parent
    {
      this.start, this.size, this.parent, committed := start, size, parent, 0;
    }

    /** Moves the pool's offset along with the span; false is the source's exception. */
    method Commit(n: nat) returns (ok: bool)
      requires committed <= size
      modifies this, parent
      ensures ok == CanCommit(old(State()), n)
      ensures State() == CommitSpan(old(State()), n)
      ensures parent.State() == CommitPool(old(parent.State()), old(State()), n)
    {
      if n > size - committed { return false; }
      committed := committed + n;
      parent.offset := parent.offset + n;
      return true;
    }

    /** Copies bytes into the span. */
    method Store(at: nat, data: seq<Byte>)
      requires start + at + |data| <= parent.buffer.Length
      modifies parent.buffer
      ensures parent.State() == Write(old(parent.State()), start + at, data)
    {
      var buffer := parent.buffer;
      forall i | 0 <= i < |data| {
        buffer[start + at + i] := data[i];
      }
      assert buffer[..] == Write(old(parent.State()), start + at, data).bytes;
    }

    /** The destructor gives the pool back. */
    method Release()
      modifies parent
      ensures parent.State() == old(parent.State()).(inUse := false)
    {
      parent.inUse := false;
    }
  }

  // ---- how long a message stays where it was written ------------------------------------------

  /** The only writer of a pool: the span it has out and the size it asked for. */
  datatype Writer = Writer(pool: Pool, span: Option<Reservation>, requested: nat)

  datatype Event = Open(request: nat) | Store(at: nat, data: seq<Byte>) | Commit(n: nat) | Close

  function Step(w: Writer, e: Event): Writer {
    match e
    case Open(r) =>
      var (p, span) := Reserve(w.pool, r);
      if span.Some? then Writer(p, span, r) else w
    case Store(at, data) =>
      if w.span.Some? then w.(pool := Write(w.pool, w.span.value.start + at, data)) else w
    case Commit(n) =>
      if w.span.Some?
      then w.(pool := CommitPool(w.pool, w.span.value, n), span := Some(CommitSpan(w.span.value, n)))
      else w
    case Close => if w.span.Some? then Writer(w.pool.(inUse := false), None, 0) else w
  }

  function Run(w: Writer, es: seq<Event>): Writer
    decreases |es|
  {
    if es == [] then w else Step(Run(w, es[..|es| - 1]), es[|es| - 1])
  }

  /** No request exceeds `limit`, and the writer stays within what it asked for. */
  predicate WithinRequest(w: Writer, e: Event, limit: nat) {
    match e
    case Open(r) => r <= limit
    case Store(at, data) => w.span.Some? ==> at + |data| <= w.requested
    case Commit(n) => w.span.Some? ==> w.span.value.committed + n <= w.requested
    case Close => true
  }

  predicate Behaved(w: Writer, es: seq<Event>, limit: nat)
    decreases |es|
  {
    es == []
    || var before := es[..|es| - 1];
       Behaved(w, before, limit) && WithinRequest(Run(w, before), es[|es| - 1], limit)
  }

  /** What an event adds to the finished bytes. */
  function Adds(w: Writer, e: Event): nat {
    if e.Close? && w.span.Some? then w.span.value.committed else 0
  }

  /** The bytes committed by the spans closed during the run; an abandoned span adds nothing. */
  function Finished(w: Writer, es: seq<Event>): nat
    decreases |es|
  {
    if es == [] then 0
    else
      var before := es[..|es| - 1];
      Finished(w, before) + Adds(Run(w, before), es[|es| - 1])
  }

  function InFlight(w: Writer): nat {
    if w.span.Some? then w.requested else 0
  }

  /** At every moment of the run, what was committed since plus what is asked for is at most `budget`. */
  predicate Within(w: Writer, es: seq<Event>, budget: int)
    decreases |es|
  {
    && Finished(w, es) + InFlight(Run(w, es)) <= budget
    && (es == [] || Within(w, es[..|es| - 1], budget))
  }

  /** A span reaches to the end of the pool, and what it has committed is what the pool advanced. */
  ghost predicate Consistent(w: Writer) {
    && w.pool.offset <= |w.pool.bytes|
    && w.pool.inUse == w.span.Some?
    && (w.span.Some? ==>
          var r := w.span.value;
          && r.start + r.size == |w.pool.bytes| && w.pool.offset == r.start + r.committed
          && r.committed <= w.requested <= r.size)
  }

  lemma StepKeepsConsistent(w: Writer, e: Event, limit: nat)
    requires Consistent(w) && WithinRequest(w, e, limit)
    ensures Consistent(Step(w, e)) && |Step(w, e).pool.bytes| == |w.pool.bytes|
  {
  }

  /** The bookkeeping of the pool is right after every run of a writer that keeps to its requests. */
  lemma {:induction false} RunKeepsConsistent(w: Writer, es: seq<Event>, limit: nat)
    requires Consistent(w) && Behaved(w, es, limit)
    ensures Consistent(Run(w, es)) && |Run(w, es).pool.bytes| == |w.pool.bytes|
    decreases |es|
  {
    if es != [] {
      var before := es[..|es| - 1];
      RunKeepsConsistent(w, before, limit);
      StepKeepsConsistent(Run(w, before), es[|es| - 1], limit);
    }
  }

  lemma {:induction false} WriterRunsConcat(w: Writer, a: seq<Event>, b: seq<Event>, limit: nat)
    ensures Run(w, a + b) == Run(Run(w, a), b)
    ensures Behaved(w, a + b, limit) <==> Behaved(w, a, limit) && Behaved(Run(w, a), b, limit)
    decreases |b|
  {
    if b == [] {
      assert a + b == a;
    } else {
      assert (a + b)[..|a + b| - 1] == a + b[..|b| - 1];
      WriterRunsConcat(w, a, b[..|b| - 1], limit);
    }
  }

  /** Where the writer stands relative to a message at `[a, a + s)` after `done` further bytes: beyond
      it, or once around and, within the budget, still before it. */
  ghost predicate Clear(w: Writer, a: nat, s: nat, limit: nat, done: nat) {
    var base := if w.span.Some? then w.span.value.start else w.pool.offset;
    || base == a + s + done
    || base <= done - |w.pool.bytes| + (limit - 1) + a + s
  }

  lemma OneEvent(w: Writer, e: Event, a: nat, s: nat, limit: nat, done: nat, done': nat)
    requires Consistent(w) && Clear(w, a, s, limit, done) && WithinRequest(w, e, limit)
    requires a + s <= |w.pool.bytes|
    requires done' == done + Adds(w, e)
    requires done + InFlight(w) <= |w.pool.bytes| - s - (limit - 1)
    requires done' + InFlight(Step(w, e)) <= |w.pool.bytes| - s - (limit - 1)
    ensures Consistent(Step(w, e)) && Clear(Step(w, e), a, s, limit, done')
    ensures |Step(w, e).pool.bytes| == |w.pool.bytes|
    ensures Step(w, e).pool.bytes[a..a + s] == w.pool.bytes[a..a + s]
  {
    if e.Store? && w.span.Some? {
      var at := w.span.value.start + e.at;
      assert at + |e.data| <= a || at >= a + s;
    }
  }

  /** Retention.  A message of `s` bytes just published at `a` stays untouched for as long as the bytes
      committed after it plus the request in flight come to at most `S - s - (M - 1)`, for any requests
      up to `M`, across wraps and abandoned spans. */
  lemma {:induction false} MessageIsRetained(w: Writer, es: seq<Event>, a: nat, s: nat, limit: nat)
    requires w.span.None? && !w.pool.inUse && w.pool.offset == a + s <= |w.pool.bytes|
    requires Behaved(w, es, limit) && Within(w, es, |w.pool.bytes| - s - (limit - 1))
    ensures |Run(w, es).pool.bytes| == |w.pool.bytes|
    ensures Run(w, es).pool.bytes[a..a + s] == w.pool.bytes[a..a + s]
    ensures Consistent(Run(w, es)) && Clear(Run(w, es), a, s, limit, Finished(w, es))
    decreases |es|
  {
    if es != [] {
      var before, e := es[..|es| - 1], es[|es| - 1];
      MessageIsRetained(w, before, a, s, limit);
      OneEvent(Run(w, before), e, a, s, limit, Finished(w, before), Finished(w, es));
    }
  }

  /** The first lap wastes nothing: for as long as everything fits behind the place where the run began, each
      span starts where the bytes committed before it end, and nothing of an abandoned one is skipped. */
  lemma {:induction false} FirstLapIsPacked(w: Writer, es: seq<Event>, limit: nat)
    requires w.span.None? && !w.pool.inUse && w.pool.offset <= |w.pool.bytes|
    requires Behaved(w, es, limit) && Within(w, es, |w.pool.bytes| - w.pool.offset)
    ensures
      var w' := Run(w, es);
      && Consistent(w') && |w'.pool.bytes| == |w.pool.bytes|
      && (if w'.span.Some? then w'.span.value.start else w'.pool.offset) == w.pool.offset + Finished(w, es)
    decreases |es|
  {
    if es != [] {
      var before, e := es[..|es| - 1], es[|es| - 1];
      FirstLapIsPacked(w, before, limit);
      StepKeepsConsistent(Run(w, before), e, limit);
    }
  }

  /** A run that keeps its bounds, what it ends in, and what it finished. */
  predicate Leads(w: Writer, es: seq<Event>, limit: nat, budget: int, end: Writer, finished: nat) {
    && Behaved(w, es, limit) && Within(w, es, budget)
    && Run(w, es) == end && Finished(w, es) == finished
  }

  lemma OneMore(w: Writer, es: seq<Event>, limit: nat, budget: int, end: Writer, finished: nat, e: Event)
    requires Leads(w, es, limit, budget, end, finished) && WithinRequest(end, e, limit)
    requires finished + Adds(end, e) + InFlight(Step(end, e)) <= budget
    ensures Leads(w, es + [e], limit, budget, Step(end, e), finished + Adds(end, e))
  {
    assert (es + [e])[..|es|] == es;
  }

  /** `n` one-byte messages. */
  function OneByteMessages(n: nat): seq<Event> {
    if n == 0 then [] else OneByteMessages(n - 1) + [Open(1)] + [Commit(1)] + [Close]
  }

  function Advanced(w: Writer, n: nat): Writer {
    Writer(w.pool.(offset := w.pool.offset + n), None, 0)
  }

  /** One message of one byte: three events. */
  lemma OneByteMore(w: Writer, es: seq<Event>, n: nat, limit: nat, budget: nat)
    requires !w.pool.inUse && w.pool.offset + n + 1 <= |w.pool.bytes| && limit >= 1 && budget >= n + 1
    requires Leads(w, es, limit, budget, Advanced(w, n), n)
    ensures Leads(w, es + [Open(1)] + [Commit(1)] + [Close], limit, budget, Advanced(w, n + 1), n + 1)
  {
    var w0 := Advanced(w, n);
    var p := w0.pool.(inUse := true);
    var span := Reservation(p.offset, |p.bytes| - p.offset, 0);
    var w1 := Writer(p, Some(span), 1);
    var w2 := Writer(p.(offset := p.offset + 1), Some(span.(committed := 1)), 1);
    OneMore(w, es, limit, budget, w0, n, Open(1));
    OneMore(w, es + [Open(1)], limit, budget, w1, n, Commit(1));
    OneMore(w, es + [Open(1)] + [Commit(1)], limit, budget, w2, n, Close);
  }

  lemma {:induction false} BytesGoOn(w: Writer, n: nat, limit: nat, budget: nat)
    requires w == Advanced(w, 0) && !w.pool.inUse && w.pool.offset + n <= |w.pool.bytes|
    requires limit >= 1 && budget >= n
    ensures Leads(w, OneByteMessages(n), limit, budget, Advanced(w, n), n)
  {
    if n > 0 {
      BytesGoOn(w, n - 1, limit, budget);
      OneByteMore(w, OneByteMessages(n - 1), n - 1, limit, budget);
    }
  }

  /** The state and the run that show the bound cannot be raised: the message sits at `M - 1`, one-byte
      messages follow until `M - 1` bytes are left, and a request of `M` starts over at 0. */
  function TightStart(size: nat, s: nat, limit: nat): Writer
    requires limit >= 1
  {
    Writer(Pool(seq(size, i => 0), limit - 1 + s, false), None, 0)
  }

  function TightRun(size: nat, s: nat, limit: nat): seq<Event>
    requires limit >= 1 && size >= s + 2 * (limit - 1)
  {
    OneByteMessages(size - s - 2 * (limit - 1)) + [Open(limit)] + [Store(limit - 1, [1])]
  }

  /** The last request of the run finds `M - 1` bytes left and starts over. */
  lemma TightWraps(size: nat, s: nat, limit: nat, n: nat)
    requires s >= 1 && limit >= 1 && size == n + s + 2 * (limit - 1)
    ensures
      var w := TightStart(size, s, limit);
      Step(Advanced(w, n), Open(limit))
      == Writer(Pool(w.pool.bytes, 0, true), Some(Reservation(0, size, 0)), limit)
  {
  }

  lemma TightRunOverwrites(size: nat, s: nat, limit: nat)
    requires s >= 1 && limit >= 1 && size >= s + 2 * (limit - 1)
    ensures
      var w, es := TightStart(size, s, limit), TightRun(size, s, limit);
      && Behaved(w, es, limit) && Within(w, es, size - s - (limit - 1) + 1)
      && Run(w, es).pool == Write(Pool(w.pool.bytes, 0, true), limit - 1, [1])
  {
    var w := TightStart(size, s, limit);
    var n := size - s - 2 * (limit - 1);
    var budget := size - s - (limit - 1) + 1;
    BytesGoOn(w, n, limit, budget);
    TightWraps(size, s, limit, n);
    var es, w0 := OneByteMessages(n), Advanced(w, n);
    var w1 := Writer(Pool(w.pool.bytes, 0, true), Some(Reservation(0, size, 0)), limit);
    OneMore(w, es, limit, budget, w0, n, Open(limit));
    assert Leads(w, es + [Open(limit)], limit, budget, w1, n);
    OneMore(w, es + [Open(limit)], limit, budget, w1, n, Store(limit - 1, [1]));
  }

  /** One byte more than the bound, and the message can be overwritten. */
  lemma RetentionIsTight(size: nat, s: nat, limit: nat)
    requires s >= 1 && limit >= 1 && size >= s + 2 * (limit - 1)
    ensures
      var w, es, a := TightStart(size, s, limit), TightRun(size, s, limit), limit - 1;
      && w.span.None? && !w.pool.inUse && w.pool.offset == a + s <= |w.pool.bytes|
      && Behaved(w, es, limit) && Within(w, es, size - s - (limit - 1) + 1)
      && |Run(w, es).pool.bytes| == size && Run(w, es).pool.bytes[a..a + s] != w.pool.bytes[a..a + s]
  {
    TightRunOverwrites(size, s, limit);
    var before := TightStart(size, s, limit).pool.bytes;
    var bytes := Run(TightStart(size, s, limit), TightRun(size, s, limit)).pool.bytes;
    assert bytes[limit - 1] == 1;
    assert bytes[limit - 1..limit - 1 + s][0] == 1 && before[limit - 1..limit - 1 + s][0] == 0;
  }
}
