/** The defragmentator as the object it is, call by call the same as `Reassembly.Process`. */
module Defragmentator {
  import opened BitSet
  import opened Cursors
  import opened MemoryPool
  import opened Options
  import opened Reassembly
  import opened Ring
  import opened UdpFrames

  class FrameState {
    const scope: WriterScope
    const receivedChunks: FastBitSet
    var lastActivity: nat
    var receivedCount: nat

    ghost function Repr(): set<object> {
      {this, scope, scope.span, receivedChunks, receivedChunks.tree}
    }

    ghost predicate Valid(buffer: CyclicBuffer)
      reads Repr()
    {
      && scope.parent == buffer && scope.span.parent == buffer.memory
      && receivedChunks.Valid()
    }

    ghost function State(): Frame
      reads Repr()
    {
      Frame(scope.State(), receivedChunks.Bits(), receivedChunks.numBits, lastActivity, receivedCount)
    }

    constructor (scope: WriterScope, receivedChunks: FastBitSet)
      ensures this.scope == scope && this.receivedChunks == receivedChunks
      ensures lastActivity == 0 && receivedCount == 0
    {
      this.scope, this.receivedChunks, lastActivity, receivedCount := scope, receivedChunks, 0, 0;
    }

    /** The bookkeeping of `writeChunk`. */
    method MarkChunk(h: Header) returns (ok: bool)
      requires Valid(scope.parent)
      modifies this, receivedChunks.tree
      ensures Valid(scope.parent) && ok == (h.sequence < receivedChunks.numBits)
      ensures State() == if ok then Mark(old(State()), h) else old(State())
    {
      ok := receivedChunks.SetBit(h.sequence);
      if ok {
        receivedCount := (receivedCount + 1) % SEQUENCES;
        lastActivity := h.created;
      }
    }

    /** `writeChunk`; false is the exception of the bit set, thrown after the copy. */
    method WriteChunk(maxPayloadSize: nat, d: Datagram) returns (ok: bool)
      requires Valid(scope.parent) && scope.parent.Valid()
      requires FitsAt(scope.parent.memory.State(), scope.span.start, maxPayloadSize, d)
      modifies this, receivedChunks.tree, scope.parent.memory.buffer
      ensures Valid(scope.parent) && scope.parent.Valid()
      ensures ok == (d.header.sequence < receivedChunks.numBits)
      ensures State() == if ok then Mark(old(State()), d.header) else old(State())
      ensures scope.parent.State() == FillScope(old(scope.parent.State()), old(scope.State()),
                                                ChunkStart(d.header.sequence, maxPayloadSize), d.data)
    {
      scope.Fill(ChunkStart(d.header.sequence, maxPayloadSize), d.data);
      ok := MarkChunk(d.header);
    }

    /** `processFrameFragment` up to the commit; the callers destroy a frame that is complete. */
    method Arrive(maxPayloadSize: nat, d: Datagram) returns (outcome: Outcome)
      requires Valid(scope.parent) && scope.parent.Valid() && Holds(State(), scope.parent.State().pool)
      requires FitsAt(scope.parent.memory.State(), scope.span.start, maxPayloadSize, d)
      modifies this, receivedChunks.tree, scope.span, scope.parent.memory, scope.parent.memory.buffer
      ensures Valid(scope.parent) && scope.parent.Valid()
      ensures (scope.parent.State(), State(), outcome)
              == Reassembly.Arrive(old(scope.parent.State()), old(State()), maxPayloadSize, d)
    {
      var inRange, bit := receivedChunks.GetBit(d.header.sequence);
      if !inRange { return Threw; }
      if bit { return Returned(false); }
      var ok := WriteChunk(maxPayloadSize, d);
      ghost var marked := State();
      var complete := receivedChunks.IsComplete();
      assert State() == marked;
      if !complete { return Returned(false); }
      ok := scope.Commit(d.header.size);
      return if ok then Returned(true) else Threw;
    }
  }

  class UdpFrameDefragmentator {
    const buffer: CyclicBuffer
    const maxPayloadSize: nat
    var currentFrame: FrameState?
    var previousFrame: FrameState?
    var currentFrameCreated: nat
    var previousFrameCreated: nat
    var nextFrameMessages: nat
    ghost var footprint: set<object>

    ghost function FrameRepr(f: FrameState?): set<object> {
      if f == null then {} else f.Repr()
    }

    ghost function Repr(): set<object>
      reads this
    {
      {this} + buffer.Repr() + FrameRepr(currentFrame) + FrameRepr(previousFrame)
    }

    ghost function FrameValue(f: FrameState?): Option<Frame>
      reads FrameRepr(f)
    {
      if f == null then None else Some(f.State())
    }

    ghost function State(): Receiver
      reads Repr()
    {
      Receiver(buffer.State(), FrameValue(currentFrame), FrameValue(previousFrame),
               currentFrameCreated, previousFrameCreated, nextFrameMessages)
    }

    /** The frames and the buffer are separate objects. */
    ghost predicate Shape()
      reads Repr()
    {
      && maxPayloadSize > 0 && buffer.Valid()
      && (currentFrame != null ==> currentFrame.Valid(buffer))
      && (previousFrame != null ==> previousFrame.Valid(buffer))
    }

    ghost predicate Ready()
      reads Repr()
    {
      Shape() && OneFrame(State())
    }

    ghost predicate Valid()
      reads this, footprint
    {
      this in footprint && Repr() <= footprint && Ready()
    }

    constructor (buffer: CyclicBuffer, mtu: nat)
      requires buffer.Valid() && !buffer.memory.inUse && mtu > HEADER_SIZE
      ensures Valid() && footprint == {this} + buffer.Repr()
      ensures this.buffer == buffer && maxPayloadSize == mtu - HEADER_SIZE
      ensures State() == Fresh(buffer.State())
    {
      this.buffer, maxPayloadSize := buffer, mtu - HEADER_SIZE;
      currentFrame, previousFrame := null, null;
      currentFrameCreated, previousFrameCreated, nextFrameMessages := 0, 0, 0;
      footprint := {this} + buffer.Repr();
    }

    /** A datagram that holds its whole message. */
    method TakeWhole(d: Datagram) returns (outcome: Outcome)
      requires Ready() && d.header.size == |d.data| && buffer.nextIndex + 1 < WORD
      modifies buffer.Repr()
      ensures Shape() && footprint == old(footprint)
      ensures fresh(Repr() - old(Repr()))
      ensures (State(), outcome) == Reassembly.TakeWhole(old(State()), d)
    {
      var scope := buffer.WriteScope(d.header.size, d.header.kind);
      if scope == null { return Threw; }
      scope.Fill(0, d.data);
      var ok := scope.Commit(d.header.size);
      scope.Dispose();
      return Returned(true);
    }

    /** The destructor of a scope; the frames stay as they are. */
    method Close(scope: WriterScope)
      requires Shape() && buffer.nextIndex + 1 < WORD
      requires scope.parent == buffer && scope.span.parent == buffer.memory
      modifies buffer.Repr()
      ensures Shape()
      ensures State() == old(State()).(buffer := CloseScope(old(buffer.State()), old(scope.State())))
    {
      scope.Dispose();
    }

    /** The previous frame, complete, closes its scope and goes. */
    method FinishPrevious()
      requires Shape() && previousFrame != null && buffer.nextIndex + 1 < WORD
      modifies this`previousFrame, buffer.Repr()
      ensures Shape() && previousFrame == null
      ensures State() == old(State()).(buffer := CloseScope(old(buffer.State()), old(previousFrame.scope.State())),
                                       previous := None)
    {
      var scope := previousFrame.scope;
      previousFrame := null;
      Close(scope);
    }

    /** A fragment of the frame set aside; when that one is open there is no current frame to reset. */
    method TakePrevious(d: Datagram) returns (outcome: Outcome)
      requires Ready() && previousFrame != null && buffer.nextIndex + 1 < WORD
      requires FitsAt(buffer.memory.State(), previousFrame.scope.span.start, maxPayloadSize, d)
      modifies Repr()
      ensures Shape() && footprint == old(footprint)
      ensures fresh(Repr() - old(Repr()))
      ensures (State(), outcome) == Reassembly.TakePrevious(old(State()), maxPayloadSize, d)
    {
      outcome := previousFrame.Arrive(maxPayloadSize, d);
      if outcome == Returned(true) { FinishPrevious(); }
    }

    /** The current frame, complete, closes its scope and goes. */
    method FinishCurrent()
      requires Shape() && currentFrame != null && buffer.nextIndex + 1 < WORD
      modifies this`currentFrame, buffer.Repr()
      ensures Shape() && currentFrame == null
      ensures State() == old(State()).(buffer := CloseScope(old(buffer.State()), old(currentFrame.scope.State())),
                                       current := None)
    {
      var scope := currentFrame.scope;
      currentFrame := null;
      Close(scope);
    }

    method TakeCurrent(d: Datagram) returns (outcome: Outcome)
      requires Ready() && currentFrame != null && buffer.nextIndex + 1 < WORD
      requires FitsAt(buffer.memory.State(), currentFrame.scope.span.start, maxPayloadSize, d)
      modifies Repr()
      ensures Shape() && footprint == old(footprint)
      ensures fresh(Repr() - old(Repr()))
      ensures (State(), outcome) == Reassembly.TakeCurrent(old(State()), maxPayloadSize, d)
    {
      outcome := currentFrame.Arrive(maxPayloadSize, d);
      if outcome == Returned(true) { FinishCurrent(); }
    }

    /** The frame of a scope just opened; a frame of no chunks throws: `null`. */
    method NewFrame(scope: WriterScope, size: nat) returns (f: FrameState?)
      requires maxPayloadSize > 0 && scope.parent == buffer && scope.span.parent == buffer.memory
      ensures f == null <==> ChunkCount(size, maxPayloadSize) == 0
      ensures f != null ==>
                && fresh(f) && fresh(f.receivedChunks) && fresh(f.receivedChunks.tree)
                && f.scope == scope && f.Valid(buffer)
                && f.State() == Frame(scope.State(), {}, ChunkCount(size, maxPayloadSize), 0, 0)
    {
      var chunks := FastBitSet.Create(ChunkCount(size, maxPayloadSize));
      if chunks == null { return null; }
      f := new FrameState(scope, chunks);
    }

    /** The new frame with its first chunk. */
    method FirstChunk(scope: WriterScope, d: Datagram) returns (f: FrameState?, ok: bool)
      requires maxPayloadSize > 0 && buffer.Valid()
      requires scope.parent == buffer && scope.span.parent == buffer.memory
      requires FitsAt(buffer.memory.State(), scope.span.start, maxPayloadSize, d)
      modifies buffer.memory.buffer
      ensures buffer.Valid() && (f == null <==> ChunkCount(d.header.size, maxPayloadSize) == 0)
      ensures f == null ==> buffer.State() == old(buffer.State())
      ensures f != null ==>
                && fresh(f) && fresh(f.receivedChunks) && fresh(f.receivedChunks.tree)
                && f.scope == scope && f.Valid(buffer)
      ensures f != null ==>
                var chunks := ChunkCount(d.header.size, maxPayloadSize);
                var empty := Frame(scope.State(), {}, chunks, 0, 0);
                && ok == (d.header.sequence < chunks)
                && f.State() == (if ok then Mark(empty, d.header) else empty)
                && buffer.State() == FillScope(old(buffer.State()), scope.State(),
                                               ChunkStart(d.header.sequence, maxPayloadSize), d.data)
    {
      ok := false;
      f := NewFrame(scope, d.header.size);
      if f != null {
        ok := f.WriteChunk(maxPayloadSize, d);
      }
    }

    /** The new frame becomes the current one. */
    method Install(frame: FrameState, created: nat)
      requires Shape() && frame.Valid(buffer)
      modifies this`currentFrame, this`currentFrameCreated
      ensures Shape() && currentFrame == frame
      ensures State() == old(State()).(current := Some(frame.State()), currentCreated := created)
    {
      currentFrame := frame;
      currentFrameCreated := created;
    }

    /** `initializeNewFrame` from the constructor of the frame on. */
    method OpenFrame(scope: WriterScope, d: Datagram) returns (outcome: Outcome)
      requires Shape() && currentFrame == null && buffer.nextIndex + 1 < WORD
      requires scope.parent == buffer && scope.span.parent == buffer.memory
      requires FitsAt(buffer.memory.State(), scope.span.start, maxPayloadSize, d)
      requires scope !in FrameRepr(previousFrame) && scope.span !in FrameRepr(previousFrame)
      modifies this, buffer.Repr()
      ensures Shape() && footprint == old(footprint) && previousFrame == old(previousFrame)
      ensures currentFrame != null ==>
                && currentFrame.scope == scope && fresh(currentFrame)
                && fresh(currentFrame.receivedChunks) && fresh(currentFrame.receivedChunks.tree)
      ensures (State(), outcome) == Reassembly.OpenFrame(old(State()), old(scope.State()), maxPayloadSize, d)
    {
      var frame, ok := FirstChunk(scope, d);
      if frame == null {
        Close(scope);
        return Threw;
      }
      Install(frame, d.header.created);
      return if ok then Returned(false) else Threw;
    }

    /** `initializeNewFrame`. */
    method StartFrame(d: Datagram) returns (outcome: Outcome)
      requires Shape() && currentFrame == null && buffer.nextIndex + 1 < WORD
      requires var (b, scope) := OpenScope(buffer.State(), d.header.size, d.header.kind);
               scope.Some? ==> FitsAt(b.pool, scope.value.span.start, maxPayloadSize, d)
      modifies this, buffer.Repr()
      ensures Shape() && footprint == old(footprint) && previousFrame == old(previousFrame)
      ensures currentFrame != null ==>
                && fresh(currentFrame) && fresh(currentFrame.scope) && fresh(currentFrame.scope.span)
                && fresh(currentFrame.receivedChunks) && fresh(currentFrame.receivedChunks.tree)
      ensures (State(), outcome) == Reassembly.StartFrame(old(State()), maxPayloadSize, d)
    {
      var scope := buffer.WriteScope(d.header.size, d.header.kind);
      if scope == null { return Threw; }
      outcome := OpenFrame(scope, d);
    }

    /** The current frame becomes the previous one; there is no other to be dropped. */
    method SetAside()
      requires Ready()
      modifies this
      ensures Shape() && footprint == old(footprint) && currentFrame == null
      ensures State() == Reassembly.SetAside(old(State()))
      ensures previousFrame == if old(currentFrame) != null then old(currentFrame) else old(previousFrame)
    {
      if currentFrame != null {
        previousFrame, currentFrame := currentFrame, null;
        previousFrameCreated := currentFrameCreated;
        nextFrameMessages := 1;
      }
    }

    method TakeNew(d: Datagram) returns (outcome: Outcome)
      requires Ready() && buffer.nextIndex + 1 < WORD
      requires var (b, scope) := OpenScope(Reassembly.SetAside(State()).buffer, d.header.size, d.header.kind);
               scope.Some? ==> FitsAt(b.pool, scope.value.span.start, maxPayloadSize, d)
      modifies Repr()
      ensures Shape() && footprint == old(footprint)
      ensures fresh(Repr() - old(Repr()))
      ensures (State(), outcome)
              == Reassembly.StartFrame(Reassembly.SetAside(old(State())), maxPayloadSize, d)
    {
      SetAside();
      outcome := StartFrame(d);
    }

    method TakeOld(d: Datagram)
      requires Ready()
      modifies this
      ensures Shape() && footprint == old(footprint)
      ensures fresh(Repr() - old(Repr())) && State() == Reassembly.TakeOld(old(State()), d)
    {
      if currentFrame != null && d.header.created > previousFrameCreated {
        nextFrameMessages := (nextFrameMessages + 1) % SEQUENCES;
        if nextFrameMessages > MAX_NEXT_FRAME_MESSAGES && previousFrame != null {
          assert false;
        }
      }
    }

    /** `ProcessFragment`, on the frames. */
    method Dispatch(d: Datagram) returns (outcome: Outcome)
      requires Ready() && buffer.nextIndex + 1 < WORD && CopyFits(State(), maxPayloadSize, d)
      modifies Repr()
      ensures Ready() && fresh(Repr() - old(Repr())) && footprint == old(footprint)
      ensures buffer.nextIndex <= old(buffer.nextIndex) + 1
      ensures (State(), outcome) == Process(old(State()), maxPayloadSize, d)
    {
      ghost var before := State();
      StepKeepsOneFrame(before, maxPayloadSize, d);
      if d.header.size == |d.data| {
        outcome := TakeWhole(d);
      } else if previousFrame != null && d.header.created == previousFrameCreated {
        outcome := TakePrevious(d);
      } else if currentFrame != null && d.header.created == currentFrameCreated {
        outcome := TakeCurrent(d);
      } else if d.header.created > currentFrameCreated {
        outcome := TakeNew(d);
      } else {
        TakeOld(d);
        outcome := Returned(false);
      }
    }

    /** `ProcessFragment`. */
    method ProcessFragment(d: Datagram) returns (outcome: Outcome)
      requires Valid() && buffer.nextIndex + 1 < WORD && CopyFits(State(), maxPayloadSize, d)
      modifies footprint
      ensures Valid() && fresh(footprint - old(footprint)) && buffer.nextIndex <= old(buffer.nextIndex) + 1
      ensures (State(), outcome) == Process(old(State()), maxPayloadSize, d)
    {
      outcome := Dispatch(d);
      ghost var r := State();
      footprint := footprint + Repr();
      assert State() == r;
    }
  }
}
