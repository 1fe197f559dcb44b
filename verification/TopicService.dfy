/** One topic: the publish thread, the dispatcher thread and the subscribed clients.

    Every access to shared memory is one action, and any thread may act next.  The bag and the ID pool
    appear as the atomic structures that the modules ConcurrentBag and IdPool prove them to be (StepIsAtomic
    in each): a push and a successful remove take effect in one action, an iteration yields the bag as it
    was when the iteration began, a remove may fail, and renting takes some free ID. */
module TopicService {
  import opened Chains
  import opened Cursors
  import opened Options

  /** The number of slots, IDs and bag nodes. */
  const SLOTS := 256

  /** A slot of the subscribers table in shared memory. */
  datatype Slot = Slot(nextIndex: nat, notified: nat, pendingRemove: bool, active: bool, pid: nat)

  /** A bag entry: the semaphore of one subscription, counted in the order of creation, and its slot. */
  datatype Subscription = Subscription(sem: nat, index: nat)

  /** The code as it is, whose `Close` sets the index of the entry it is called on to -1, or the code as
      it is meant, where the index survives. */
  datatype Code = Written | Intended

  /** `NotifyAll` and what surrounds it; `rest` is what the iteration has still to yield, `gone` is the
      array `toRemove`, and `id` is `s.Index` after `s.Close()`. */
  datatype Publisher =
    | Quiet
    | Bump
    | Begin
    | Check(rest: seq<Subscription>, gone: seq<Subscription>)
    | Count(rest: seq<Subscription>, gone: seq<Subscription>)
    | LoadNext(rest: seq<Subscription>, gone: seq<Subscription>)
    | StoreNext(rest: seq<Subscription>, gone: seq<Subscription>, start: nat)
    | Release(rest: seq<Subscription>, gone: seq<Subscription>)
    | Remove(gone: seq<Subscription>)
    | ClearPending(sub: Subscription, id: int, gone: seq<Subscription>)
    | ClearActive(sub: Subscription, id: int, gone: seq<Subscription>)
    | GiveBack(sub: Subscription, id: int, gone: seq<Subscription>)

  /** `Subscribe` and `Unsubscribe`; `field` counts the stores of `Reset`. */
  datatype Dispatcher =
    | Waiting
    | Reset(index: nat, pid: nat, field: nat)
    | Create(index: nat, pid: nat)
    | Push(sub: Subscription)
    | MatchPid(sem: nat)
    | SetPending(sem: nat)

  datatype Reading = Resting | FirstLoad | Trying(failed: nat) | Reading | Failed

  /** One read: the index the cursor stood on, the history index of the message found in the ring slot,
      and whether fewer than `capacity` messages had been published from that index on. */
  datatype Read = Read(index: nat, found: int, intact: bool)

  /** The client side of a subscription. */
  datatype Client = Client(
    index: nat, pid: nat, open: bool, asked: bool,
    cursor: Option<nat>, point: Reading, log: seq<Read>)

  /** `permits[k]` is the semaphore of the k-th subscription and `clients[k]` its reader.
      `ring[i]` names the message last written to entry `i` by its place in the history. */
  datatype Topic = Topic(
    code: Code, ring: seq<int>, nextIndex: nat,
    free: set<nat>, bag: seq<Subscription>, slots: seq<Slot>,
    permits: seq<nat>, clients: seq<Client>,
    publisher: Publisher, dispatcher: Dispatcher)

  datatype Action =
    | Publish
    | PublisherStep(choice: bool)
    | Subscribe(index: nat, pid: nat)
    | Unsubscribe(sem: nat)
    | DispatcherStep(spurious: bool)
    | Acquire(sem: nat)
    | ClientStep(sem: nat)
    | Close(sem: nat)

  function Ids(n: nat): (r: set<nat>)
    ensures forall i: nat :: i in r <==> i < n
    ensures |r| == n
  {
    if n == 0 then {} else assert n - 1 !in Ids(n - 1); Ids(n - 1) + {n - 1}
  }

  function Init(capacity: nat, code: Code): Topic
    requires capacity > 0
  {
    var slots := seq(SLOTS, i => Slot(0, 0, false, false, 0));
    Topic(code, seq(capacity, i => -1), 0, Ids(|slots|), [], slots, [], [], Quiet, Waiting)
  }

  function Continue(rest: seq<Subscription>, gone: seq<Subscription>): Publisher {
    if rest == [] then Remove(gone) else Check(rest, gone)
  }

  // ---- the publisher --------------------------------------------------------------------------

  /** The slot of the subscription being notified. */
  predicate Current(s: Topic) {
    && (s.publisher.Check? || s.publisher.Count? || s.publisher.LoadNext? || s.publisher.StoreNext?
        || s.publisher.Release?)
    && s.publisher.rest != []
    && s.publisher.rest[0].index < |s.slots|
  }

  function SetSlot(s: Topic, i: nat, d: Slot): Topic
    requires i < |s.slots|
  {
    s.(slots := s.slots[i := d])
  }

  /** The committed message goes into its ring entry before the index is bumped. */
  function PublishAction(s: Topic): Topic
    requires |s.ring| > 0
  {
    if s.publisher.Quiet? && s.nextIndex + 2 < WORD
    then s.(ring := s.ring[s.nextIndex % |s.ring| := s.nextIndex], publisher := Bump)
    else s
  }

  function NotifyStep(s: Topic): Topic
    requires Current(s)
  {
    var rest, gone := s.publisher.rest, s.publisher.gone;
    var i := rest[0].index;
    var d := s.slots[i];
    match s.publisher
    case Check(_, _) =>
      if d.pendingRemove then s.(publisher := Continue(rest[1..], gone + [rest[0]]))
      else s.(publisher := Count(rest, gone))
    case Count(_, _) =>
      SetSlot(s, i, d.(notified := d.notified + 1))
      .(publisher := if d.notified == 0 then LoadNext(rest, gone) else Release(rest, gone))
    case LoadNext(_, _) => s.(publisher := StoreNext(rest, gone, Minus(s.nextIndex, 1)))
    case StoreNext(_, _, start) =>
      SetSlot(s, i, d.(nextIndex := start)).(publisher := Release(rest, gone))
    case Release(_, _) =>
      var k := rest[0].sem;
      (if k < |s.permits| then s.(permits := s.permits[k := s.permits[k] + 1]) else s)
      .(publisher := Continue(rest[1..], gone))
    case _ => s
  }

  /** The index an entry has after `Close`. */
  function IndexAfterClose(code: Code, sub: Subscription): int {
    if code.Written? then -1 else sub.index
  }

  /** `choice` says whether a remove finds its entry. */
  function PublisherAction(s: Topic, choice: bool): Topic {
    match s.publisher
    case Quiet => s
    case Bump => s.(nextIndex := s.nextIndex + 1, publisher := Begin)
    case Begin => s.(publisher := Continue(s.bag, []))
    case Remove(gone) =>
      if gone == [] then s.(publisher := Quiet)
      else
        var sub, more := gone[|gone| - 1], gone[..|gone| - 1];
        if choice && sub in s.bag
        then s.(bag := Without(s.bag, sub), publisher := ClearPending(sub, IndexAfterClose(s.code, sub), more))
        else s.(publisher := Remove(more))
    case ClearPending(sub, id, gone) =>
      (if sub.index < |s.slots|
       then SetSlot(s, sub.index, s.slots[sub.index].(pendingRemove := false)) else s)
      .(publisher := ClearActive(sub, id, gone))
    case ClearActive(sub, id, gone) =>
      (if sub.index < |s.slots|
       then SetSlot(s, sub.index, s.slots[sub.index].(active := false)) else s)
      .(publisher := GiveBack(sub, id, gone))
    case GiveBack(sub, id, gone) =>
      (if id >= 0 then s.(free := s.free + {id}) else s).(publisher := Remove(gone))
    case _ => if Current(s) then NotifyStep(s) else s
  }

  // ---- the dispatcher -------------------------------------------------------------------------

  function ResetField(d: Slot, field: nat, pid: nat): Slot {
    if field == 0 then d.(pid := pid)
    else if field == 1 then d.(notified := 0)
    else if field == 2 then d.(active := true)
    else d.(pendingRemove := false)
  }

  function DispatcherAction(s: Topic, spurious: bool): Topic {
    match s.dispatcher
    case Waiting => s
    case Reset(i, pid, field) =>
      (if i < |s.slots| then SetSlot(s, i, ResetField(s.slots[i], field, pid)) else s)
      .(dispatcher := if field < 3 then Reset(i, pid, field + 1) else Create(i, pid))
    case Create(i, pid) =>
      s.(permits := s.permits + [0],
         clients := s.clients + [Client(i, pid, false, false, None, Resting, [])],
         dispatcher := Push(Subscription(|s.permits|, i)))
    case Push(sub) =>
      s.(bag := [sub] + s.bag, dispatcher := Waiting,
         clients := if sub.sem < |s.clients|
                    then s.clients[sub.sem := s.clients[sub.sem].(open := true)] else s.clients)
    case MatchPid(k) =>
      if k < |s.clients| && s.clients[k].index < |s.slots|
         && s.slots[s.clients[k].index].pid == s.clients[k].pid
      then s.(dispatcher := SetPending(k)) else s.(dispatcher := Waiting)
    case SetPending(k) =>
      if k < |s.clients| && s.clients[k].index < |s.slots| && !spurious
      then SetSlot(s, s.clients[k].index, s.slots[s.clients[k].index].(pendingRemove := true))
           .(dispatcher := Waiting)
      else s.(dispatcher := Waiting)
  }

  // ---- the clients ----------------------------------------------------------------------------

  function SetClient(s: Topic, k: nat, c: Client): Topic
    requires k < |s.clients|
  {
    s.(clients := s.clients[k := c])
  }

  /** The read that is logged: what stands in the ring entry of index `i`. */
  function ReadAt(ring: seq<int>, i: nat, next: nat): Read
    requires |ring| > 0
  {
    Read(i, ring[i % |ring|], next - i < |ring|)
  }

  function ClientAction(s: Topic, k: nat): Topic
    requires k < |s.clients| && |s.ring| > 0
  {
    var c := s.clients[k];
    match c.point
    case FirstLoad =>
      if c.index < |s.slots|
      then SetClient(s, k, c.(cursor := Some(Open(s.slots[c.index].nextIndex)), point := Trying(0)))
      else s
    case Trying(failed) =>
      if c.cursor.None? then s
      else if CanRead(c.cursor.value, s.nextIndex)
      then SetClient(s, k, c.(cursor := Some(Advance(c.cursor.value)), point := Reading))
      else SetClient(s, k, c.(point := if failed < 49 then Trying(failed + 1) else Failed))
    case Reading =>
      if c.cursor.None? then s
      else
        var i := c.cursor.value;
        SetClient(s, k, c.(log := c.log + [ReadAt(s.ring, i, s.nextIndex)], point := Resting))
    case _ => s
  }

  function Step(s: Topic, a: Action): Topic
    requires |s.ring| > 0
  {
    match a
    case Publish => PublishAction(s)
    case PublisherStep(choice) => PublisherAction(s, choice)
    case Subscribe(i, pid) =>
      if s.dispatcher.Waiting? && i in s.free
      then s.(free := s.free - {i}, dispatcher := Reset(i, pid, 0)) else s
    case Unsubscribe(k) =>
      if s.dispatcher.Waiting? && k < |s.clients| && s.clients[k].asked
      then SetClient(s, k, s.clients[k].(asked := false)).(dispatcher := MatchPid(k)) else s
    case DispatcherStep(spurious) => DispatcherAction(s, spurious)
    case Acquire(k) =>
      if k < |s.clients| && k < |s.permits| && s.clients[k].open && s.clients[k].point.Resting?
         && s.permits[k] > 0
      then SetClient(s, k, s.clients[k].(point := if s.clients[k].cursor.None? then FirstLoad else Trying(0)))
           .(permits := s.permits[k := s.permits[k] - 1])
      else s
    case ClientStep(k) => if k < |s.clients| then ClientAction(s, k) else s
    case Close(k) =>
      if k < |s.clients| && s.clients[k].open && s.clients[k].point.Resting?
      then SetClient(s, k, s.clients[k].(open := false, asked := true)) else s
  }

  lemma StepKeepsRing(s: Topic, a: Action)
    requires |s.ring| > 0
    ensures |Step(s, a).ring| == |s.ring| && Step(s, a).code == s.code
  {
  }

  function Run(s: Topic, acts: seq<Action>): (r: Topic)
    requires |s.ring| > 0
    ensures |r.ring| == |s.ring| && r.code == s.code
    decreases |acts|
  {
    if acts == [] then s
    else
      var before := Run(s, acts[..|acts| - 1]);
      StepKeepsRing(before, acts[|acts| - 1]);
      Step(before, acts[|acts| - 1])
  }

  // ---- history --------------------------------------------------------------------------------

  datatype Phase = Opening | Live | Removing | Gone

  datatype Owner = InPool | Renting | Of(sem: nat) | Leaked

  /** Per subscription: permits released so far, the index stored at its first notification, the first
      message it is due, and its phase; per slot: who may write it. */
  datatype View = View(granted: seq<nat>, start: seq<nat>, due: seq<nat>, phase: seq<Phase>, owner: seq<Owner>)

  function InitView(): View {
    View([], [], [], [], seq(SLOTS, i => InPool))
  }

  /** The first message a subscription is due when its entry enters the bag: the next one, or the one
      just published if the iteration that announces it has not begun. */
  function DueAtPush(s: Topic): nat {
    if s.publisher.Begin? && s.nextIndex > 0 then s.nextIndex - 1 else s.nextIndex
  }

  function ViewPublisher(s: Topic, v: View, choice: bool): View {
    match s.publisher
    case StoreNext(rest, _, start) => if rest == [] then v else v.(start := Store(v.start, rest[0].sem, start))
    case Release(rest, _) =>
      if rest == [] || rest[0].sem >= |v.granted| then v
      else v.(granted := Store(v.granted, rest[0].sem, v.granted[rest[0].sem] + 1))
    case Remove(gone) =>
      if gone != [] && choice && gone[|gone| - 1] in s.bag
      then v.(phase := Store(v.phase, gone[|gone| - 1].sem, Removing)) else v
    case GiveBack(sub, id, _) =>
      v.(phase := Store(v.phase, sub.sem, Gone),
         owner := Store(v.owner, sub.index, if id >= 0 then InPool else Leaked))
    case _ => v
  }

  function ViewStep(s: Topic, v: View, a: Action): View {
    match a
    case PublisherStep(choice) => ViewPublisher(s, v, choice)
    case Subscribe(i, pid) =>
      if s.dispatcher.Waiting? && i in s.free then v.(owner := Store(v.owner, i, Renting)) else v
    case DispatcherStep(_) =>
      if s.dispatcher.Create? then
        View(v.granted + [0], v.start + [0], v.due + [0], v.phase + [Opening],
             Store(v.owner, s.dispatcher.index, Of(|s.permits|)))
      else if s.dispatcher.Push? then
        v.(phase := Store(v.phase, s.dispatcher.sub.sem, Live),
           due := Store(v.due, s.dispatcher.sub.sem, DueAtPush(s)))
      else v
    case _ => v
  }

  function ViewRun(s: Topic, v: View, acts: seq<Action>): View
    requires |s.ring| > 0
    decreases |acts|
  {
    if acts == [] then v
    else
      var before := acts[..|acts| - 1];
      ViewStep(Run(s, before), ViewRun(s, v, before), acts[|acts| - 1])
  }

  // ---- the invariant --------------------------------------------------------------------------

  function Rest(p: Publisher): seq<Subscription> {
    match p
    case Check(rest, _) => rest
    case Count(rest, _) => rest
    case LoadNext(rest, _) => rest
    case StoreNext(rest, _, _) => rest
    case Release(rest, _) => rest
    case _ => []
  }

  function Leavers(p: Publisher): seq<Subscription> {
    match p
    case Check(_, gone) => gone
    case Count(_, gone) => gone
    case LoadNext(_, gone) => gone
    case StoreNext(_, gone, _) => gone
    case Release(_, gone) => gone
    case Remove(gone) => gone
    case ClearPending(_, _, gone) => gone
    case ClearActive(_, _, gone) => gone
    case GiveBack(_, _, gone) => gone
    case _ => []
  }

  /** The subscription the publisher has taken out of the bag and is closing. */
  function Closing(p: Publisher): Option<Subscription> {
    match p
    case ClearPending(sub, _, _) => Some(sub)
    case ClearActive(sub, _, _) => Some(sub)
    case GiveBack(sub, _, _) => Some(sub)
    case _ => None
  }

  /** The slot the dispatcher is preparing. */
  function Preparing(d: Dispatcher): Option<nat> {
    match d
    case Reset(i, _, _) => Some(i)
    case Create(i, _) => Some(i)
    case _ => None
  }

  /** Has the notification of this round still to reach the subscription? */
  predicate Owed(p: Publisher, sub: Subscription) {
    p.Begin? || sub in Rest(p)
  }

  /** Has it been found not pending removal in this round, and its notification begun? */
  predicate Passed(p: Publisher, sub: Subscription) {
    (p.Count? || p.LoadNext? || p.StoreNext? || p.Release?) && p.rest != [] && p.rest[0] == sub
  }

  /** Has it been counted in the slot but not released? */
  predicate Counted(p: Publisher, sub: Subscription) {
    (p.LoadNext? || p.StoreNext? || p.Release?) && p.rest != [] && p.rest[0] == sub
  }

  predicate Handled(d: Dispatcher, k: nat) {
    (d.MatchPid? || d.SetPending?) && d.sem == k
  }

  ghost predicate Distinct(l: seq<Subscription>) {
    forall i, j | 0 <= i < j < |l| :: l[i] != l[j]
  }

  ghost predicate Shape(s: Topic, v: View) {
    && |s.slots| == |v.owner| == SLOTS
    && |s.permits| == |s.clients| == |v.granted| == |v.start| == |v.due| == |v.phase|
    && |s.ring| > 0
    && s.nextIndex + 1 < WORD && (s.publisher.Bump? ==> s.nextIndex + 2 < WORD)
  }

  function SubOf(s: Topic, k: nat): Subscription
    requires k < |s.clients|
  {
    Subscription(k, s.clients[k].index)
  }

  /** Every slot has one owner: the pool, the dispatcher preparing it, or one subscription. */
  ghost predicate Owned(s: Topic, v: View)
    requires Shape(s, v)
  {
    && (forall k | 0 <= k < |s.clients| :: s.clients[k].index < SLOTS)
    && (forall k | 0 <= k < |s.clients| && v.phase[k] != Gone :: v.owner[s.clients[k].index] == Of(k))
    && (forall i | 0 <= i < SLOTS && v.owner[i].Of? ::
          v.owner[i].sem < |s.clients| && s.clients[v.owner[i].sem].index == i && v.phase[v.owner[i].sem] != Gone)
    && (forall i | i in s.free :: i < SLOTS && v.owner[i] == InPool)
    && (forall i | 0 <= i < SLOTS && v.owner[i] == InPool :: i in s.free)
    && (Preparing(s.dispatcher).Some? ==>
          Preparing(s.dispatcher).value < SLOTS && v.owner[Preparing(s.dispatcher).value] == Renting)
    && (forall i | 0 <= i < SLOTS && v.owner[i] == Renting :: Preparing(s.dispatcher) == Some(i))
  }

  /** The subscription being opened is the dispatcher's, and the one being removed the publisher's. */
  ghost predicate Phased(s: Topic, v: View)
    requires Shape(s, v)
  {
    && (s.dispatcher.Push? ==>
          s.dispatcher.sub.sem < |s.clients| && s.dispatcher.sub == SubOf(s, s.dispatcher.sub.sem)
          && v.phase[s.dispatcher.sub.sem] == Opening)
    && (forall k | 0 <= k < |s.clients| && v.phase[k] == Opening :: s.dispatcher == Push(SubOf(s, k)))
    && (Closing(s.publisher).Some? ==>
          var sub := Closing(s.publisher).value;
          sub.sem < |s.clients| && sub == SubOf(s, sub.sem) && v.phase[sub.sem] == Removing
          && s.publisher.id == IndexAfterClose(s.code, sub))
    && (forall k | 0 <= k < |s.clients| && v.phase[k] == Removing :: Closing(s.publisher) == Some(SubOf(s, k)))
  }

  ghost predicate Places(s: Topic, v: View)
    requires Shape(s, v)
  {
    Owned(s, v) && Phased(s, v)
  }

  /** The bag holds exactly the live subscriptions, once each; the publisher's two lists are disjoint
      parts of it. */
  ghost predicate Listed(s: Topic, v: View)
    requires Shape(s, v)
  {
    && (forall b | b in s.bag :: b.sem < |s.clients| && b == SubOf(s, b.sem) && v.phase[b.sem] == Live)
    && (forall k | 0 <= k < |s.clients| && v.phase[k] == Live :: SubOf(s, k) in s.bag)
    && Distinct(s.bag) && Distinct(Rest(s.publisher)) && Distinct(Leavers(s.publisher))
    && (forall b | b in Rest(s.publisher) :: b in s.bag && b !in Leavers(s.publisher))
    && (forall b | b in Leavers(s.publisher) ::
          b in s.bag && b.index < |s.slots| && s.slots[b.index].pendingRemove)
  }

  /** What holds of one subscription: `d` is its slot, `c` its client. */
  ghost predicate Kept(d: Slot, c: Client, phase: Phase, counted: bool, passed: bool, owed: bool,
                       handled: bool, granted: nat, start: nat, due: nat, next: nat)
  {
    && (phase.Live? || phase.Opening? ==>
          d.active && d.pid == c.pid && d.notified == granted + (if counted then 1 else 0)
          && (granted > 0 ==> d.nextIndex == start))
    && (phase.Opening? ==> granted == 0 && !d.pendingRemove && !c.open && !c.asked)
    && (c.open || c.asked || handled ==> phase.Live? && !d.pendingRemove)
    && (handled ==> !c.open && !c.asked) && (c.asked ==> !c.open)
    && (phase.Live? && (passed || !d.pendingRemove) ==> due + granted + (if owed then 1 else 0) == next)
    && (!phase.Opening? ==> due + granted + (if owed then 1 else 0) <= next)
    && (granted > 0 ==> start == due)
  }

  ghost predicate KeptOf(s: Topic, v: View, k: nat)
    requires Shape(s, v) && k < |s.clients| && s.clients[k].index < SLOTS
  {
    Kept(s.slots[s.clients[k].index], s.clients[k], v.phase[k], Counted(s.publisher, SubOf(s, k)),
         Passed(s.publisher, SubOf(s, k)), Owed(s.publisher, SubOf(s, k)), Handled(s.dispatcher, k),
         v.granted[k], v.start[k], v.due[k], s.nextIndex)
  }

  /** What the publisher knows between its loads and stores. */
  ghost predicate Notifying(s: Topic, v: View)
    requires Shape(s, v)
  {
    var p := s.publisher;
    && (p.Check? || p.Count? || p.LoadNext? || p.StoreNext? || p.Release? || p.Begin? ==> s.nextIndex >= 1)
    && (p.Check? || p.Count? || p.LoadNext? || p.StoreNext? || p.Release? ==> p.rest != [])
    && (p.LoadNext? || p.StoreNext? ==> p.rest[0].sem < |v.granted| && v.granted[p.rest[0].sem] == 0)
    && (p.StoreNext? ==> p.start == s.nextIndex - 1)
    && (p.Release? && p.rest[0].sem < |v.granted| && v.granted[p.rest[0].sem] == 0 ==>
          v.start[p.rest[0].sem] == s.nextIndex - 1
          && p.rest[0].index < |s.slots| && s.slots[p.rest[0].index].nextIndex == s.nextIndex - 1)
  }

  /** What the dispatcher has stored into the slot it is preparing. */
  ghost predicate Prepared(d: Dispatcher, slots: seq<Slot>) {
    match d
    case Reset(i, pid, field) =>
      field <= 3 && i < |slots| && (field > 0 ==> slots[i].pid == pid)
      && (field > 1 ==> slots[i].notified == 0) && (field > 2 ==> slots[i].active)
    case Create(i, pid) =>
      i < |slots| && slots[i].pid == pid && slots[i].notified == 0 && slots[i].active
      && !slots[i].pendingRemove
    case _ => true
  }

  /** A client: every permit is unspent, spent on a finished read, or spent on the read under way; and
      the reads so far are those of `start`, `start + 1`, ... */
  ghost predicate Served(c: Client, permits: nat, granted: nat, start: nat) {
    && permits + |c.log| + (if c.point.Resting? then 0 else 1) == granted
    && !c.point.Failed? && (c.point.Trying? ==> c.point.failed == 0)
    && (!c.point.Resting? ==> c.open)
    && (c.cursor.None? <==> (c.log == [] && (c.point.Resting? || c.point.FirstLoad?)))
    && (c.cursor.Some? && (c.point.Resting? || c.point.Trying?) ==>
          c.cursor.value == Standing(start, |c.log|))
    && (c.point.FirstLoad? ==> c.cursor.None?)
    && (c.point.Reading? ==> c.cursor == Some(start + |c.log|))
    && (forall j | 0 <= j < |c.log| ::
          c.log[j].index == start + j && (c.log[j].intact ==> c.log[j].found == c.log[j].index))
  }

  /** The ring holds the last messages; the entry being overwritten is the one `capacity` back. */
  ghost predicate RingHolds(ring: seq<int>, next: nat, writing: bool) {
    && |ring| > 0
    && (forall i: nat | next < i + |ring| && i < next :: ring[i % |ring|] == i)
    && (writing ==> ring[next % |ring|] == next)
  }

  /** Which subscription is where. */
  ghost predicate Frame(s: Topic, v: View) {
    Shape(s, v) && Places(s, v) && Listed(s, v)
  }

  /** What each subscription's slot says, and what the two threads know about it. */
  ghost predicate Told(s: Topic, v: View)
    requires Frame(s, v)
  {
    && Notifying(s, v) && Prepared(s.dispatcher, s.slots)
    && (forall k | 0 <= k < |s.clients| :: KeptOf(s, v, k))
  }

  ghost predicate AllServed(s: Topic, v: View)
    requires Shape(s, v)
  {
    forall k | 0 <= k < |s.clients| :: Served(s.clients[k], s.permits[k], v.granted[k], v.start[k])
  }

  ghost predicate Inv(s: Topic, v: View) {
    && Frame(s, v) && Told(s, v) && AllServed(s, v)
    && RingHolds(s.ring, s.nextIndex, s.publisher.Bump?)
  }

  // ---- the clients' steps ---------------------------------------------------------------------

  /** The same subscriptions in the same slots, seen by the rest of the state. */
  ghost predicate SameSubs(s: Topic, s': Topic) {
    && |s'.clients| == |s.clients| && |s'.permits| == |s.permits|
    && (forall j | 0 <= j < |s.clients| ::
          s'.clients[j].index == s.clients[j].index && s'.clients[j].pid == s.clients[j].pid
          && (s'.clients[j].open || s'.clients[j].asked ==> s.clients[j].open || s.clients[j].asked)
          && (s'.clients[j].asked ==> !s'.clients[j].open))
    && s' == s.(clients := s'.clients, permits := s'.permits)
  }

  lemma SameSubsKeepPlaces(s: Topic, v: View, s': Topic)
    requires Shape(s, v) && Places(s, v) && SameSubs(s, s')
    ensures Shape(s', v) && Places(s', v)
  {
    assert forall j | 0 <= j < |s.clients| :: SubOf(s', j) == SubOf(s, j);
  }

  lemma SameSubsKeepListed(s: Topic, v: View, s': Topic)
    requires Shape(s, v) && Listed(s, v) && SameSubs(s, s')
    ensures Shape(s', v) && Listed(s', v)
  {
    assert forall j | 0 <= j < |s.clients| :: SubOf(s', j) == SubOf(s, j);
  }

  lemma SameSubsKeepKept(s: Topic, v: View, s': Topic)
    requires Shape(s, v) && Places(s, v) && SameSubs(s, s')
    requires forall k | 0 <= k < |s.clients| :: KeptOf(s, v, k)
    ensures Shape(s', v)
    ensures forall k | 0 <= k < |s'.clients| :: s'.clients[k].index < SLOTS && KeptOf(s', v, k)
  {
    forall k | 0 <= k < |s'.clients| ensures s'.clients[k].index < SLOTS && KeptOf(s', v, k) {
      assert KeptOf(s, v, k) && SubOf(s', k) == SubOf(s, k);
    }
  }

  /** A client's step touches its own record and its own semaphore, and never reopens it. */
  lemma ClientKeepsInv(s: Topic, v: View, k: nat, c: Client, permits: nat)
    requires Inv(s, v) && k < |s.clients|
    requires c.index == s.clients[k].index && c.pid == s.clients[k].pid
    requires (c.open || c.asked ==> s.clients[k].open || s.clients[k].asked) && (c.asked ==> !c.open)
    requires Served(c, permits, v.granted[k], v.start[k])
    ensures Inv(s.(clients := s.clients[k := c], permits := s.permits[k := permits]), v)
  {
    var s' := s.(clients := s.clients[k := c], permits := s.permits[k := permits]);
    assert forall j | 0 <= j < |s.clients| :: KeptOf(s, v, j) && (s.clients[j].asked ==> !s.clients[j].open);
    SameSubsKeepPlaces(s, v, s');
    SameSubsKeepListed(s, v, s');
    SameSubsKeepKept(s, v, s');
  }

  lemma AcquireKeepsInv(s: Topic, v: View, k: nat)
    requires Inv(s, v)
    ensures Inv(Step(s, Acquire(k)), v)
  {
    if Step(s, Acquire(k)) != s {
      var c := s.clients[k];
      assert Served(c, s.permits[k], v.granted[k], v.start[k]) && KeptOf(s, v, k);
      ClientKeepsInv(s, v, k, c.(point := if c.cursor.None? then FirstLoad else Trying(0)), s.permits[k] - 1);
    }
  }

  lemma CloseKeepsInv(s: Topic, v: View, k: nat)
    requires Inv(s, v)
    ensures Inv(Step(s, Close(k)), v)
  {
    if Step(s, Close(k)) != s {
      assert Served(s.clients[k], s.permits[k], v.granted[k], v.start[k]);
      assert s.permits[k := s.permits[k]] == s.permits;
      ClientKeepsInv(s, v, k, s.clients[k].(open := false, asked := true), s.permits[k]);
    }
  }

  /** A permit is only spent while its message is published, so the read never has to wait. */
  lemma PermitIsBacked(s: Topic, v: View, k: nat)
    requires Inv(s, v) && k < |s.clients| && s.clients[k].point != Resting
    ensures v.start[k] + |s.clients[k].log| < s.nextIndex
    ensures v.granted[k] > 0 && s.clients[k].index < |s.slots|
    ensures s.slots[s.clients[k].index].nextIndex == v.start[k]
  {
    assert KeptOf(s, v, k);
    assert Served(s.clients[k], s.permits[k], v.granted[k], v.start[k]);
  }

  lemma LoadIsServed(c: Client, permits: nat, granted: nat, start: nat, loaded: nat)
    requires Served(c, permits, granted, start) && c.point.FirstLoad? && loaded == start
    ensures Served(c.(cursor := Some(Open(loaded)), point := Trying(0)), permits, granted, start)
  {
  }

  /** With its message published the first try succeeds. */
  lemma TryIsServed(c: Client, permits: nat, granted: nat, start: nat, next: nat)
    requires Served(c, permits, granted, start) && c.point.Trying?
    requires start + |c.log| < next < WORD - 1
    ensures c.cursor.Some? && CanRead(c.cursor.value, next)
    ensures Served(c.(cursor := Some(Advance(c.cursor.value)), point := Reading), permits, granted, start)
  {
    CursorCounts(start, |c.log|, next);
  }

  lemma ReadIsServed(c: Client, permits: nat, granted: nat, start: nat, ring: seq<int>, next: nat, writing: bool)
    requires Served(c, permits, granted, start) && c.point.Reading? && RingHolds(ring, next, writing)
    requires start + |c.log| < next < WORD - 1
    ensures
      c.cursor.Some? && Served(c.(log := c.log + [ReadAt(ring, c.cursor.value, next)], point := Resting),
                               permits, granted, start)
  {
    CursorCounts(start, |c.log|, next);
  }

  lemma StepIsServed(s: Topic, v: View, k: nat)
    requires Inv(s, v) && k < |s.clients|
    requires s.clients[k].point.FirstLoad? || s.clients[k].point.Trying? || s.clients[k].point.Reading?
    ensures
      var c, c' := s.clients[k], ClientAction(s, k).clients[k];
      && ClientAction(s, k) == s.(clients := s.clients[k := c'])
      && c'.index == c.index && c'.pid == c.pid && c'.open == c.open && c'.asked == c.asked
      && Served(c', s.permits[k], v.granted[k], v.start[k])
  {
    var c := s.clients[k];
    assert Served(c, s.permits[k], v.granted[k], v.start[k]);
    PermitIsBacked(s, v, k);
    if c.point.FirstLoad? {
      LoadIsServed(c, s.permits[k], v.granted[k], v.start[k], s.slots[c.index].nextIndex);
    } else if c.point.Trying? {
      TryIsServed(c, s.permits[k], v.granted[k], v.start[k], s.nextIndex);
    } else {
      ReadIsServed(c, s.permits[k], v.granted[k], v.start[k], s.ring, s.nextIndex, s.publisher.Bump?);
    }
  }

  lemma ReadKeepsInv(s: Topic, v: View, k: nat)
    requires Inv(s, v) && k < |s.clients|
    ensures Inv(ClientAction(s, k), v)
  {
    var c := s.clients[k];
    assert Served(c, s.permits[k], v.granted[k], v.start[k]);
    assert s.permits[k := s.permits[k]] == s.permits;
    if c.point.FirstLoad? || c.point.Trying? || c.point.Reading? {
      StepIsServed(s, v, k);
      assert KeptOf(s, v, k);
      ClientKeepsInv(s, v, k, ClientAction(s, k).clients[k], s.permits[k]);
    }
  }

  /** A step that moves no subscription: it stores into a slot, or moves a program point along. */
  ghost predicate MovesNothing(s: Topic, s': Topic) {
    && s' == s.(slots := s'.slots, publisher := s'.publisher, dispatcher := s'.dispatcher)
    && |s'.slots| == |s.slots| && (s'.publisher.Bump? ==> s.nextIndex + 2 < WORD)
    && Closing(s'.publisher) == Closing(s.publisher)
    && (Closing(s.publisher).Some? ==> s'.publisher.id == s.publisher.id)
    && Rest(s'.publisher) == Rest(s.publisher) && Leavers(s'.publisher) == Leavers(s.publisher)
    && Preparing(s'.dispatcher) == Preparing(s.dispatcher)
    && (s.dispatcher.Push? || s'.dispatcher.Push? ==> s'.dispatcher == s.dispatcher)
    && (forall b | b in Leavers(s.publisher) && b.index < |s.slots| && s.slots[b.index].pendingRemove ::
          s'.slots[b.index].pendingRemove)
  }

  lemma FrameStays(s: Topic, v: View, s': Topic)
    requires Frame(s, v) && MovesNothing(s, s')
    ensures Frame(s', v)
  {
    assert forall k | 0 <= k < |s.clients| :: SubOf(s', k) == SubOf(s, k);
  }

  // ---- the publisher's steps ------------------------------------------------------------------

  lemma WriteEntry(ring: seq<int>, next: nat)
    requires RingHolds(ring, next, false)
    ensures RingHolds(ring[next % |ring| := next], next, true)
  {
    forall i: nat | next < i + |ring| && i < next ensures i % |ring| != next % |ring| {
      DistinctSlots(i, next, |ring|);
    }
  }

  lemma PublishKeepsInv(s: Topic, v: View)
    requires Inv(s, v)
    ensures Inv(PublishAction(s), v)
  {
    var s' := PublishAction(s);
    if s' != s {
      WriteEntry(s.ring, s.nextIndex);
      forall k | 0 <= k < |s.clients| ensures KeptOf(s', v, k) { assert KeptOf(s, v, k); }
    }
  }

  lemma BumpKeepsInv(s: Topic, v: View, choice: bool)
    requires Inv(s, v) && s.publisher.Bump?
    ensures Inv(PublisherAction(s, choice), v)
  {
    var s' := PublisherAction(s, choice);
    forall k | 0 <= k < |s.clients| ensures KeptOf(s', v, k) { assert KeptOf(s, v, k); }
  }

  lemma BegunKeepsFrame(s: Topic, v: View, choice: bool)
    requires Frame(s, v) && s.publisher.Begin?
    ensures Frame(PublisherAction(s, choice), v)
  {
    var s' := PublisherAction(s, choice);
    assert forall k | 0 <= k < |s.clients| :: SubOf(s', k) == SubOf(s, k);
  }

  lemma BeginKeepsInv(s: Topic, v: View, choice: bool)
    requires Inv(s, v) && s.publisher.Begin?
    ensures Inv(PublisherAction(s, choice), v)
  {
    var s' := PublisherAction(s, choice);
    BegunKeepsFrame(s, v, choice);
    forall k | 0 <= k < |s.clients| ensures KeptOf(s', v, k) { assert KeptOf(s, v, k); }
  }

  /** Moving past the first entry of `rest`. */
  lemma TailOf(rest: seq<Subscription>)
    requires rest != [] && Distinct(rest)
    ensures Distinct(rest[1..])
    ensures forall b :: b in rest[1..] <==> b in rest && b != rest[0]
  {
    assert rest == [rest[0]] + rest[1..];
    forall i, j | 0 <= i < j < |rest[1..]| ensures rest[1..][i] != rest[1..][j] {
      assert rest[i + 1] != rest[j + 1];
    }
    forall j | 0 <= j < |rest[1..]| ensures rest[1..][j] != rest[0] { assert rest[0] != rest[j + 1]; }
  }

  /** Appending to `toRemove`. */
  lemma AppendTo(gone: seq<Subscription>, x: Subscription)
    requires Distinct(gone) && x !in gone
    ensures Distinct(gone + [x]) && forall b :: b in gone + [x] <==> b in gone || b == x
  {
  }

  lemma SkippedKeepsPlaces(s: Topic, v: View, p: Publisher)
    requires Shape(s, v) && Places(s, v) && Closing(s.publisher) == None == Closing(p) && !p.Bump?
    ensures Shape(s.(publisher := p), v) && Places(s.(publisher := p), v)
  {
    assert forall k | 0 <= k < |s.clients| :: SubOf(s.(publisher := p), k) == SubOf(s, k);
  }

  /** An entry pending removal moves from what is left of the iteration to `toRemove`. */
  lemma SkippedKeepsListed(s: Topic, v: View, p: Publisher)
    requires Shape(s, v) && Listed(s, v) && s.publisher.Check? && Current(s) && !p.Bump?
    requires s.slots[s.publisher.rest[0].index].pendingRemove
    requires Rest(p) == s.publisher.rest[1..] && Leavers(p) == s.publisher.gone + [s.publisher.rest[0]]
    ensures Shape(s.(publisher := p), v) && Listed(s.(publisher := p), v)
  {
    var s', rest := s.(publisher := p), s.publisher.rest;
    assert rest[0] in Rest(s.publisher);
    TailOf(rest);
    AppendTo(s.publisher.gone, rest[0]);
    assert forall k | 0 <= k < |s.clients| :: SubOf(s', k) == SubOf(s, k);
  }

  lemma CheckKeepsFrame(s: Topic, v: View)
    requires Frame(s, v) && s.publisher.Check? && Current(s)
    ensures Frame(NotifyStep(s), v)
  {
    var s' := NotifyStep(s);
    if s.slots[s.publisher.rest[0].index].pendingRemove {
      SkippedKeepsPlaces(s, v, s'.publisher);
      SkippedKeepsListed(s, v, s'.publisher);
    } else {
      FrameStays(s, v, s');
    }
  }

  lemma CheckKeepsInv(s: Topic, v: View)
    requires Inv(s, v) && s.publisher.Check? && Current(s)
    ensures Inv(NotifyStep(s), v)
  {
    var s' := NotifyStep(s);
    CheckKeepsFrame(s, v);
    CheckOwes(s);
    forall k | 0 <= k < |s.clients| ensures KeptOf(s', v, k) { assert KeptOf(s, v, k); }
  }

  /** Only the entry moved to `toRemove` is no longer owed a notification. */
  lemma CheckOwes(s: Topic)
    requires s.publisher.Check? && Current(s) && Distinct(s.publisher.rest)
    ensures forall b :: Owed(NotifyStep(s).publisher, b)
              <==> Owed(s.publisher, b) && !(b == s.publisher.rest[0] && s.slots[b.index].pendingRemove)
    ensures forall b :: !Counted(NotifyStep(s).publisher, b)
    ensures forall b :: Passed(NotifyStep(s).publisher, b) ==>
              b == s.publisher.rest[0] && !s.slots[b.index].pendingRemove
  {
    TailOf(s.publisher.rest);
  }

  /** A store to the slot of one live subscription, of a field the others do not share. */
  lemma StoreKeepsOthers(s: Topic, v: View, sub: Subscription, d: Slot, p: Publisher)
    requires Frame(s, v) && Told(s, v)
    requires sub in s.bag && sub.index < |s.slots| && d.pendingRemove == s.slots[sub.index].pendingRemove
    requires Rest(p) == Rest(s.publisher) && Leavers(p) == Leavers(s.publisher)
    requires Closing(p).None? && Closing(s.publisher).None? && p.Begin? == s.publisher.Begin?
    requires forall b | b != sub :: Counted(p, b) == Counted(s.publisher, b) && Passed(p, b) == Passed(s.publisher, b)
    requires !p.Bump? && !s.publisher.Bump?
    ensures var s' := SetSlot(s, sub.index, d).(publisher := p);
            Frame(s', v) && Prepared(s'.dispatcher, s'.slots)
            && forall k | 0 <= k < |s.clients| && k != sub.sem :: KeptOf(s', v, k)
  {
    var s' := SetSlot(s, sub.index, d).(publisher := p);
    assert forall k | 0 <= k < |s.clients| :: SubOf(s', k) == SubOf(s, k);
    forall k | 0 <= k < |s.clients| && k != sub.sem ensures KeptOf(s', v, k) { assert KeptOf(s, v, k); }
  }

  lemma CountKeepsInv(s: Topic, v: View)
    requires Inv(s, v) && s.publisher.Count? && Current(s)
    ensures Inv(NotifyStep(s), v)
  {
    var s' := NotifyStep(s);
    var sub := s.publisher.rest[0];
    assert sub in s.bag && KeptOf(s, v, sub.sem);
    StoreKeepsOthers(s, v, sub, s'.slots[sub.index], s'.publisher);
    assert KeptOf(s', v, sub.sem);
  }

  lemma LoadNextKeepsInv(s: Topic, v: View)
    requires Inv(s, v) && s.publisher.LoadNext? && Current(s)
    ensures Inv(NotifyStep(s), v)
  {
    var s' := NotifyStep(s);
    MinusSmall(s.nextIndex, 1);
    forall k | 0 <= k < |s.clients| ensures KeptOf(s', v, k) { assert KeptOf(s, v, k); }
  }

  lemma StoreNextKeepsInv(s: Topic, v: View, choice: bool)
    requires Inv(s, v) && s.publisher.StoreNext? && Current(s)
    ensures Inv(NotifyStep(s), ViewPublisher(s, v, choice))
  {
    var s', v' := NotifyStep(s), ViewPublisher(s, v, choice);
    var sub := s.publisher.rest[0];
    assert sub in s.bag && KeptOf(s, v, sub.sem);
    StoreKeepsOthers(s, v, sub, s'.slots[sub.index], s'.publisher);
    StartUnused(s', v, sub.sem, s.publisher.start);
  }

  /** Before the first permit nobody relies on `start`. */
  lemma StartUnused(s: Topic, v: View, k: nat, start: nat)
    requires Frame(s, v) && AllServed(s, v) && k < |s.clients| && v.granted[k] == 0
    requires forall j | 0 <= j < |s.clients| && j != k :: KeptOf(s, v, j)
    requires Kept(s.slots[s.clients[k].index], s.clients[k], v.phase[k], Counted(s.publisher, SubOf(s, k)),
                  Passed(s.publisher, SubOf(s, k)), Owed(s.publisher, SubOf(s, k)), Handled(s.dispatcher, k),
                  0, start, v.due[k], s.nextIndex)
    ensures var v' := v.(start := v.start[k := start]);
            Frame(s, v') && AllServed(s, v') && forall j | 0 <= j < |s.clients| :: KeptOf(s, v', j)
  {
    var v' := v.(start := v.start[k := start]);
    forall j | 0 <= j < |s.clients| ensures KeptOf(s, v', j) { if j != k { assert KeptOf(s, v, j); } }
    assert Served(s.clients[k], s.permits[k], v.granted[k], v.start[k]);
  }

  lemma ReleaseKeepsFrame(s: Topic, v: View, choice: bool)
    requires Frame(s, v) && s.publisher.Release? && Current(s)
    ensures Frame(NotifyStep(s), ViewPublisher(s, v, choice))
    ensures var sub := s.publisher.rest[0];
            sub in s.bag && sub.sem < |s.clients| && s.clients[sub.sem].index == sub.index
            && v.phase[sub.sem].Live? && sub == SubOf(s, sub.sem)
  {
    TailOf(s.publisher.rest);
    assert s.publisher.rest[0] in s.publisher.rest;
  }

  lemma ReleaseKeepsKept(s: Topic, v: View, choice: bool, k: nat)
    requires Frame(s, v) && Told(s, v) && s.publisher.Release? && Current(s) && k < |s.clients|
    requires Frame(NotifyStep(s), ViewPublisher(s, v, choice))
    ensures KeptOf(NotifyStep(s), ViewPublisher(s, v, choice), k)
  {
    var s', v' := NotifyStep(s), ViewPublisher(s, v, choice);
    ReleaseKeepsFrame(s, v, choice);
    TailOf(s.publisher.rest);
    assert KeptOf(s, v, k) && SubOf(s', k) == SubOf(s, k);
    assert !Counted(s'.publisher, SubOf(s, k)) && !Passed(s'.publisher, SubOf(s, k));
    if k == s.publisher.rest[0].sem {
      assert Counted(s.publisher, SubOf(s, k)) && Passed(s.publisher, SubOf(s, k)) && Owed(s.publisher, SubOf(s, k));
      assert !Owed(s'.publisher, SubOf(s, k));
      assert v'.granted[k] == v.granted[k] + 1;
    } else {
      assert !Counted(s.publisher, SubOf(s, k));
      assert Owed(s'.publisher, SubOf(s, k)) == Owed(s.publisher, SubOf(s, k));
      assert v'.granted[k] == v.granted[k];
    }
  }

  /** The permit it posts is one the subscription was promised. */
  lemma ReleaseServes(s: Topic, v: View, choice: bool)
    requires Shape(s, v) && AllServed(s, v) && s.publisher.Release? && Current(s)
    requires s.publisher.rest[0].sem < |s.clients|
    ensures Shape(NotifyStep(s), ViewPublisher(s, v, choice))
    ensures AllServed(NotifyStep(s), ViewPublisher(s, v, choice))
  {
    var s', v' := NotifyStep(s), ViewPublisher(s, v, choice);
    forall k | 0 <= k < |s.clients|
      ensures Served(s'.clients[k], s'.permits[k], v'.granted[k], v'.start[k])
    {
      assert Served(s.clients[k], s.permits[k], v.granted[k], v.start[k]);
    }
  }

  lemma ReleaseKeepsInv(s: Topic, v: View, choice: bool)
    requires Inv(s, v) && s.publisher.Release? && Current(s)
    ensures Inv(NotifyStep(s), ViewPublisher(s, v, choice))
  {
    var s', v' := NotifyStep(s), ViewPublisher(s, v, choice);
    ReleaseKeepsFrame(s, v, choice);
    ReleaseServes(s, v, choice);
    forall k | 0 <= k < |s.clients| ensures KeptOf(s', v', k) { ReleaseKeepsKept(s, v, choice, k); }
  }

  lemma {:induction false} WithoutEntry(bag: seq<Subscription>, sub: Subscription)
    requires Distinct(bag)
    ensures Distinct(Without(bag, sub))
    ensures forall b :: b in Without(bag, sub) <==> b in bag && b != sub
  {
    if bag != [] {
      var t := bag[1..];
      TailOf(bag);
      WithoutEntry(t, sub);
      assert bag == [bag[0]] + t;
      var w := Without(bag, sub);
      if bag[0] != sub {
        assert w == [bag[0]] + Without(t, sub);
        forall i, j | 0 <= i < j < |w| ensures w[i] != w[j] {
          if i == 0 { assert w[j] == Without(t, sub)[j - 1]; assert w[j] in Without(t, sub); }
          else { assert w[i] == Without(t, sub)[i - 1] && w[j] == Without(t, sub)[j - 1]; }
        }
      }
    }
  }

  /** Dropping the last entry of `toRemove`. */
  lemma FrontOf(gone: seq<Subscription>)
    requires gone != [] && Distinct(gone)
    ensures var last := gone[|gone| - 1];
            Distinct(gone[..|gone| - 1]) && forall b :: b in gone[..|gone| - 1] <==> b in gone && b != last
  {
    assert gone == gone[..|gone| - 1] + [gone[|gone| - 1]];
  }

  lemma SkipKeepsFrame(s: Topic, v: View, choice: bool)
    requires Frame(s, v) && s.publisher.Remove?
    requires s.publisher.gone == [] || !choice || s.publisher.gone[|s.publisher.gone| - 1] !in s.bag
    ensures Frame(PublisherAction(s, choice), v)
  {
    var s' := PublisherAction(s, choice);
    if s.publisher.gone != [] { FrontOf(s.publisher.gone); }
    assert s' == s.(publisher := s'.publisher) && Rest(s'.publisher) == [] && Closing(s'.publisher) == None;
    assert forall k | 0 <= k < |s.clients| :: SubOf(s', k) == SubOf(s, k);
  }

  lemma SkipKeepsInv(s: Topic, v: View, choice: bool)
    requires Inv(s, v) && s.publisher.Remove?
    requires s.publisher.gone == [] || !choice || s.publisher.gone[|s.publisher.gone| - 1] !in s.bag
    ensures Inv(PublisherAction(s, choice), v)
  {
    var s' := PublisherAction(s, choice);
    SkipKeepsFrame(s, v, choice);
    forall k | 0 <= k < |s.clients| ensures KeptOf(s', v, k) { assert KeptOf(s, v, k); }
  }

  /** A live entry leaves the bag and is the one being closed. */
  lemma RemovedKeepsPlaces(s: Topic, v: View, sub: Subscription, s': Topic, v': View)
    requires Shape(s, v) && Places(s, v) && Closing(s.publisher).None?
    requires sub.sem < |s.clients| && sub == SubOf(s, sub.sem) && v.phase[sub.sem] == Live
    requires s' == s.(bag := s'.bag, publisher := s'.publisher) && !s'.publisher.Bump?
    requires Closing(s'.publisher) == Some(sub) && s'.publisher.id == IndexAfterClose(s.code, sub)
    requires v' == v.(phase := Store(v.phase, sub.sem, Removing))
    ensures Shape(s', v') && Places(s', v')
  {
    assert forall k | 0 <= k < |s.clients| :: SubOf(s', k) == SubOf(s, k);
  }

  lemma RemovedKeepsListed(s: Topic, v: View, sub: Subscription, s': Topic, v': View)
    requires Shape(s, v) && Listed(s, v) && Shape(s', v') && s.publisher.Remove? && sub in s.bag
    requires s'.clients == s.clients && s'.slots == s.slots && s'.bag == Without(s.bag, sub)
    requires Rest(s'.publisher) == [] && Distinct(Leavers(s'.publisher))
    requires forall b | b in Leavers(s'.publisher) :: b in s.publisher.gone && b != sub
    requires v'.phase == Store(v.phase, sub.sem, Removing)
    ensures Listed(s', v')
  {
    WithoutEntry(s.bag, sub);
    assert forall k | 0 <= k < |s.clients| :: SubOf(s', k) == SubOf(s, k);
  }

  lemma RemoveKeepsFrame(s: Topic, v: View)
    requires Frame(s, v) && s.publisher.Remove? && s.publisher.gone != []
    requires s.publisher.gone[|s.publisher.gone| - 1] in s.bag
    ensures Frame(PublisherAction(s, true), ViewPublisher(s, v, true))
  {
    var sub := s.publisher.gone[|s.publisher.gone| - 1];
    FrontOf(s.publisher.gone);
    RemovedKeepsPlaces(s, v, sub, PublisherAction(s, true), ViewPublisher(s, v, true));
    RemovedKeepsListed(s, v, sub, PublisherAction(s, true), ViewPublisher(s, v, true));
  }

  lemma RemoveKeepsInv(s: Topic, v: View)
    requires Inv(s, v) && s.publisher.Remove? && s.publisher.gone != []
    requires s.publisher.gone[|s.publisher.gone| - 1] in s.bag
    ensures Inv(PublisherAction(s, true), ViewPublisher(s, v, true))
  {
    var s', v' := PublisherAction(s, true), ViewPublisher(s, v, true);
    RemoveKeepsFrame(s, v);
    assert s.publisher.gone[|s.publisher.gone| - 1] in s.publisher.gone;
    forall k | 0 <= k < |s.clients| ensures KeptOf(s', v', k) { assert KeptOf(s, v, k); }
  }

  lemma ClosingSlot(s: Topic, v: View)
    requires Frame(s, v) && (s.publisher.ClearPending? || s.publisher.ClearActive?)
    ensures var sub := s.publisher.sub;
            && sub.index < SLOTS && v.owner[sub.index] == Of(sub.sem)
            && sub.sem < |s.clients| && v.phase[sub.sem] == Removing
            && forall b | b in s.publisher.gone :: b.index != sub.index
  {
    assert Closing(s.publisher) == Some(s.publisher.sub);
    forall b | b in s.publisher.gone ensures b.index != s.publisher.sub.index {
      assert b in Leavers(s.publisher);
    }
  }

  /** The publisher's last stores to the slot it is closing: nobody else owns the slot, so no live or
      coming subscription can lose a store of its `Reset` to them. */
  lemma ClearKeepsInv(s: Topic, v: View, choice: bool)
    requires Inv(s, v) && (s.publisher.ClearPending? || s.publisher.ClearActive?)
    ensures Inv(PublisherAction(s, choice), v)
  {
    var s' := PublisherAction(s, choice);
    ClosingSlot(s, v);
    FrameStays(s, v, s');
    forall k | 0 <= k < |s.clients| ensures KeptOf(s', v, k) { assert KeptOf(s, v, k); }
  }

  /** As written, the slot of a closed subscription has no owner any more. */
  lemma LeakKeepsPlaces(s: Topic, v: View, s': Topic, v': View, sub: Subscription)
    requires Shape(s, v) && Places(s, v) && Closing(s.publisher) == Some(sub)
    requires s' == s.(publisher := s'.publisher) && Closing(s'.publisher) == None && !s'.publisher.Bump?
    requires v' == v.(owner := Store(v.owner, sub.index, Leaked), phase := Store(v.phase, sub.sem, Gone))
    ensures Shape(s', v') && Places(s', v')
  {
    assert v.owner[sub.index] == Of(sub.sem);
    assert forall k | 0 <= k < |s.clients| :: SubOf(s', k) == SubOf(s, k);
  }

  /** As intended, it goes back to the pool. */
  lemma ReturnKeepsPlaces(s: Topic, v: View, s': Topic, v': View, sub: Subscription)
    requires Shape(s, v) && Places(s, v) && Closing(s.publisher) == Some(sub)
    requires s' == s.(publisher := s'.publisher, free := s.free + {sub.index})
    requires Closing(s'.publisher) == None && !s'.publisher.Bump?
    requires v' == v.(owner := Store(v.owner, sub.index, InPool), phase := Store(v.phase, sub.sem, Gone))
    ensures Shape(s', v') && Places(s', v')
  {
    assert v.owner[sub.index] == Of(sub.sem);
    assert forall k | 0 <= k < |s.clients| :: SubOf(s', k) == SubOf(s, k);
  }

  lemma GiveBackKeepsPlaces(s: Topic, v: View, choice: bool)
    requires Frame(s, v) && s.publisher.GiveBack?
    ensures Shape(PublisherAction(s, choice), ViewPublisher(s, v, choice))
    ensures Places(PublisherAction(s, choice), ViewPublisher(s, v, choice))
  {
    var s', v' := PublisherAction(s, choice), ViewPublisher(s, v, choice);
    assert s.publisher.id == IndexAfterClose(s.code, s.publisher.sub);
    if s.code.Written? {
      LeakKeepsPlaces(s, v, s', v', s.publisher.sub);
    } else {
      ReturnKeepsPlaces(s, v, s', v', s.publisher.sub);
    }
  }

  lemma GoneKeepsListed(s: Topic, v: View, s': Topic, v': View, sub: Subscription)
    requires Frame(s, v) && Closing(s.publisher) == Some(sub) && Shape(s', v')
    requires s'.bag == s.bag && s'.slots == s.slots && s'.clients == s.clients
    requires Rest(s'.publisher) == [] && Leavers(s'.publisher) == Leavers(s.publisher)
    requires v'.phase == Store(v.phase, sub.sem, Gone)
    ensures Listed(s', v')
  {
    assert forall k | 0 <= k < |s.clients| :: SubOf(s', k) == SubOf(s, k);
  }

  lemma GiveBackKeepsFrame(s: Topic, v: View, choice: bool)
    requires Frame(s, v) && s.publisher.GiveBack?
    ensures Frame(PublisherAction(s, choice), ViewPublisher(s, v, choice))
  {
    GiveBackKeepsPlaces(s, v, choice);
    GoneKeepsListed(s, v, PublisherAction(s, choice), ViewPublisher(s, v, choice), s.publisher.sub);
  }

  lemma GoneIsKept(s: Topic, v: View, k: nat, s': Topic, v': View)
    requires Shape(s, v) && k < |s.clients| && s.clients[k].index < SLOTS && KeptOf(s, v, k)
    requires s.publisher.GiveBack? && (k == s.publisher.sub.sem ==> v.phase[k] == Removing)
    requires Shape(s', v') && s' == s.(free := s'.free, publisher := Remove(s.publisher.gone))
    requires v' == v.(phase := Store(v.phase, s.publisher.sub.sem, Gone), owner := v'.owner)
    ensures KeptOf(s', v', k)
  {
  }

  lemma GiveBackKeepsInv(s: Topic, v: View, choice: bool)
    requires Inv(s, v) && s.publisher.GiveBack?
    ensures Inv(PublisherAction(s, choice), ViewPublisher(s, v, choice))
  {
    var s', v' := PublisherAction(s, choice), ViewPublisher(s, v, choice);
    GiveBackKeepsFrame(s, v, choice);
    assert Closing(s.publisher) == Some(s.publisher.sub);
    forall k | 0 <= k < |s.clients| ensures KeptOf(s', v', k) { GoneIsKept(s, v, k, s', v'); }
  }

  // ---- the dispatcher's steps -----------------------------------------------------------------

  lemma RentKeepsFrame(s: Topic, v: View, index: nat, pid: nat)
    requires Frame(s, v) && s.dispatcher.Waiting? && index in s.free
    ensures Frame(Step(s, Subscribe(index, pid)), ViewStep(s, v, Subscribe(index, pid)))
  {
    var s' := Step(s, Subscribe(index, pid));
    assert forall k | 0 <= k < |s.clients| :: SubOf(s', k) == SubOf(s, k);
  }

  lemma RentKeepsInv(s: Topic, v: View, index: nat, pid: nat)
    requires Inv(s, v) && s.dispatcher.Waiting? && index in s.free
    ensures Inv(Step(s, Subscribe(index, pid)), ViewStep(s, v, Subscribe(index, pid)))
  {
    var s', v' := Step(s, Subscribe(index, pid)), ViewStep(s, v, Subscribe(index, pid));
    RentKeepsFrame(s, v, index, pid);
    forall k | 0 <= k < |s.clients| ensures KeptOf(s', v', k) { assert KeptOf(s, v, k); }
  }

  lemma PreparingSlot(s: Topic, v: View)
    requires Frame(s, v) && s.dispatcher.Reset?
    ensures s.dispatcher.index < SLOTS && v.owner[s.dispatcher.index] == Renting
    ensures forall b | b in Leavers(s.publisher) :: b.index != s.dispatcher.index
  {
    assert Preparing(s.dispatcher) == Some(s.dispatcher.index);
  }

  lemma ResetKeepsFrame(s: Topic, v: View, spurious: bool)
    requires Frame(s, v) && s.dispatcher.Reset?
    ensures Frame(DispatcherAction(s, spurious), v)
  {
    PreparingSlot(s, v);
    FrameStays(s, v, DispatcherAction(s, spurious));
  }

  lemma ResetKeepsInv(s: Topic, v: View, spurious: bool)
    requires Inv(s, v) && s.dispatcher.Reset?
    ensures Inv(DispatcherAction(s, spurious), v)
  {
    var s' := DispatcherAction(s, spurious);
    PreparingSlot(s, v);
    ResetKeepsFrame(s, v, spurious);
    forall k | 0 <= k < |s.clients| ensures KeptOf(s', v, k) { assert KeptOf(s, v, k); }
  }

  /** A new subscription takes over the slot that was being prepared. */
  ghost predicate Creates(s: Topic, v: View, s': Topic, v': View, i: nat, c: Client) {
    && Preparing(s.dispatcher) == Some(i) && c.index == i
    && s' == s.(permits := s.permits + [0], clients := s.clients + [c],
                dispatcher := Push(Subscription(|s.permits|, i)))
    && v' == View(v.granted + [0], v.start + [0], v.due + [0], v.phase + [Opening],
                  Store(v.owner, i, Of(|s.permits|)))
  }

  lemma CreatedKeepsOwned(s: Topic, v: View, s': Topic, v': View, i: nat, c: Client)
    requires Shape(s, v) && Owned(s, v) && Creates(s, v, s', v', i, c)
    ensures Shape(s', v') && Owned(s', v')
  {
    assert v.owner[i] == Renting && v'.owner[i] == Of(|s.clients|);
    assert forall j | 0 <= j < SLOTS && j != i :: v'.owner[j] == v.owner[j];
  }

  lemma CreatedKeepsPhased(s: Topic, v: View, s': Topic, v': View, i: nat, c: Client)
    requires Shape(s, v) && Phased(s, v) && Creates(s, v, s', v', i, c) && Shape(s', v')
    ensures Phased(s', v')
  {
    assert forall k | 0 <= k < |s.clients| :: SubOf(s', k) == SubOf(s, k) && v'.phase[k] == v.phase[k];
    assert SubOf(s', |s.clients|) == Subscription(|s.permits|, i);
  }

  lemma CreateKeepsPlaces(s: Topic, v: View, spurious: bool)
    requires Frame(s, v) && s.dispatcher.Create?
    ensures Shape(DispatcherAction(s, spurious), ViewStep(s, v, DispatcherStep(spurious)))
    ensures Places(DispatcherAction(s, spurious), ViewStep(s, v, DispatcherStep(spurious)))
  {
    var Create(i, pid) := s.dispatcher;
    var s', v' := DispatcherAction(s, spurious), ViewStep(s, v, DispatcherStep(spurious));
    CreatedKeepsOwned(s, v, s', v', i, Client(i, pid, false, false, None, Resting, []));
    CreatedKeepsPhased(s, v, s', v', i, Client(i, pid, false, false, None, Resting, []));
  }

  lemma CreatedKeepsListed(s: Topic, v: View, s': Topic, v': View, c: Client)
    requires Shape(s, v) && Listed(s, v) && Shape(s', v')
    requires s'.clients == s.clients + [c] && v'.phase == v.phase + [Opening]
    requires s'.bag == s.bag && s'.slots == s.slots && s'.publisher == s.publisher
    ensures Listed(s', v')
  {
    assert forall k | 0 <= k < |s.clients| :: SubOf(s', k) == SubOf(s, k);
  }

  lemma CreateKeepsFrame(s: Topic, v: View, spurious: bool)
    requires Frame(s, v) && s.dispatcher.Create?
    ensures Frame(DispatcherAction(s, spurious), ViewStep(s, v, DispatcherStep(spurious)))
  {
    var Create(i, pid) := s.dispatcher;
    CreateKeepsPlaces(s, v, spurious);
    CreatedKeepsListed(s, v, DispatcherAction(s, spurious), ViewStep(s, v, DispatcherStep(spurious)),
                       Client(i, pid, false, false, None, Resting, []));
  }

  lemma OldIsKept(s: Topic, v: View, k: nat, s': Topic, v': View, c: Client)
    requires Shape(s, v) && k < |s.clients| && s.clients[k].index < SLOTS && KeptOf(s, v, k)
    requires s.dispatcher.Create? && Shape(s', v') && Creates(s, v, s', v', s.dispatcher.index, c)
    ensures KeptOf(s', v', k)
  {
  }

  /** The new one: its slot was prepared, and nothing has been announced to it. */
  lemma NewIsKept(s: Topic, v: View, s': Topic, v': View, c: Client)
    requires Shape(s, v) && s.dispatcher.Create? && Prepared(s.dispatcher, s.slots) && s.dispatcher.index < SLOTS
    requires c == Client(s.dispatcher.index, s.dispatcher.pid, false, false, None, Resting, [])
    requires Shape(s', v') && Creates(s, v, s', v', s.dispatcher.index, c)
    requires Subscription(|s.clients|, s.dispatcher.index) !in Rest(s.publisher)
    ensures KeptOf(s', v', |s.clients|)
  {
  }

  lemma CreateKeepsInv(s: Topic, v: View, spurious: bool)
    requires Inv(s, v) && s.dispatcher.Create?
    ensures Inv(DispatcherAction(s, spurious), ViewStep(s, v, DispatcherStep(spurious)))
  {
    var s', v' := DispatcherAction(s, spurious), ViewStep(s, v, DispatcherStep(spurious));
    CreateKeepsFrame(s, v, spurious);
    var Create(i, pid) := s.dispatcher;
    var c := Client(i, pid, false, false, None, Resting, []);
    forall k | 0 <= k < |s'.clients| ensures KeptOf(s', v', k) {
      if k < |s.clients| { OldIsKept(s, v, k, s', v', c); } else { NewIsKept(s, v, s', v', c); }
    }
  }

  lemma PushKeepsPlaces(s: Topic, v: View, spurious: bool)
    requires Frame(s, v) && s.dispatcher.Push?
    ensures Shape(DispatcherAction(s, spurious), ViewStep(s, v, DispatcherStep(spurious)))
    ensures Places(DispatcherAction(s, spurious), ViewStep(s, v, DispatcherStep(spurious)))
  {
    var s' := DispatcherAction(s, spurious);
    assert forall k | 0 <= k < |s.clients| :: SubOf(s', k) == SubOf(s, k);
  }

  lemma PrependTo(bag: seq<Subscription>, x: Subscription)
    requires Distinct(bag) && x !in bag
    ensures Distinct([x] + bag) && forall b :: b in [x] + bag <==> b in bag || b == x
  {
  }

  lemma PushedKeepsListed(s: Topic, v: View, s': Topic, v': View, sub: Subscription)
    requires Shape(s, v) && Listed(s, v) && Shape(s', v')
    requires sub.sem < |s.clients| && sub == SubOf(s, sub.sem) && v.phase[sub.sem] == Opening
    requires |s'.clients| == |s.clients| && forall k | 0 <= k < |s.clients| :: SubOf(s', k) == SubOf(s, k)
    requires s'.bag == [sub] + s.bag && s'.slots == s.slots && s'.publisher == s.publisher
    requires v'.phase == v.phase[sub.sem := Live]
    ensures Listed(s', v')
  {
    assert sub !in s.bag;
    PrependTo(s.bag, sub);
  }

  lemma PushKeepsListed(s: Topic, v: View, spurious: bool)
    requires Frame(s, v) && s.dispatcher.Push?
    requires Shape(DispatcherAction(s, spurious), ViewStep(s, v, DispatcherStep(spurious)))
    ensures Listed(DispatcherAction(s, spurious), ViewStep(s, v, DispatcherStep(spurious)))
  {
    PushedKeepsListed(s, v, DispatcherAction(s, spurious), ViewStep(s, v, DispatcherStep(spurious)), s.dispatcher.sub);
  }

  lemma PushKeepsFrame(s: Topic, v: View, spurious: bool)
    requires Frame(s, v) && s.dispatcher.Push?
    ensures Frame(DispatcherAction(s, spurious), ViewStep(s, v, DispatcherStep(spurious)))
  {
    PushKeepsPlaces(s, v, spurious);
    PushKeepsListed(s, v, spurious);
  }

  lemma PushedIsKept(s: Topic, v: View, k: nat, s': Topic, v': View)
    requires Shape(s, v) && k < |s.clients| && s.clients[k].index < SLOTS && KeptOf(s, v, k)
    requires s.dispatcher.Push? && (s.publisher.Begin? ==> s.nextIndex >= 1)
    requires k == s.dispatcher.sub.sem ==> v.phase[k] == Opening && SubOf(s, k) !in Rest(s.publisher)
    requires Shape(s', v') && s' == DispatcherAction(s, false)
    requires v' == v.(phase := Store(v.phase, s.dispatcher.sub.sem, Live),
                      due := Store(v.due, s.dispatcher.sub.sem, DueAtPush(s)))
    ensures KeptOf(s', v', k)
  {
  }

  lemma PushKeepsInv(s: Topic, v: View, spurious: bool)
    requires Inv(s, v) && s.dispatcher.Push?
    ensures Inv(DispatcherAction(s, spurious), ViewStep(s, v, DispatcherStep(spurious)))
  {
    var s', v' := DispatcherAction(s, spurious), ViewStep(s, v, DispatcherStep(spurious));
    PushKeepsFrame(s, v, spurious);
    forall k | 0 <= k < |s.clients| ensures KeptOf(s', v', k) { PushedIsKept(s, v, k, s', v'); }
    var k := s.dispatcher.sub.sem;
    assert Served(s.clients[k], s.permits[k], v.granted[k], v.start[k]);
  }

  lemma AskedKeepsFrame(s: Topic, v: View, k: nat, s': Topic)
    requires Frame(s, v) && s.dispatcher.Waiting? && k < |s.clients|
    requires s' == s.(clients := s.clients[k := s.clients[k].(asked := false)], dispatcher := MatchPid(k))
    ensures Frame(s', v)
  {
    assert forall j | 0 <= j < |s.clients| :: SubOf(s', j) == SubOf(s, j);
    assert Shape(s', v);
  }

  lemma AskKeepsFrame(s: Topic, v: View, k: nat)
    requires Frame(s, v)
    ensures Frame(Step(s, Unsubscribe(k)), v)
  {
    var s' := Step(s, Unsubscribe(k));
    if s' != s { AskedKeepsFrame(s, v, k, s'); }
  }

  lemma AskedIsKept(s: Topic, v: View, j: nat, k: nat, s': Topic)
    requires Shape(s, v) && j < |s.clients| && s.clients[j].index < SLOTS && KeptOf(s, v, j)
    requires k < |s.clients| && s.clients[k].asked && s.dispatcher.Waiting?
    requires s' == s.(clients := s.clients[k := s.clients[k].(asked := false)], dispatcher := MatchPid(k))
    ensures KeptOf(s', v, j)
  {
    assert SubOf(s', j) == SubOf(s, j);
  }

  lemma AskKeepsInv(s: Topic, v: View, k: nat)
    requires Inv(s, v) && Step(s, Unsubscribe(k)) != s
    ensures Inv(Step(s, Unsubscribe(k)), v)
  {
    var s' := Step(s, Unsubscribe(k));
    AskKeepsFrame(s, v, k);
    assert s' == s.(clients := s.clients[k := s.clients[k].(asked := false)], dispatcher := MatchPid(k));
    forall j | 0 <= j < |s.clients| ensures KeptOf(s', v, j) { AskedIsKept(s, v, j, k, s'); }
    assert Served(s.clients[k], s.permits[k], v.granted[k], v.start[k]);
  }

  /** The dispatcher lets go of subscriptions, or keeps to those it has. */
  lemma MatchedIsKept(s: Topic, v: View, k: nat, s': Topic)
    requires Shape(s, v) && k < |s.clients| && s.clients[k].index < SLOTS && KeptOf(s, v, k)
    requires s' == s.(dispatcher := s'.dispatcher) && (Handled(s'.dispatcher, k) ==> Handled(s.dispatcher, k))
    ensures KeptOf(s', v, k)
  {
  }

  lemma MatchKeepsInv(s: Topic, v: View, spurious: bool)
    requires Inv(s, v) && s.dispatcher.MatchPid?
    ensures Inv(DispatcherAction(s, spurious), v)
  {
    var s' := DispatcherAction(s, spurious);
    assert s' == s.(dispatcher := s'.dispatcher);
    FrameStays(s, v, s');
    forall k | 0 <= k < |s.clients| ensures KeptOf(s', v, k) { MatchedIsKept(s, v, k, s'); }
  }

  lemma PendingKeepsFrame(s: Topic, v: View, spurious: bool)
    requires Frame(s, v) && s.dispatcher.SetPending?
    ensures Frame(DispatcherAction(s, spurious), v)
  {
    FrameStays(s, v, DispatcherAction(s, spurious));
  }

  lemma PendingIsKept(s: Topic, v: View, k: nat, sem: nat)
    requires Shape(s, v) && k < |s.clients| && s.clients[k].index < SLOTS && KeptOf(s, v, k)
    requires sem < |s.clients| && s.clients[sem].index < SLOTS && s.dispatcher == SetPending(sem)
    requires k != sem && s.clients[k].index == s.clients[sem].index ==> v.phase[k] == Gone
    ensures KeptOf(DispatcherAction(s, false), v, k)
  {
  }

  lemma PendingKeepsInv(s: Topic, v: View, spurious: bool)
    requires Inv(s, v) && s.dispatcher.SetPending?
    ensures Inv(DispatcherAction(s, spurious), v)
  {
    var s' := DispatcherAction(s, spurious);
    PendingKeepsFrame(s, v, spurious);
    assert s' == s.(slots := s'.slots, dispatcher := Waiting);
    forall k | 0 <= k < |s.clients| ensures KeptOf(s', v, k) {
      if spurious || s.dispatcher.sem >= |s.clients| {
        MatchedIsKept(s, v, k, s');
      } else {
        assert KeptOf(s, v, s.dispatcher.sem);
        PendingIsKept(s, v, k, s.dispatcher.sem);
      }
    }
  }

  // ---- every run ------------------------------------------------------------------------------

  lemma NotifyKeepsInv(s: Topic, v: View, choice: bool)
    requires Inv(s, v) && Current(s)
    ensures Inv(NotifyStep(s), ViewPublisher(s, v, choice))
  {
    match s.publisher {
      case Check(_, _) => CheckKeepsInv(s, v);
      case Count(_, _) => CountKeepsInv(s, v);
      case LoadNext(_, _) => LoadNextKeepsInv(s, v);
      case StoreNext(_, _, _) => StoreNextKeepsInv(s, v, choice);
      case Release(_, _) => ReleaseKeepsInv(s, v, choice);
    }
  }

  lemma PublisherKeepsInv(s: Topic, v: View, choice: bool)
    requires Inv(s, v)
    ensures Inv(PublisherAction(s, choice), ViewPublisher(s, v, choice))
  {
    match s.publisher {
      case Quiet =>
      case Bump => BumpKeepsInv(s, v, choice);
      case Begin => BeginKeepsInv(s, v, choice);
      case Remove(gone) =>
        if gone != [] && choice && gone[|gone| - 1] in s.bag {
          RemoveKeepsInv(s, v);
        } else {
          SkipKeepsInv(s, v, choice);
        }
      case ClearPending(_, _, _) => ClearKeepsInv(s, v, choice);
      case ClearActive(_, _, _) => ClearKeepsInv(s, v, choice);
      case GiveBack(_, _, _) => GiveBackKeepsInv(s, v, choice);
      case _ =>
        assert s.publisher.rest[0] in s.publisher.rest;
        NotifyKeepsInv(s, v, choice);
    }
  }

  lemma DispatcherKeepsInv(s: Topic, v: View, spurious: bool)
    requires Inv(s, v)
    ensures Inv(DispatcherAction(s, spurious), ViewStep(s, v, DispatcherStep(spurious)))
  {
    match s.dispatcher {
      case Waiting =>
      case Reset(_, _, _) => ResetKeepsInv(s, v, spurious);
      case Create(_, _) => CreateKeepsInv(s, v, spurious);
      case Push(_) => PushKeepsInv(s, v, spurious);
      case MatchPid(_) => MatchKeepsInv(s, v, spurious);
      case SetPending(_) => PendingKeepsInv(s, v, spurious);
    }
  }

  lemma StepKeepsInv(s: Topic, v: View, a: Action)
    requires Inv(s, v)
    ensures Inv(Step(s, a), ViewStep(s, v, a))
  {
    match a {
      case Publish => PublishKeepsInv(s, v);
      case PublisherStep(choice) => PublisherKeepsInv(s, v, choice);
      case Subscribe(i, pid) => if s.dispatcher.Waiting? && i in s.free { RentKeepsInv(s, v, i, pid); }
      case Unsubscribe(k) => if Step(s, a) != s { AskKeepsInv(s, v, k); }
      case DispatcherStep(spurious) => DispatcherKeepsInv(s, v, spurious);
      case Acquire(k) => AcquireKeepsInv(s, v, k);
      case ClientStep(k) => if k < |s.clients| { ReadKeepsInv(s, v, k); }
      case Close(k) => CloseKeepsInv(s, v, k);
    }
  }

  /** Nothing subscribed, nothing under way, every ID in the pool. */
  lemma EmptyFrame(s: Topic, v: View)
    requires Shape(s, v) && s.clients == [] && s.bag == [] && s.dispatcher.Waiting? && s.publisher.Quiet?
    requires forall i | 0 <= i < SLOTS :: v.owner[i] == InPool && i in s.free
    requires forall i | i in s.free :: i < SLOTS
    ensures Frame(s, v)
  {
  }

  lemma InitFrame(capacity: nat, code: Code)
    requires capacity > 0
    ensures Frame(Init(capacity, code), InitView())
  {
    EmptyFrame(Init(capacity, code), InitView());
  }

  lemma InitInv(capacity: nat, code: Code)
    requires capacity > 0
    ensures Inv(Init(capacity, code), InitView())
  {
    InitFrame(capacity, code);
  }

  lemma {:induction false} RunKeepsInv(capacity: nat, code: Code, acts: seq<Action>)
    requires capacity > 0
    ensures Inv(Run(Init(capacity, code), acts), ViewRun(Init(capacity, code), InitView(), acts))
    decreases |acts|
  {
    if acts == [] {
      InitInv(capacity, code);
    } else {
      var before := acts[..|acts| - 1];
      RunKeepsInv(capacity, code, before);
      StepKeepsInv(Run(Init(capacity, code), before), ViewRun(Init(capacity, code), InitView(), before),
                   acts[|acts| - 1]);
    }
  }

  function Reached(capacity: nat, code: Code, acts: seq<Action>): Topic
    requires capacity > 0
  {
    Run(Init(capacity, code), acts)
  }

  function ReachedView(capacity: nat, code: Code, acts: seq<Action>): View
    requires capacity > 0
  {
    ViewRun(Init(capacity, code), InitView(), acts)
  }

  // ---- publish, notify, read ------------------------------------------------------------------

  /** In every interleaving: the permits a subscriber was given are at most the messages published from
      its start index on; a client holding a permit never waits and never throws; its j-th read, counted
      from 0, is message `start + j`; and what it found in the ring is that message whenever fewer than
      `capacity` messages had been published from it on. */
  lemma EveryPermitYieldsTheNextMessage(capacity: nat, code: Code, acts: seq<Action>, k: nat)
    requires capacity > 0 && k < |Reached(capacity, code, acts).clients|
    ensures var s, v := Reached(capacity, code, acts), ReachedView(capacity, code, acts);
            && |v.granted| == |v.start| == |s.permits| == |s.clients|
            && var c := s.clients[k];
            && s.permits[k] + |c.log| + (if c.point.Resting? then 0 else 1) == v.granted[k]
            && (v.granted[k] > 0 ==> v.start[k] + v.granted[k] <= s.nextIndex)
            && !c.point.Failed?
            && (c.point.Trying? ==> c.cursor.Some? && CanRead(c.cursor.value, s.nextIndex))
            && (forall j | 0 <= j < |c.log| ::
                  c.log[j].index == v.start[k] + j && (c.log[j].intact ==> c.log[j].found == v.start[k] + j))
  {
    RunKeepsInv(capacity, code, acts);
    var s, v := Reached(capacity, code, acts), ReachedView(capacity, code, acts);
    assert KeptOf(s, v, k) && Served(s.clients[k], s.permits[k], v.granted[k], v.start[k]);
    if s.clients[k].point.Trying? {
      PermitIsBacked(s, v, k);
      CursorCounts(v.start[k], |s.clients[k].log|, s.nextIndex);
    }
  }

  /** A subscription that has entered the bag, and what it is due. */
  ghost predicate Entered(s: Topic, v: View, k: nat, due: nat) {
    && k < |s.clients| && |v.phase| == |v.due| > k
    && v.phase[k] != Opening && v.due[k] == due
  }

  lemma PushEnters(s: Topic, v: View)
    requires Frame(s, v) && s.dispatcher.Push?
    ensures Entered(Step(s, DispatcherStep(false)), ViewStep(s, v, DispatcherStep(false)),
                    s.dispatcher.sub.sem, DueAtPush(s))
  {
  }

  lemma {:induction false} ClientsStay(s: Topic, a: Action)
    requires |s.ring| > 0
    ensures |s.clients| <= |Step(s, a).clients|
  {
    match a {
      case PublisherStep(_) =>
      case DispatcherStep(_) =>
      case ClientStep(_) =>
      case _ =>
    }
  }

  /** Only the push of its entry says what a subscription is due. */
  lemma {:induction false} DueStays(s: Topic, v: View, a: Action, k: nat)
    requires |v.phase| == |v.due| > k && v.phase[k] != Opening
    requires s.dispatcher.Push? ==> s.dispatcher.sub.sem != k
    ensures |ViewStep(s, v, a).phase| == |ViewStep(s, v, a).due| > k
    ensures ViewStep(s, v, a).phase[k] != Opening && ViewStep(s, v, a).due[k] == v.due[k]
  {
    match a {
      case PublisherStep(_) =>
      case DispatcherStep(_) =>
      case _ =>
    }
  }

  lemma {:induction false} StaysEntered(s: Topic, v: View, a: Action, k: nat, due: nat)
    requires Shape(s, v) && Entered(s, v, k, due)
    requires s.dispatcher.Push? ==> s.dispatcher.sub.sem < |v.phase| && v.phase[s.dispatcher.sub.sem] == Opening
    ensures Entered(Step(s, a), ViewStep(s, v, a), k, due)
  {
    ClientsStay(s, a);
    DueStays(s, v, a, k);
  }

  /** Whatever happens after. */
  lemma {:induction false} EnteredSince(s: Topic, v: View, after: seq<Action>, k: nat, due: nat)
    requires Inv(s, v) && Entered(s, v, k, due)
    ensures Inv(Run(s, after), ViewRun(s, v, after)) && Entered(Run(s, after), ViewRun(s, v, after), k, due)
    decreases |after|
  {
    if after != [] {
      var less, a := after[..|after| - 1], after[|after| - 1];
      EnteredSince(s, v, less, k, due);
      StepKeepsInv(Run(s, less), ViewRun(s, v, less), a);
      StaysEntered(Run(s, less), ViewRun(s, v, less), a, k, due);
    }
  }

  lemma {:induction false} OneMoreAction(s: Topic, v: View, acts: seq<Action>, a: Action)
    requires |s.ring| > 0
    ensures Run(s, acts + [a]) == Step(Run(s, acts), a)
    ensures ViewRun(s, v, acts + [a]) == ViewStep(Run(s, acts), ViewRun(s, v, acts), a)
  {
    assert (acts + [a])[..|acts|] == acts;
  }

  lemma {:induction false} RunConcat(s: Topic, v: View, a: seq<Action>, b: seq<Action>)
    requires |s.ring| > 0
    ensures Run(s, a + b) == Run(Run(s, a), b)
    ensures ViewRun(s, v, a + b) == ViewRun(Run(s, a), ViewRun(s, v, a), b)
    decreases |b|
  {
    if b == [] {
      assert a + b == a;
    } else {
      var less, last := b[..|b| - 1], b[|b| - 1];
      RunConcat(s, v, a, less);
      OneMoreAction(s, v, a + less, last);
      OneMoreAction(Run(s, a), ViewRun(s, v, a), less, last);
      assert b == less + [last] && a + b == (a + less) + [last];
    }
  }

  lemma EnteredByPush(capacity: nat, code: Code, before: seq<Action>, after: seq<Action>)
    requires capacity > 0 && Reached(capacity, code, before).dispatcher.Push?
    ensures var s := Reached(capacity, code, before);
            var all := before + ([DispatcherStep(false)] + after);
            && Inv(Reached(capacity, code, all), ReachedView(capacity, code, all))
            && Entered(Reached(capacity, code, all), ReachedView(capacity, code, all),
                       s.dispatcher.sub.sem, DueAtPush(s))
  {
    var s, v, push := Reached(capacity, code, before), ReachedView(capacity, code, before), [DispatcherStep(false)];
    RunKeepsInv(capacity, code, before);
    PushEnters(s, v);
    StepKeepsInv(s, v, push[0]);
    assert push[..0] == [];
    EnteredSince(Run(s, push), ViewRun(s, v, push), after, s.dispatcher.sub.sem, DueAtPush(s));
    RunConcat(s, v, push, after);
    RunConcat(Init(capacity, code), InitView(), before, push + after);
  }

  /** No notification is lost, the first one included.  Take any run in which a subscription enters the
      bag, and any continuation that ends between publications with the subscription still open: it has
      been given exactly one permit for every message whose announcement had not begun when it entered,
      and each of them is unspent, read, or being read. */
  lemma NoNotificationIsLost(capacity: nat, code: Code, before: seq<Action>, after: seq<Action>)
    requires capacity > 0 && Reached(capacity, code, before).dispatcher.Push?
    ensures var s0 := Reached(capacity, code, before);
            var k := s0.dispatcher.sub.sem;
            var all := before + ([DispatcherStep(false)] + after);
            var s, v := Reached(capacity, code, all), ReachedView(capacity, code, all);
            && k < |s.clients| == |s.permits| == |v.granted|
            && var c := s.clients[k];
            && (s.publisher.Quiet? && c.open ==>
                  && v.granted[k] == s.nextIndex - DueAtPush(s0)
                  && s.permits[k] + |c.log| + (if c.point.Resting? then 0 else 1)
                     == s.nextIndex - DueAtPush(s0))
            && (forall j | 0 <= j < |c.log| :: c.log[j].index == DueAtPush(s0) + j)
  {
    var s0 := Reached(capacity, code, before);
    var k := s0.dispatcher.sub.sem;
    EnteredByPush(capacity, code, before, after);
    var all := before + ([DispatcherStep(false)] + after);
    var s, v := Reached(capacity, code, all), ReachedView(capacity, code, all);
    assert KeptOf(s, v, k) && Served(s.clients[k], s.permits[k], v.granted[k], v.start[k]);
  }

  // ---- the life of a slot ---------------------------------------------------------------------

  /** What the four stores of `Reset` left of a slot: the process, the count of notifications, in use,
      and, while the subscription is open, no pending removal. */
  ghost predicate SaysReset(s: Topic, v: View, k: nat)
    requires Shape(s, v) && k < |s.clients| && s.clients[k].index < SLOTS
  {
    var d, c := s.slots[s.clients[k].index], s.clients[k];
    && d.pid == c.pid && d.active && (c.open ==> !d.pendingRemove)
    && d.notified == v.granted[k] + if Counted(s.publisher, SubOf(s, k)) then 1 else 0
  }

  /** Live entries have distinct slots, none of them free.  The slot of a live entry, and of one about to
      be pushed, says what its `Reset` stored, so no late store of the publisher has overwritten it.  And
      while the publisher still has stores to make to a slot it removed, that slot is neither free, nor in
      the bag, nor being reset, nor about to be pushed. */
  lemma SlotsAreNeverShared(capacity: nat, code: Code, acts: seq<Action>)
    requires capacity > 0
    ensures var s, v := Reached(capacity, code, acts), ReachedView(capacity, code, acts);
            && Shape(s, v)
            && (forall b | b in s.bag :: b.index < SLOTS && b.index !in s.free && b.sem < |s.clients|
                  && b == SubOf(s, b.sem) && SaysReset(s, v, b.sem))
            && (forall a, b | a in s.bag && b in s.bag && a.index == b.index :: a == b)
            && (s.dispatcher.Push? ==>
                  var b := s.dispatcher.sub;
                  && b.index < SLOTS && b.index !in s.free && b.sem < |s.clients|
                  && b == SubOf(s, b.sem) && SaysReset(s, v, b.sem)
                  && !s.slots[b.index].pendingRemove && s.slots[b.index].notified == 0
                  && forall a | a in s.bag :: a.index != b.index)
            && (Closing(s.publisher).Some? ==>
                  var i := Closing(s.publisher).value.index;
                  && i < SLOTS && i !in s.free && Preparing(s.dispatcher) != Some(i)
                  && (s.dispatcher.Push? ==> s.dispatcher.sub.index != i)
                  && forall b | b in s.bag :: b.index != i)
  {
    RunKeepsInv(capacity, code, acts);
    var s, v := Reached(capacity, code, acts), ReachedView(capacity, code, acts);
    forall b | b in s.bag ensures SaysReset(s, v, b.sem) && v.owner[b.index] == Of(b.sem) {
      assert KeptOf(s, v, b.sem);
    }
    if s.dispatcher.Push? { OpeningSlot(s, v); }
    if Closing(s.publisher).Some? { ClosingIsApart(s, v); }
  }

  lemma ClosingIsApart(s: Topic, v: View)
    requires Frame(s, v) && Closing(s.publisher).Some?
    ensures var i := Closing(s.publisher).value.index;
            && i < SLOTS && i !in s.free && Preparing(s.dispatcher) != Some(i)
            && (s.dispatcher.Push? ==> s.dispatcher.sub.index != i)
            && forall b | b in s.bag :: b.index != i
  {
    var sub := Closing(s.publisher).value;
    assert v.owner[sub.index] == Of(sub.sem);
    forall b | b in s.bag ensures b.index != sub.index { assert v.owner[b.index] == Of(b.sem); }
  }

  lemma OpeningSlot(s: Topic, v: View)
    requires Inv(s, v) && s.dispatcher.Push?
    ensures var b := s.dispatcher.sub;
            && b.index < SLOTS && b.sem < |s.clients| && b == SubOf(s, b.sem) && v.owner[b.index] == Of(b.sem)
            && SaysReset(s, v, b.sem) && !s.slots[b.index].pendingRemove && s.slots[b.index].notified == 0
  {
    var b := s.dispatcher.sub;
    assert KeptOf(s, v, b.sem) && v.phase[b.sem] == Opening;
    assert b !in s.bag;
    assert b !in Rest(s.publisher);
  }

  lemma {:induction false} SlotsOf(bag: seq<Subscription>) returns (r: set<nat>)
    requires Distinct(bag) && forall a, b | a in bag && b in bag && a.index == b.index :: a == b
    ensures |r| == |bag| && forall i :: i in r <==> exists b :: b in bag && b.index == i
  {
    if bag == [] {
      r := {};
    } else {
      TailOf(bag);
      assert bag == [bag[0]] + bag[1..];
      var t := SlotsOf(bag[1..]);
      r := t + {bag[0].index};
      assert bag[0].index !in t;
      forall i | i in r ensures exists b :: b in bag && b.index == i {
        if i in t { var b :| b in bag[1..] && b.index == i; assert b in bag; } else { assert bag[0] in bag; }
      }
    }
  }

  function SlotsInHand(s: Topic): set<nat> {
    (if Closing(s.publisher).Some? then {Closing(s.publisher).value.index} else {})
    + (if s.dispatcher.Push? then {s.dispatcher.sub.index}
       else if Preparing(s.dispatcher).Some? then {Preparing(s.dispatcher).value} else {})
  }

  lemma InHandIsOutOfTheBag(s: Topic, v: View)
    requires Frame(s, v)
    ensures forall i | i in SlotsInHand(s) :: i < SLOTS && forall b | b in s.bag :: b.index != i
    ensures |SlotsInHand(s)| == (if Closing(s.publisher).Some? then 1 else 0)
                              + (if s.dispatcher.Push? || Preparing(s.dispatcher).Some? then 1 else 0)
  {
    forall b | b in s.bag ensures v.owner[b.index] == Of(b.sem) { }
  }

  lemma Fits(used: set<nat>, more: set<nat>, n: nat)
    requires used !! more && forall i | i in used || i in more :: i < n
    ensures |used| + |more| <= n
  {
    assert Ids(n) == used + more + (Ids(n) - (used + more));
  }

  /** The bag cannot be full when `Subscribe` pushes, whose answer the source ignores: counting the node
      a running remove may hold, fewer than all nodes are in use.  Nor can `toRemove` overflow. */
  lemma PushFindsANode(capacity: nat, code: Code, acts: seq<Action>)
    requires capacity > 0
    ensures var s := Reached(capacity, code, acts);
            && |s.bag| + (if Closing(s.publisher).Some? then 1 else 0)
               + (if s.dispatcher.Push? || Preparing(s.dispatcher).Some? then 1 else 0) <= SLOTS
            && |Leavers(s.publisher)| <= SLOTS
  {
    RunKeepsInv(capacity, code, acts);
    SlotsAreNeverShared(capacity, code, acts);
    var s := Reached(capacity, code, acts);
    var used := SlotsOf(s.bag);
    InHandIsOutOfTheBag(s, ReachedView(capacity, code, acts));
    Fits(used, SlotsInHand(s), SLOTS);
    assert forall b | b in Leavers(s.publisher) :: b in s.bag;
    var leaving := SlotsOf(Leavers(s.publisher));
    Fits(leaving, {}, SLOTS);
  }

  // ---- IDs ------------------------------------------------------------------------------------

  /** How many subscriptions use up an ID: all that were ever made, or those that are not gone. */
  function IdsInUse(phase: seq<Phase>, code: Code): nat {
    if phase == [] then 0
    else IdsInUse(phase[..|phase| - 1], code)
         + if code.Intended? && phase[|phase| - 1] == Gone then 0 else 1
  }

  lemma {:induction false} PhaseChanges(phase: seq<Phase>, code: Code, k: nat, p: Phase)
    requires k < |phase| && phase[k] != Gone
    ensures IdsInUse(phase[k := p], code)
            == IdsInUse(phase, code) - if code.Intended? && p == Gone then 1 else 0
  {
    var n := |phase| - 1;
    if k < n {
      PhaseChanges(phase[..n], code, k, p);
      assert phase[k := p][..n] == phase[..n][k := p];
    } else {
      assert phase[k := p][..n] == phase[..n];
    }
  }

  function IdsOf(s: Topic, v: View): nat {
    |s.free| + IdsInUse(v.phase, s.code) + if Preparing(s.dispatcher).Some? then 1 else 0
  }

  lemma GiveBackKeepsIds(s: Topic, v: View, choice: bool)
    requires Frame(s, v) && s.publisher.GiveBack?
    ensures IdsOf(PublisherAction(s, choice), ViewPublisher(s, v, choice)) == IdsOf(s, v)
  {
    var sub := s.publisher.sub;
    assert Closing(s.publisher) == Some(sub);
    PhaseChanges(v.phase, s.code, sub.sem, Gone);
    assert v.owner[sub.index] == Of(sub.sem) && sub.index !in s.free;
  }

  lemma RemoveKeepsIds(s: Topic, v: View)
    requires Frame(s, v) && s.publisher.Remove? && s.publisher.gone != []
    requires s.publisher.gone[|s.publisher.gone| - 1] in s.bag
    ensures IdsOf(PublisherAction(s, true), ViewPublisher(s, v, true)) == IdsOf(s, v)
  {
    PhaseChanges(v.phase, s.code, s.publisher.gone[|s.publisher.gone| - 1].sem, Removing);
  }

  /** The state as far as IDs are concerned. */
  lemma SameIds(s: Topic, v: View, s': Topic, v': View)
    requires s'.free == s.free && s'.code == s.code && v'.phase == v.phase
    requires Preparing(s'.dispatcher).Some? == Preparing(s.dispatcher).Some?
    ensures IdsOf(s', v') == IdsOf(s, v)
  {
  }

  lemma NotifyKeepsIds(s: Topic, v: View, choice: bool)
    requires Current(s)
    ensures IdsOf(NotifyStep(s), ViewPublisher(s, v, choice)) == IdsOf(s, v)
  {
    SameIds(s, v, NotifyStep(s), ViewPublisher(s, v, choice));
  }

  lemma SkipKeepsIds(s: Topic, v: View, choice: bool)
    requires !Current(s) && !s.publisher.GiveBack? && !s.publisher.Remove?
    ensures IdsOf(PublisherAction(s, choice), ViewPublisher(s, v, choice)) == IdsOf(s, v)
  {
    SameIds(s, v, PublisherAction(s, choice), ViewPublisher(s, v, choice));
  }

  lemma PublisherKeepsIds(s: Topic, v: View, choice: bool)
    requires Frame(s, v)
    ensures IdsOf(PublisherAction(s, choice), ViewPublisher(s, v, choice)) == IdsOf(s, v)
  {
    match s.publisher {
      case GiveBack(_, _, _) => GiveBackKeepsIds(s, v, choice);
      case Remove(gone) =>
        if gone != [] && choice && gone[|gone| - 1] in s.bag { RemoveKeepsIds(s, v); }
      case _ => if Current(s) { NotifyKeepsIds(s, v, choice); } else { SkipKeepsIds(s, v, choice); }
    }
  }

  lemma CreateKeepsIds(s: Topic, v: View, s': Topic, v': View)
    requires s'.free == s.free && s'.code == s.code && v'.phase == v.phase + [Opening]
    requires Preparing(s.dispatcher).Some? && Preparing(s'.dispatcher).None?
    ensures IdsOf(s', v') == IdsOf(s, v)
  {
    assert (v.phase + [Opening])[..|v.phase|] == v.phase;
  }

  lemma DispatcherKeepsIds(s: Topic, v: View, spurious: bool)
    requires Frame(s, v)
    ensures IdsOf(DispatcherAction(s, spurious), ViewStep(s, v, DispatcherStep(spurious))) == IdsOf(s, v)
  {
    var s', v' := DispatcherAction(s, spurious), ViewStep(s, v, DispatcherStep(spurious));
    match s.dispatcher {
      case Create(_, _) => CreateKeepsIds(s, v, s', v');
      case Push(sub) => PhaseChanges(v.phase, s.code, sub.sem, Live);
      case _ => SameIds(s, v, s', v');
    }
  }

  lemma OtherStepsKeepIds(s: Topic, v: View, a: Action)
    requires |s.ring| > 0 && !a.PublisherStep? && !a.DispatcherStep?
    ensures IdsOf(Step(s, a), ViewStep(s, v, a)) == IdsOf(s, v)
  {
    var s', v' := Step(s, a), ViewStep(s, v, a);
    if a.Subscribe? {
      assert v'.phase == v.phase;
    } else {
      SameIds(s, v, s', v');
    }
  }

  lemma StepKeepsIds(s: Topic, v: View, a: Action)
    requires Frame(s, v)
    ensures IdsOf(Step(s, a), ViewStep(s, v, a)) == IdsOf(s, v)
  {
    match a {
      case PublisherStep(choice) => PublisherKeepsIds(s, v, choice);
      case DispatcherStep(spurious) => DispatcherKeepsIds(s, v, spurious);
      case _ => OtherStepsKeepIds(s, v, a);
    }
  }

  /** Every one of the 256 IDs is free, being prepared, or in use, in every run of either code. */
  lemma {:induction false} IdsAreConserved(capacity: nat, code: Code, acts: seq<Action>)
    requires capacity > 0
    ensures IdsOf(Reached(capacity, code, acts), ReachedView(capacity, code, acts)) == SLOTS
    decreases |acts|
  {
    if acts != [] {
      var before, a := acts[..|acts| - 1], acts[|acts| - 1];
      IdsAreConserved(capacity, code, before);
      RunKeepsInv(capacity, code, before);
      StepKeepsIds(Reached(capacity, code, before), ReachedView(capacity, code, before), a);
    }
  }

  lemma {:induction false} AllInUse(phase: seq<Phase>)
    ensures IdsInUse(phase, Written) == |phase|
  {
    if phase != [] { AllInUse(phase[..|phase| - 1]); }
  }

  /** As written, no run makes more than 256 subscriptions; and once it has made as many, no ID is free
      and no `Subscribe` goes further than looking for one. */
  lemma WrittenCodeUsesIdsUp(capacity: nat, acts: seq<Action>, index: nat, pid: nat)
    requires capacity > 0
    ensures var s := Reached(capacity, Written, acts);
            && |s.free| + |s.clients| + (if Preparing(s.dispatcher).Some? then 1 else 0) == SLOTS
            && |s.clients| <= SLOTS
            && (|s.clients| == SLOTS ==> s.free == {} && Step(s, Subscribe(index, pid)) == s)
  {
    var s, v := Reached(capacity, Written, acts), ReachedView(capacity, Written, acts);
    assert Shape(s, v) by { RunKeepsInv(capacity, Written, acts); }
    IdsAreConserved(capacity, Written, acts);
    AllInUse(v.phase);
    assert s.code == Written;
    assert |s.clients| == SLOTS ==> s.free == {};
  }
}
