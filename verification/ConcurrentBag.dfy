/** The lock-free subscription bag: two linked lists over one node array.

    One thread pushes (the dispatcher) and one other thread iterates and removes (the publisher).
    Every atomic load, store and compare-exchange of either thread is one action; an action of a
    thread that is not ready for it does nothing, so a run is any sequence of actions. */
module ConcurrentBag {
  import opened Chains

  type Item(==)

  /** Program points of `push`; `top` and `next` are the locals of the retry loops. */
  datatype Pusher =
    | PushIdle
    | PopNext(item: Item, top: int)
    | PopCas(item: Item, top: int, next: int)
    | PutValue(item: Item, node: int)
    | PutHead(item: Item, node: int)
    | PutLink(item: Item, node: int, top: int)
    | PutCas(item: Item, node: int, top: int)

  /** Program points of `remove`, of `push_to_free_list` inside it, and of the iterator. */
  datatype Walker =
    | WalkIdle
    | ScanValue(item: Item, prev: int, cur: int)
    | ScanNext(item: Item, prev: int, cur: int, val: Item)
    | ScanCas(item: Item, prev: int, cur: int, next: int)
    | FreeHead(item: Item, node: int)
    | FreeLink(item: Item, node: int, top: int)
    | FreeCas(item: Item, node: int, top: int)
    | IterValue(cur: int)
    | IterNext(cur: int)

  datatype Answer = Pending | Answer(ok: bool)

  /** Shared memory, the two program counters, and what the callers have been told so far:
      `pushed` and `removed` collect the items of the calls that returned true, `seen` is what the
      current iteration has yielded. */
  datatype Bag = Bag(
    next: seq<int>, value: seq<Item>, freeHead: int, itemsHead: int,
    pusher: Pusher, walker: Walker,
    pushed: multiset<Item>, removed: multiset<Item>, seen: seq<Item>,
    pushAnswer: Answer, removeAnswer: Answer)

  datatype Action =
    | BeginPush(item: Item)
    | StepPush(spurious: bool)
    | BeginRemove(item: Item)
    | BeginIterate
    | StepWalk(spurious: bool)

  function Init(value: seq<Item>): Bag
    requires |value| > 0
  {
    var n := |value|;
    Bag(seq(n, i => if i + 1 < n then i + 1 else NIL), value, 0, NIL,
        PushIdle, WalkIdle, multiset{}, multiset{}, [], Pending, Pending)
  }

  // ---- push -----------------------------------------------------------------------------------

  /** The loop test of `pop_from_free_list` on a freshly read free head. */
  function TryPop(s: Bag, item: Item, head: int): Bag {
    if head == NIL then s.(pusher := PushIdle, pushAnswer := Answer(false))
    else s.(pusher := PopNext(item, head))
  }

  function PushAction(s: Bag, spurious: bool): Bag {
    match s.pusher
    case PushIdle => s
    case PopNext(item, top) => s.(pusher := PopCas(item, top, Load(s.next, top, NIL)))
    case PopCas(item, top, next) =>
      if s.freeHead == top && !spurious
      then s.(freeHead := next, pusher := PutValue(item, top))
      else TryPop(s, item, s.freeHead)
    case PutValue(item, node) =>
      s.(value := Store(s.value, node, item), pusher := PutHead(item, node))
    case PutHead(item, node) => s.(pusher := PutLink(item, node, s.itemsHead))
    case PutLink(item, node, top) =>
      s.(next := Store(s.next, node, top), pusher := PutCas(item, node, top))
    case PutCas(item, node, top) =>
      if s.itemsHead == top && !spurious
      then s.(itemsHead := node, pusher := PushIdle,
              pushed := s.pushed + multiset{item}, pushAnswer := Answer(true))
      else s.(pusher := PutLink(item, node, s.itemsHead))
  }

  // ---- remove and iterate ---------------------------------------------------------------------

  /** The loop test of `remove`. */
  function Scan(s: Bag, item: Item, prev: int, cur: int): Bag {
    if cur == NIL then s.(walker := WalkIdle, removeAnswer := Answer(false))
    else s.(walker := ScanValue(item, prev, cur))
  }

  function Iterate(s: Bag, cur: int): Bag {
    if cur == NIL then s.(walker := WalkIdle) else s.(walker := IterValue(cur))
  }

  /** Does the compare-exchange of `remove` find what it expects? */
  predicate Unlinks(s: Bag) {
    s.walker.ScanCas?
    && if s.walker.prev == NIL then s.itemsHead == s.walker.cur
       else Load(s.next, s.walker.prev, NIL) == s.walker.cur
  }

  function Unlinked(s: Bag): Bag
    requires s.walker.ScanCas?
  {
    var ScanCas(item, prev, cur, next) := s.walker;
    if prev == NIL then s.(itemsHead := next, walker := FreeHead(item, cur))
    else s.(next := Store(s.next, prev, next), walker := FreeHead(item, cur))
  }

  /** A failed strong compare-exchange writes the value it found into `current`, which then becomes
      `previous`: after losing a race at the head the scan goes on behind its target. */
  function WalkAction(s: Bag, spurious: bool): Bag {
    match s.walker
    case WalkIdle => s
    case ScanValue(item, prev, cur) =>
      s.(walker := ScanNext(item, prev, cur, Load(s.value, cur, item)))
    case ScanNext(item, prev, cur, val) =>
      var next := Load(s.next, cur, NIL);
      if val == item then s.(walker := ScanCas(item, prev, cur, next)) else Scan(s, item, cur, next)
    case ScanCas(item, prev, cur, next) =>
      if Unlinks(s) then Unlinked(s)
      else if prev == NIL then Scan(s, item, s.itemsHead, next)
      else Scan(s, item, Load(s.next, prev, NIL), next)
    case FreeHead(item, node) => s.(walker := FreeLink(item, node, s.freeHead))
    case FreeLink(item, node, top) =>
      s.(next := Store(s.next, node, top), walker := FreeCas(item, node, top))
    case FreeCas(item, node, top) =>
      if s.freeHead == top && !spurious
      then s.(freeHead := node, walker := WalkIdle,
              removed := s.removed + multiset{item}, removeAnswer := Answer(true))
      else s.(walker := FreeLink(item, node, s.freeHead))
    case IterValue(cur) =>
      if 0 <= cur < |s.value|
      then s.(seen := s.seen + [s.value[cur]], walker := IterNext(cur)) else s
    case IterNext(cur) => Iterate(s, Load(s.next, cur, NIL))
  }

  function Step(s: Bag, a: Action): Bag {
    match a
    case BeginPush(item) =>
      if s.pusher.PushIdle? then TryPop(s.(pushAnswer := Pending), item, s.freeHead) else s
    case StepPush(spurious) => PushAction(s, spurious)
    case BeginRemove(item) =>
      if s.walker.WalkIdle? then Scan(s.(removeAnswer := Pending), item, NIL, s.itemsHead) else s
    case BeginIterate =>
      if s.walker.WalkIdle? then Iterate(s.(seen := []), s.itemsHead) else s
    case StepWalk(spurious) => WalkAction(s, spurious)
  }

  function Run(s: Bag, acts: seq<Action>): Bag
    decreases |acts|
  {
    if acts == [] then s else Step(Run(s, acts[..|acts| - 1]), acts[|acts| - 1])
  }

  // ---- the abstract bag -----------------------------------------------------------------------

  /** The two lists, and for the walk in progress: the items list as it was when the walk loaded the
      head (`snapshot`), the position reached in it (`at`), whether a compare-exchange of the walk has
      failed (`lost`), and how many pushes have swung the head since the walk loaded it. */
  datatype View = View(
    items: seq<int>, free: seq<int>, snapshot: seq<int>, at: nat, lost: bool, pushes: nat)

  function InitView(n: nat): View {
    View([], seq(n, i => i), [], 0, false, 0)
  }

  /** Only five kinds of step change a list, each by one node; everything else is bookkeeping. */
  function ViewStep(s: Bag, v: View, a: Action): View {
    match a
    case StepPush(spurious) =>
      if s.pusher.PopCas? && s.freeHead == s.pusher.top && !spurious && v.free != [] then
        v.(free := v.free[1..])
      else if s.pusher.PutCas? && s.itemsHead == s.pusher.top && !spurious then
        v.(items := [s.pusher.node] + v.items, pushes := v.pushes + 1)
      else v
    case BeginPush(_) => v
    case BeginRemove(_) =>
      if s.walker.WalkIdle? then v.(snapshot := v.items, at := 0, lost := false, pushes := 0) else v
    case BeginIterate =>
      if s.walker.WalkIdle? then v.(snapshot := v.items, at := 0, lost := false, pushes := 0) else v
    case StepWalk(spurious) =>
      match s.walker {
        case ScanNext(item, prev, cur, val) =>
          if val != item then v.(at := v.at + 1) else v
        case ScanCas(item, prev, cur, next) =>
          if Unlinks(s) then
            v.(items := Without(v.items, cur))
          else v.(at := v.at + 1, lost := true)
        case FreeCas(item, node, top) =>
          if s.freeHead == top && !spurious then v.(free := [node] + v.free) else v
        case IterNext(cur) => v.(at := v.at + 1)
        case _ => v
      }
  }

  function ViewRun(s: Bag, v: View, acts: seq<Action>): View
    decreases |acts|
  {
    if acts == [] then v
    else
      var before := acts[..|acts| - 1];
      ViewStep(Run(s, before), ViewRun(s, v, before), acts[|acts| - 1])
  }

  /** The items stored in the nodes of a list, with repetitions. */
  function Contents(l: seq<int>, value: seq<Item>): multiset<Item> {
    if l == [] then multiset{}
    else (if 0 <= l[0] < |value| then multiset{value[l[0]]} else multiset{}) + Contents(l[1..], value)
  }

  // ---- the invariant --------------------------------------------------------------------------

  function PusherNode(p: Pusher): int {
    match p
    case PutValue(_, node) => node
    case PutHead(_, node) => node
    case PutLink(_, node, _) => node
    case PutCas(_, node, _) => node
    case _ => NIL
  }

  function WalkerNode(w: Walker): int {
    match w
    case FreeHead(_, node) => node
    case FreeLink(_, node, _) => node
    case FreeCas(_, node, _) => node
    case _ => NIL
  }

  /** An item that has left the bag although `remove` has not returned yet. */
  function Leaving(w: Walker): multiset<Item> {
    match w
    case FreeHead(item, _) => multiset{item}
    case FreeLink(item, _, _) => multiset{item}
    case FreeCas(item, _, _) => multiset{item}
    case _ => multiset{}
  }

  /** Every node is in exactly one place: the items list, the free list, or one operation's hands. */
  ghost predicate Partition(nodes: nat, items: seq<int>, free: seq<int>, pushing: int, walking: int) {
    && (forall n | 0 <= n < nodes :: n in items || n in free || n == pushing || n == walking)
    && (forall n | n in items :: n !in free && n != pushing && n != walking)
    && (forall n | n in free :: n != pushing && n != walking)
    && (pushing == walking ==> pushing == NIL)
  }

  ghost predicate Lists(s: Bag, v: View) {
    && |s.next| == |s.value|
    && Chain(s.itemsHead, s.next, v.items)
    && Chain(s.freeHead, s.next, v.free)
    && Partition(|s.next|, v.items, v.free, PusherNode(s.pusher), WalkerNode(s.walker))
    && NIL <= PusherNode(s.pusher) < |s.next|
    && NIL <= WalkerNode(s.walker) < |s.next|
  }

  ghost predicate PusherOk(p: Pusher, next: seq<int>, value: seq<Item>, free: seq<int>) {
    match p
    case PushIdle => true
    case PopNext(_, top) => top in free
    case PopCas(_, top, n) => top in free && n == Load(next, top, NIL)
    case PutValue(_, node) => node != NIL
    case PutHead(item, node) => Holds(value, node, item)
    case PutLink(item, node, _) => Holds(value, node, item)
    case PutCas(item, node, top) => Holds(value, node, item) && Load(next, node, NIL) == top
  }

  ghost predicate IsSuffix(t: seq<int>, l: seq<int>) {
    |t| <= |l| && l[|l| - |t|..] == t
  }

  /** What a walk remembers: the snapshot it started from and how far it has come. */
  datatype Trail = Trail(items: seq<int>, snapshot: seq<int>, at: nat, lost: bool, pushes: nat)

  function TrailOf(v: View): Trail {
    Trail(v.items, v.snapshot, v.at, v.lost, v.pushes)
  }

  /** The walk stands on node `cur` of its snapshot, and the snapshot is still the end of the list. */
  ghost predicate Standing(t: Trail, cur: int) {
    && IsSuffix(t.snapshot, t.items) && |t.items| == |t.snapshot| + t.pushes
    && t.at < |t.snapshot| && t.snapshot[t.at] == cur
  }

  ghost predicate Holds(value: seq<Item>, n: int, item: Item) {
    0 <= n < |value| && value[n] == item
  }

  /** A scan for `item`: what it has passed does not hold the item, unless it lost the race for the
      head; then a push overtook it and the node it passed by mistake was the first one. */
  ghost predicate Scanning(value: seq<Item>, t: Trail, item: Item, prev: int) {
    && t.at <= |t.snapshot| && IsSuffix(t.snapshot, t.items)
    && (prev == NIL || prev in t.items)
    && (!t.lost ==> forall i | 0 <= i < t.at :: !Holds(value, t.snapshot[i], item))
    && (!t.lost ==> prev == if t.at == 0 then NIL else t.snapshot[t.at - 1])
    && (t.lost ==> (|t.items| > |t.snapshot| > 0 && t.at > 0 && Holds(value, t.snapshot[0], item)))
  }

  ghost predicate Yielded(value: seq<Item>, seen: seq<Item>, t: Trail, k: nat) {
    && IsSuffix(t.snapshot, t.items) && k <= |t.snapshot| && |seen| == k
    && forall i | 0 <= i < k :: Holds(value, t.snapshot[i], seen[i])
  }

  ghost predicate WalkerOk(w: Walker, next: seq<int>, value: seq<Item>, seen: seq<Item>, t: Trail) {
    match w
    case WalkIdle => true
    case ScanValue(item, prev, cur) => Standing(t, cur) && Scanning(value, t, item, prev)
    case ScanNext(item, prev, cur, val) =>
      Standing(t, cur) && Scanning(value, t, item, prev) && Holds(value, cur, val)
    case ScanCas(item, prev, cur, n) =>
      Standing(t, cur) && Scanning(value, t, item, prev)
      && Holds(value, cur, item) && n == Load(next, cur, NIL)
    case FreeHead(item, node) => node != NIL
    case FreeLink(item, node, top) => node != NIL
    case FreeCas(item, node, top) => node != NIL && Load(next, node, NIL) == top
    case IterValue(cur) => Standing(t, cur) && Yielded(value, seen, t, t.at)
    case IterNext(cur) => Standing(t, cur) && Yielded(value, seen, t, t.at + 1)
  }

  /** Conservation: whatever was pushed is in the bag, reported removed, or on its way out. */
  ghost predicate Balanced(s: Bag, v: View) {
    s.pushed == Contents(v.items, s.value) + Leaving(s.walker) + s.removed
  }

  ghost predicate Core(s: Bag, v: View) {
    Lists(s, v) && PusherOk(s.pusher, s.next, s.value, v.free) && Balanced(s, v)
  }

  /** The walk only depends on its own memory and on the items list. */
  ghost predicate WalkOk(s: Bag, v: View) {
    WalkerOk(s.walker, s.next, s.value, s.seen, TrailOf(v))
  }

  ghost predicate Inv(s: Bag, v: View) {
    Core(s, v) && WalkOk(s, v)
  }

  // ---- contents -------------------------------------------------------------------------------

  lemma {:induction false} ContentsFrame(l: seq<int>, value: seq<Item>, value': seq<Item>)
    requires |value| == |value'|
    requires forall n | n in l && 0 <= n < |value| :: value[n] == value'[n]
    ensures Contents(l, value) == Contents(l, value')
  {
    if l != [] {
      assert l[0] in l;
      forall n | n in l[1..] ensures n in l { }
      ContentsFrame(l[1..], value, value');
    }
  }

  /** Unlinking a node takes out exactly one occurrence of its item. */
  lemma {:induction false} WithoutItem(l: seq<int>, x: int, value: seq<Item>)
    requires x in l && 0 <= x < |value|
    ensures Contents(l, value) == Contents(Without(l, x), value) + multiset{value[x]}
  {
    if l[0] != x {
      assert l == [l[0]] + l[1..];
      WithoutItem(l[1..], x, value);
      assert Without(l, x)[1..] == Without(l[1..], x);
    }
  }

  // ---- one action of the pushing thread -------------------------------------------------------

  lemma PopKeepsCore(s: Bag, v: View, spurious: bool)
    requires Core(s, v) && s.pusher.PopCas?
    ensures Core(PushAction(s, spurious), ViewStep(s, v, StepPush(spurious)))
  {
    var s', v' := PushAction(s, spurious), ViewStep(s, v, StepPush(spurious));
    if s.freeHead == s.pusher.top && !spurious {
      assert v.free[0] == s.freeHead;
      ChainAcyclic(s.freeHead, s.next, v.free);
      ChainRange(s.freeHead, s.next, v.free);
      assert v.free == [s.freeHead] + v'.free;
      assert forall n :: n in v'.free <==> n in v.free && n != s.freeHead;
    } else if s.freeHead != NIL {
      assert v.free[0] in v.free;
    }
  }

  lemma ValueKeepsCore(s: Bag, v: View, spurious: bool)
    requires Core(s, v) && s.pusher.PutValue?
    ensures Core(PushAction(s, spurious), v)
  {
    ContentsFrame(v.items, s.value, PushAction(s, spurious).value);
  }

  lemma LinkKeepsCore(s: Bag, v: View, spurious: bool)
    requires Core(s, v) && s.pusher.PutLink?
    ensures Core(PushAction(s, spurious), v)
  {
    var s' := PushAction(s, spurious);
    ChainFrame(s.itemsHead, s.next, s'.next, v.items);
    ChainFrame(s.freeHead, s.next, s'.next, v.free);
  }

  lemma SwingKeepsCore(s: Bag, v: View, spurious: bool)
    requires Core(s, v) && s.pusher.PutCas?
    ensures Core(PushAction(s, spurious), ViewStep(s, v, StepPush(spurious)))
  {
    var s', v' := PushAction(s, spurious), ViewStep(s, v, StepPush(spurious));
    if s.itemsHead == s.pusher.top && !spurious {
      ChainPush(s.itemsHead, s.next, v.items, s.pusher.node);
      ChainRange(s.itemsHead, s.next, v.items);
      ChainRange(s.freeHead, s.next, v.free);
      assert v'.items[1..] == v.items;
      assert forall n :: n in v'.items <==> n in v.items || n == s.pusher.node;
    }
  }

  lemma PushKeepsCore(s: Bag, v: View, spurious: bool)
    requires Core(s, v)
    ensures Core(PushAction(s, spurious), ViewStep(s, v, StepPush(spurious)))
  {
    match s.pusher {
      case PopCas(_, _, _) => PopKeepsCore(s, v, spurious);
      case PutValue(_, _) => ValueKeepsCore(s, v, spurious);
      case PutLink(_, _, _) => LinkKeepsCore(s, v, spurious);
      case PutCas(_, _, _) => SwingKeepsCore(s, v, spurious);
      case _ =>
    }
  }

  /** What a push may do to the memory a walk reads: add a node in front, write its own node. */
  ghost predicate InFront(s: Bag, v: View, s': Bag, v': View) {
    && s'.walker == s.walker && s'.seen == s.seen
    && |s.value| == |s.next| == |s'.next| == |s'.value|
    && v'.snapshot == v.snapshot && v'.at == v.at && v'.lost == v.lost
    && (v'.items == v.items || (|v'.items| == |v.items| + 1 && v'.items[1..] == v.items))
    && v'.pushes - v.pushes == |v'.items| - |v.items|
    && (forall n | (n in v.items || n == WalkerNode(s.walker)) && 0 <= n < |s.next| ::
          s'.next[n] == s.next[n] && s'.value[n] == s.value[n])
  }

  lemma PushIsInFront(s: Bag, v: View, spurious: bool)
    requires Core(s, v)
    ensures InFront(s, v, PushAction(s, spurious), ViewStep(s, v, StepPush(spurious)))
  {
  }

  lemma SnapshotStays(s: Bag, v: View, s': Bag, v': View)
    requires Lists(s, v) && IsSuffix(v.snapshot, v.items) && InFront(s, v, s', v')
    ensures IsSuffix(v'.snapshot, v'.items)
    ensures forall n | n in v.items :: n in v'.items
    ensures forall n | n in v.items ::
              0 <= n < |s.next| && s'.next[n] == s.next[n] && s'.value[n] == s.value[n]
    ensures forall n | n in v.snapshot :: n in v.items
  {
    if v'.items != v.items {
      assert v'.items[|v'.items| - |v.snapshot|..] == v'.items[1..][|v.items| - |v.snapshot|..];
      assert v'.items == [v'.items[0]] + v.items;
    }
    ChainRange(s.itemsHead, s.next, v.items);
  }

  lemma CurrentStays(s: Bag, v: View, s': Bag, v': View, cur: int)
    requires Lists(s, v) && Standing(TrailOf(v), cur) && InFront(s, v, s', v')
    ensures Standing(TrailOf(v'), cur) && 0 <= cur < |s.next|
    ensures s'.next[cur] == s.next[cur] && s'.value[cur] == s.value[cur]
  {
    SnapshotStays(s, v, s', v');
    assert v.snapshot[v.at] in v.snapshot;
  }

  /** A trail after a push: the same snapshot at the end of a list that may have grown in front, and
      the same items in its nodes. */
  ghost predicate SameTrail(value: seq<Item>, t: Trail, value': seq<Item>, t': Trail) {
    && t'.snapshot == t.snapshot && t'.at == t.at && t'.lost == t.lost
    && IsSuffix(t'.snapshot, t'.items) && |t'.items| >= |t.items|
    && (forall n | n in t.items :: n in t'.items)
    && |value'| == |value| && (forall n | n in t.snapshot && 0 <= n < |value| :: value'[n] == value[n])
  }

  lemma ScanningStays(value: seq<Item>, t: Trail, value': seq<Item>, t': Trail, item: Item, prev: int)
    requires Scanning(value, t, item, prev) && SameTrail(value, t, value', t')
    ensures Scanning(value', t', item, prev)
  {
    if |t.snapshot| > 0 { assert t.snapshot[0] in t.snapshot; }
    forall i | 0 <= i < t.at && !t.lost ensures !Holds(value', t.snapshot[i], item) {
      assert t.snapshot[i] in t.snapshot && !Holds(value, t.snapshot[i], item);
    }
  }

  lemma YieldedStays(value: seq<Item>, t: Trail, value': seq<Item>, t': Trail, seen: seq<Item>, k: nat)
    requires Yielded(value, seen, t, k) && SameTrail(value, t, value', t')
    ensures Yielded(value', seen, t', k)
  {
    forall i | 0 <= i < k ensures Holds(value', t.snapshot[i], seen[i]) {
      assert Holds(value, t.snapshot[i], seen[i]) && t.snapshot[i] in t.snapshot;
    }
  }

  lemma TrailStays(s: Bag, v: View, s': Bag, v': View)
    requires Lists(s, v) && IsSuffix(v.snapshot, v.items) && InFront(s, v, s', v')
    ensures SameTrail(s.value, TrailOf(v), s'.value, TrailOf(v'))
  {
    SnapshotStays(s, v, s', v');
  }

  lemma PushKeepsScan(s: Bag, v: View, s': Bag, v': View)
    requires Lists(s, v) && WalkerOk(s.walker, s.next, s.value, s.seen, TrailOf(v))
    requires s.walker.ScanValue? || s.walker.ScanNext? || s.walker.ScanCas?
    requires InFront(s, v, s', v')
    ensures WalkerOk(s'.walker, s'.next, s'.value, s'.seen, TrailOf(v'))
  {
    CurrentStays(s, v, s', v', s.walker.cur);
    TrailStays(s, v, s', v');
    ScanningStays(s.value, TrailOf(v), s'.value, TrailOf(v'), s.walker.item, s.walker.prev);
  }

  lemma PushKeepsIteration(s: Bag, v: View, s': Bag, v': View)
    requires Lists(s, v) && WalkerOk(s.walker, s.next, s.value, s.seen, TrailOf(v))
    requires s.walker.IterValue? || s.walker.IterNext?
    requires InFront(s, v, s', v')
    ensures WalkerOk(s'.walker, s'.next, s'.value, s'.seen, TrailOf(v'))
  {
    CurrentStays(s, v, s', v', s.walker.cur);
    TrailStays(s, v, s', v');
    YieldedStays(s.value, TrailOf(v), s'.value, TrailOf(v'), s.seen, |s.seen|);
  }

  /** A walk in progress only looks at its snapshot, where a push changes nothing. */
  lemma PushKeepsWalk(s: Bag, v: View, s': Bag, v': View)
    requires Lists(s, v) && WalkerOk(s.walker, s.next, s.value, s.seen, TrailOf(v))
    requires InFront(s, v, s', v')
    ensures WalkerOk(s'.walker, s'.next, s'.value, s'.seen, TrailOf(v'))
  {
    if s.walker.ScanValue? || s.walker.ScanNext? || s.walker.ScanCas? {
      PushKeepsScan(s, v, s', v');
    } else if s.walker.IterValue? || s.walker.IterNext? {
      PushKeepsIteration(s, v, s', v');
    }
  }

  // ---- one action of the walking thread -------------------------------------------------------

  /** The current node is in the items list and its link leads to the next node of the snapshot. */
  lemma CurrentNode(s: Bag, v: View, at: nat)
    requires Lists(s, v) && IsSuffix(v.snapshot, v.items) && at < |v.snapshot|
    ensures var cur := v.snapshot[at];
            && 0 <= cur < |s.next| && cur in v.items && cur == v.items[|v.items| - |v.snapshot| + at]
            && s.next[cur] == if at + 1 < |v.snapshot| then v.snapshot[at + 1] else NIL
  {
    var i := |v.items| - |v.snapshot| + at;
    assert v.snapshot == v.items[|v.items| - |v.snapshot|..];
    ChainNext(s.itemsHead, s.next, v.items, i);
  }

  /** Moving on inside the snapshot, or reaching its end. */
  lemma AdvanceKeepsWalk(s: Bag, v: View, item: Item, prev: int, lost: bool)
    requires Lists(s, v) && IsSuffix(v.snapshot, v.items) && |v.items| == |v.snapshot| + v.pushes
    requires v.at < |v.snapshot|
    requires Scanning(s.value, TrailOf(v.(at := v.at + 1, lost := lost)), item, prev)
    ensures WalkOk(Scan(s, item, prev, Load(s.next, v.snapshot[v.at], NIL)), v.(at := v.at + 1, lost := lost))
  {
    CurrentNode(s, v, v.at);
    if v.at + 1 < |v.snapshot| { CurrentNode(s, v, v.at + 1); }
  }

  lemma ReadKeepsWalk(s: Bag, v: View, spurious: bool)
    requires Lists(s, v) && WalkOk(s, v) && s.walker.ScanValue?
    ensures WalkOk(WalkAction(s, spurious), ViewStep(s, v, StepWalk(spurious)))
  {
    CurrentNode(s, v, v.at);
  }

  lemma ScanPasses(value: seq<Item>, t: Trail, item: Item, prev: int, cur: int, val: Item)
    requires Standing(t, cur) && Scanning(value, t, item, prev) && Holds(value, cur, val) && val != item
    requires cur in t.items
    ensures Scanning(value, t.(at := t.at + 1), item, cur)
  {
  }

  lemma CompareKeepsWalk(s: Bag, v: View, spurious: bool)
    requires Lists(s, v) && WalkOk(s, v) && s.walker.ScanNext?
    ensures WalkOk(WalkAction(s, spurious), ViewStep(s, v, StepWalk(spurious)))
  {
    var ScanNext(item, prev, cur, val) := s.walker;
    CurrentNode(s, v, v.at);
    if val == item {
      assert WalkAction(s, spurious) == s.(walker := ScanCas(item, prev, cur, s.next[cur]));
    } else {
      ScanPasses(s.value, TrailOf(v), item, prev, cur, val);
      AdvanceKeepsWalk(s, v, item, cur, v.lost);
    }
  }

  lemma YieldedOneMore(value: seq<Item>, seen: seq<Item>, t: Trail, k: nat, item: Item)
    requires Yielded(value, seen, t, k) && k < |t.snapshot| && Holds(value, t.snapshot[k], item)
    ensures Yielded(value, seen + [item], t, k + 1)
  {
  }

  lemma YieldKeepsWalk(s: Bag, v: View, spurious: bool)
    requires Lists(s, v) && WalkOk(s, v) && s.walker.IterValue?
    ensures WalkOk(WalkAction(s, spurious), ViewStep(s, v, StepWalk(spurious)))
  {
    CurrentNode(s, v, v.at);
    var cur := s.walker.cur;
    YieldedOneMore(s.value, s.seen, TrailOf(v), v.at, s.value[cur]);
    assert WalkAction(s, spurious) == s.(seen := s.seen + [s.value[cur]], walker := IterNext(cur));
  }

  lemma YieldedSoFar(value: seq<Item>, seen: seq<Item>, t: Trail)
    requires t.at < |t.snapshot| && Yielded(value, seen, t, t.at + 1)
    ensures Yielded(value, seen, t.(at := t.at + 1), t.at + 1)
  {
  }

  lemma IterMoves(s: Bag, v: View, spurious: bool)
    requires Lists(s, v) && WalkOk(s, v) && s.walker.IterNext?
    ensures ViewStep(s, v, StepWalk(spurious)) == v.(at := v.at + 1)
    ensures WalkAction(s, spurious)
            == s.(walker := if v.at + 1 < |v.snapshot| then IterValue(v.snapshot[v.at + 1]) else WalkIdle)
  {
    CurrentNode(s, v, v.at);
    if v.at + 1 < |v.snapshot| { CurrentNode(s, v, v.at + 1); }
  }

  lemma NextStands(t: Trail, cur: int)
    requires Standing(t, cur) && t.at + 1 < |t.snapshot|
    ensures Standing(t.(at := t.at + 1), t.snapshot[t.at + 1])
  {
  }

  lemma IterKeepsWalk(s: Bag, v: View, spurious: bool)
    requires Lists(s, v) && WalkOk(s, v) && s.walker.IterNext?
    ensures WalkOk(WalkAction(s, spurious), ViewStep(s, v, StepWalk(spurious)))
  {
    IterMoves(s, v, spurious);
    var t := TrailOf(v);
    YieldedSoFar(s.value, s.seen, t);
    if t.at + 1 < |t.snapshot| { NextStands(t, s.walker.cur); }
  }

  /** Before it has lost, a scan that thinks it is at the head stands on the first snapshot node; so
      if the head is another node, a push has moved it. */
  lemma HeadHasMoved(s: Bag, v: View, item: Item)
    requires Lists(s, v) && Scanning(s.value, TrailOf(v), item, NIL) && !v.lost
    requires v.at < |v.snapshot| && s.itemsHead != v.snapshot[v.at]
    ensures v.at == 0 && |v.items| > |v.snapshot|
  {
    if v.at > 0 { CurrentNode(s, v, v.at - 1); }
    assert v.items[0..] == v.items;
  }

  lemma MissAtHeadKeepsWalk(s: Bag, v: View, spurious: bool)
    requires Lists(s, v) && WalkOk(s, v) && s.walker.ScanCas? && !Unlinks(s) && s.walker.prev == NIL
    ensures WalkOk(WalkAction(s, spurious), v.(at := v.at + 1, lost := true))
  {
    CurrentNode(s, v, v.at);
    if !v.lost { HeadHasMoved(s, v, s.walker.item); }
    assert v.items[0] == s.itemsHead && v.items[0] in v.items;
    AdvanceKeepsWalk(s, v, s.walker.item, s.itemsHead, true);
  }

  /** Further on the compare-exchange only fails after the scan has lost at the head. */
  lemma MissBehindKeepsWalk(s: Bag, v: View, spurious: bool)
    requires Lists(s, v) && WalkOk(s, v) && s.walker.ScanCas? && !Unlinks(s) && s.walker.prev != NIL
    ensures v.lost && WalkOk(WalkAction(s, spurious), v.(at := v.at + 1, lost := true))
  {
    var prev := s.walker.prev;
    CurrentNode(s, v, v.at);
    if !v.lost { CurrentNode(s, v, v.at - 1); }
    var j :| 0 <= j < |v.items| && v.items[j] == prev;
    ChainNext(s.itemsHead, s.next, v.items, j);
    AdvanceKeepsWalk(s, v, s.walker.item, s.next[prev], true);
  }

  lemma MissKeepsWalk(s: Bag, v: View, spurious: bool)
    requires Lists(s, v) && WalkOk(s, v) && s.walker.ScanCas? && !Unlinks(s)
    ensures WalkOk(WalkAction(s, spurious), v.(at := v.at + 1, lost := true))
  {
    if s.walker.prev == NIL {
      MissAtHeadKeepsWalk(s, v, spurious);
    } else {
      MissBehindKeepsWalk(s, v, spurious);
    }
  }

  /** A step that stores nothing keeps the lists, the pusher's knowledge and the balance. */
  lemma QuietKeepsCore(s: Bag, v: View, s': Bag, v': View)
    requires Core(s, v)
    requires s' == s.(walker := s'.walker, seen := s'.seen, removeAnswer := s'.removeAnswer)
    requires WalkerNode(s'.walker) == WalkerNode(s.walker) && Leaving(s'.walker) == Leaving(s.walker)
    requires v'.items == v.items && v'.free == v.free
    ensures Core(s', v')
  {
  }

  lemma UnlinkHeadChain(s: Bag, v: View)
    requires Lists(s, v) && Unlinks(s) && WalkOk(s, v) && s.walker.prev == NIL
    ensures Chain(Unlinked(s).itemsHead, s.next, Without(v.items, s.walker.cur))
  {
    CurrentNode(s, v, v.at);
    assert v.items[0] == s.itemsHead;
    assert Without(v.items, s.walker.cur) == v.items[1..];
  }

  /** Where the scan stands in the items list, and that its two nodes are not free. */
  lemma UnlinkPlace(s: Bag, v: View) returns (i: nat)
    requires Lists(s, v) && Unlinks(s) && WalkOk(s, v) && s.walker.prev != NIL
    ensures 0 < i < |v.items| && v.items[i] == s.walker.cur && v.items[i - 1] == s.walker.prev
    ensures 0 <= s.walker.prev < |s.next| && 0 <= s.walker.cur < |s.next|
    ensures s.walker.next == s.next[s.walker.cur] && s.walker.prev !in v.free
  {
    CurrentNode(s, v, v.at);
    i := |v.items| - |v.snapshot| + v.at;
    var j := Neighbours(s.itemsHead, s.next, v.items, s.walker.prev, s.walker.cur);
    ChainAcyclic(s.itemsHead, s.next, v.items);
    assert j + 1 == i;
  }

  lemma UnlinkMiddleChains(s: Bag, v: View)
    requires Lists(s, v) && Unlinks(s) && WalkOk(s, v) && s.walker.prev != NIL
    ensures Chain(s.itemsHead, Unlinked(s).next, Without(v.items, s.walker.cur))
    ensures Chain(s.freeHead, Unlinked(s).next, v.free)
  {
    var i := UnlinkPlace(s, v);
    UnlinkNode(s.itemsHead, s.next, v.items, i);
    ChainFrame(s.freeHead, s.next, s.next[s.walker.prev := s.walker.next], v.free);
  }

  lemma UnlinkedPartition(nodes: nat, items: seq<int>, free: seq<int>, p: int, cur: int)
    requires Partition(nodes, items, free, p, NIL) && NoDuplicates(items) && cur in items
    ensures Partition(nodes, Without(items, cur), free, p, cur)
  {
    var i :| 0 <= i < |items| && items[i] == cur;
    WithoutNode(items, i);
  }

  lemma UnlinkKeepsLists(s: Bag, v: View)
    requires Lists(s, v) && Unlinks(s) && WalkOk(s, v)
    ensures Lists(Unlinked(s), v.(items := Without(v.items, s.walker.cur)))
  {
    if s.walker.prev == NIL { UnlinkHeadChain(s, v); } else { UnlinkMiddleChains(s, v); }
    CurrentNode(s, v, v.at);
    ChainAcyclic(s.itemsHead, s.next, v.items);
    UnlinkedPartition(|s.next|, v.items, v.free, PusherNode(s.pusher), s.walker.cur);
  }

  /** The pusher's view of the free list survives: the list only grows at its head, so with a single
      popper the compare-exchange in `pop_from_free_list` cannot suffer from ABA. */
  lemma UnlinkKeepsPush(s: Bag, v: View)
    requires Lists(s, v) && Unlinks(s) && PusherOk(s.pusher, s.next, s.value, v.free)
    requires s.walker.prev == NIL || s.walker.prev in v.items
    ensures PusherOk(s.pusher, Unlinked(s).next, s.value, v.free)
  {
    ChainRange(s.freeHead, s.next, v.free);
  }

  lemma UnlinkKeepsBalance(s: Bag, v: View)
    requires Balanced(s, v) && Unlinks(s)
    requires s.walker.cur in v.items && Holds(s.value, s.walker.cur, s.walker.item)
    ensures Balanced(Unlinked(s), v.(items := Without(v.items, s.walker.cur)))
  {
    WithoutItem(v.items, s.walker.cur, s.value);
  }

  lemma UnlinkKeepsInv(s: Bag, v: View)
    requires Inv(s, v) && Unlinks(s)
    ensures Inv(Unlinked(s), v.(items := Without(v.items, s.walker.cur)))
  {
    CurrentNode(s, v, v.at);
    UnlinkKeepsLists(s, v);
    UnlinkKeepsPush(s, v);
    UnlinkKeepsBalance(s, v);
  }

  lemma FreeLinkKeepsInv(s: Bag, v: View, spurious: bool)
    requires Inv(s, v) && s.walker.FreeLink?
    ensures Inv(WalkAction(s, spurious), v)
  {
    var s' := WalkAction(s, spurious);
    ChainRange(s.freeHead, s.next, v.free);
    ChainFrame(s.itemsHead, s.next, s'.next, v.items);
    ChainFrame(s.freeHead, s.next, s'.next, v.free);
  }

  lemma FreeCasKeepsInv(s: Bag, v: View, spurious: bool)
    requires Inv(s, v) && s.walker.FreeCas?
    ensures Inv(WalkAction(s, spurious), ViewStep(s, v, StepWalk(spurious)))
  {
    var v' := ViewStep(s, v, StepWalk(spurious));
    if s.freeHead == s.walker.top && !spurious {
      ChainRange(s.freeHead, s.next, v.free);
      ChainRange(s.itemsHead, s.next, v.items);
      ChainPush(s.freeHead, s.next, v.free, s.walker.node);
      assert forall n :: n in v'.free <==> n in v.free || n == s.walker.node;
    }
  }

  lemma QuietShape(s: Bag, spurious: bool)
    requires !Unlinks(s) && !s.walker.FreeLink? && !s.walker.FreeCas?
    ensures var s' := WalkAction(s, spurious);
            && s' == s.(walker := s'.walker, seen := s'.seen, removeAnswer := s'.removeAnswer)
            && WalkerNode(s'.walker) == WalkerNode(s.walker) && Leaving(s'.walker) == Leaving(s.walker)
  {
    match s.walker {
      case ScanNext(_, _, _, _) =>
      case ScanCas(_, _, _, _) =>
      case _ =>
    }
  }

  lemma QuietView(s: Bag, v: View, spurious: bool)
    requires !Unlinks(s) && !s.walker.FreeCas?
    ensures var v' := ViewStep(s, v, StepWalk(spurious));
            v' == v.(at := v'.at, lost := v'.lost)
  {
  }

  lemma QuietKeepsWalk(s: Bag, v: View, spurious: bool)
    requires Lists(s, v) && WalkOk(s, v) && !Unlinks(s) && !s.walker.FreeLink? && !s.walker.FreeCas?
    ensures WalkOk(WalkAction(s, spurious), ViewStep(s, v, StepWalk(spurious)))
  {
    match s.walker {
      case ScanValue(_, _, _) => ReadKeepsWalk(s, v, spurious);
      case ScanNext(_, _, _, _) => CompareKeepsWalk(s, v, spurious);
      case ScanCas(_, _, _, _) => MissKeepsWalk(s, v, spurious);
      case IterValue(_) => YieldKeepsWalk(s, v, spurious);
      case IterNext(_) => IterKeepsWalk(s, v, spurious);
      case _ =>
    }
  }

  lemma WalkKeepsInv(s: Bag, v: View, spurious: bool)
    requires Inv(s, v)
    ensures Inv(WalkAction(s, spurious), ViewStep(s, v, StepWalk(spurious)))
  {
    var s', v' := WalkAction(s, spurious), ViewStep(s, v, StepWalk(spurious));
    if Unlinks(s) {
      assert s' == Unlinked(s) && v' == v.(items := Without(v.items, s.walker.cur));
      UnlinkKeepsInv(s, v);
    } else if s.walker.FreeLink? {
      FreeLinkKeepsInv(s, v, spurious);
      assert v' == v;
    } else if s.walker.FreeCas? {
      FreeCasKeepsInv(s, v, spurious);
    } else {
      QuietShape(s, spurious);
      QuietView(s, v, spurious);
      QuietKeepsCore(s, v, s', v');
      QuietKeepsWalk(s, v, spurious);
    }
  }

  // ---- every run ------------------------------------------------------------------------------

  lemma BeginKeepsInv(s: Bag, v: View, a: Action)
    requires Inv(s, v) && (a.BeginPush? || a.BeginRemove? || a.BeginIterate?)
    ensures Inv(Step(s, a), ViewStep(s, v, a))
  {
    if s.freeHead != NIL { assert v.free[0] in v.free; }
    assert v.items[|v.items| - |v.items|..] == v.items;
  }

  lemma StepKeepsInv(s: Bag, v: View, a: Action)
    requires Inv(s, v)
    ensures Inv(Step(s, a), ViewStep(s, v, a))
  {
    match a {
      case StepPush(spurious) =>
        PushKeepsCore(s, v, spurious);
        PushIsInFront(s, v, spurious);
        PushKeepsWalk(s, v, PushAction(s, spurious), ViewStep(s, v, a));
      case StepWalk(spurious) => WalkKeepsInv(s, v, spurious);
      case _ => BeginKeepsInv(s, v, a);
    }
  }

  lemma InitInv(value: seq<Item>)
    requires |value| > 0
    ensures Inv(Init(value), InitView(|value|))
  {
    var s := Init(value);
    InitialChain(s.next, 0);
    assert InitView(|value|).free == seq(|value|, i => 0 + i);
    forall n | 0 <= n < |value| ensures n in InitView(|value|).free { assert InitView(|value|).free[n] == n; }
  }

  /** Whatever the two threads do, in whatever order, the bag keeps its shape. */
  lemma {:induction false} RunKeepsInv(value: seq<Item>, acts: seq<Action>)
    requires |value| > 0
    ensures Inv(Run(Init(value), acts), ViewRun(Init(value), InitView(|value|), acts))
    decreases |acts|
  {
    InitInv(value);
    if acts != [] {
      var before := acts[..|acts| - 1];
      RunKeepsInv(value, before);
      StepKeepsInv(Run(Init(value), before), ViewRun(Init(value), InitView(|value|), before), acts[|acts| - 1]);
    }
  }

  function Hand(node: int): seq<int> {
    if node == NIL then [] else [node]
  }

  /** Both lists are acyclic, no node is in two places, and the counts add up to the capacity. */
  lemma {:induction false} NodesAreConserved(value: seq<Item>, acts: seq<Action>)
    requires |value| > 0
    ensures var s := Run(Init(value), acts);
            var v := ViewRun(Init(value), InitView(|value|), acts);
            && |s.next| == |s.value|
            && Chain(s.itemsHead, s.next, v.items) && Chain(s.freeHead, s.next, v.free)
            && NoDuplicates(v.items + v.free + Hand(PusherNode(s.pusher)) + Hand(WalkerNode(s.walker)))
            && |v.items| + |v.free| + |Hand(PusherNode(s.pusher))| + |Hand(WalkerNode(s.walker))| == |s.next|
  {
    RunKeepsInv(value, acts);
    var s := Run(Init(value), acts);
    var v := ViewRun(Init(value), InitView(|value|), acts);
    ChainAcyclic(s.itemsHead, s.next, v.items);
    ChainAcyclic(s.freeHead, s.next, v.free);
    ChainRange(s.itemsHead, s.next, v.items);
    ChainRange(s.freeHead, s.next, v.free);
    PlacesAreDistinct(|s.next|, v.items, v.free, PusherNode(s.pusher), WalkerNode(s.walker));
    var all := v.items + v.free + Hand(PusherNode(s.pusher)) + Hand(WalkerNode(s.walker));
    AllNodes(all, |s.next|);
  }

  lemma PlacesAreDistinct(nodes: nat, items: seq<int>, free: seq<int>, p: int, w: int)
    requires Partition(nodes, items, free, p, w) && NoDuplicates(items) && NoDuplicates(free)
    requires NIL <= p < nodes && NIL <= w < nodes
    requires forall x | x in items || x in free :: 0 <= x < nodes
    ensures NoDuplicates(items + free + Hand(p) + Hand(w))
    ensures forall x :: x in items + free + Hand(p) + Hand(w) <==> 0 <= x < nodes
  {
    var all := items + free + Hand(p) + Hand(w);
    forall i, j | 0 <= i < j < |all| ensures all[i] != all[j] {
      var a, b := |items|, |items| + |free|;
      if i < a { assert all[i] in items; } else if i < b { assert all[i] == free[i - a]; assert all[i] in free; }
      if j < a { assert all[j] in items; } else if j < b { assert all[j] == free[j - a]; assert all[j] in free; }
    }
  }

  // ---- what the callers are told --------------------------------------------------------------

  /** The bag refines a multiset: while no `remove` is between its unlinking and its return, the
      contents are exactly what was pushed and not removed. */
  lemma {:induction false} BagIsAMultiset(value: seq<Item>, acts: seq<Action>)
    requires |value| > 0
    ensures var s := Run(Init(value), acts);
            var v := ViewRun(Init(value), InitView(|value|), acts);
            && s.removed <= s.pushed
            && (WalkerNode(s.walker) == NIL ==> Contents(v.items, s.value) == s.pushed - s.removed)
  {
    RunKeepsInv(value, acts);
    var s := Run(Init(value), acts);
    var v := ViewRun(Init(value), InitView(|value|), acts);
    if WalkerNode(s.walker) == NIL {
      assert s.pushed == Contents(v.items, s.value) + s.removed;
    }
  }

  /** The action in which `push` answers false. */
  ghost predicate Refuses(s: Bag, a: Action) {
    && ((a.BeginPush? && s.pusher.PushIdle?) || (a.StepPush? && s.pusher.PopCas?))
    && Step(s, a).pusher.PushIdle?
  }

  /** `push` answers false only when no node is free: every node then holds an item, except the one a
      running `remove` may be about to free. */
  lemma {:induction false} PushFailsOnlyWhenFull(value: seq<Item>, acts: seq<Action>, a: Action)
    requires |value| > 0
    requires Refuses(Run(Init(value), acts), a)
    ensures var s := Run(Init(value), acts);
            var v := ViewRun(Init(value), InitView(|value|), acts);
            v.free == [] && |v.items| + |Hand(WalkerNode(s.walker))| == |value|
  {
    RunKeepsInv(value, acts);
    NodesAreConserved(value, acts);
    CapacityIsFixed(value, acts);
    RefusedPush(Run(Init(value), acts), a);
  }

  lemma RefusedPush(s: Bag, a: Action)
    requires Refuses(s, a)
    ensures s.freeHead == NIL && PusherNode(s.pusher) == NIL
  {
  }

  lemma {:induction false} CapacityIsFixed(value: seq<Item>, acts: seq<Action>)
    requires |value| > 0
    ensures |Run(Init(value), acts).next| == |value|
    decreases |acts|
  {
    if acts != [] {
      var before := acts[..|acts| - 1];
      CapacityIsFixed(value, before);
      StepKeepsCapacity(Run(Init(value), before), acts[|acts| - 1]);
    }
  }

  lemma StepKeepsCapacity(s: Bag, a: Action)
    ensures |Step(s, a).next| == |s.next|
  {
  }

  /** The action in which `remove` gives up. */
  ghost predicate GivesUp(s: Bag, a: Action, item: Item) {
    && (s.walker.ScanNext? || s.walker.ScanCas?) && s.walker.item == item
    && a.StepWalk? && Step(s, a).walker.WalkIdle?
  }

  /** As long as no compare-exchange of the scan has failed, one fails exactly on the first node, and
      there exactly if a push has swung the head since the scan loaded it. */
  lemma FailsIffOvertaken(s: Bag, v: View)
    requires Lists(s, v) && WalkOk(s, v) && s.walker.ScanCas? && !v.lost
    ensures !Unlinks(s) <==> s.walker.prev == NIL && v.pushes > 0
    ensures s.walker.prev == NIL <==> v.at == 0
  {
    CurrentNode(s, v, v.at);
    if v.at > 0 {
      CurrentNode(s, v, v.at - 1);
    } else {
      assert v.items[0] == s.itemsHead;
      if v.pushes > 0 {
        ChainAcyclic(s.itemsHead, s.next, v.items);
        assert v.items[v.pushes] == s.walker.cur != v.items[0];
      }
    }
  }

  /** A scan that gives up has overlooked the item exactly if a compare-exchange of it failed. */
  lemma GivingUp(s: Bag, v: View, a: Action, item: Item)
    requires Lists(s, v) && WalkOk(s, v) && GivesUp(s, a, item)
    ensures (exists i :: 0 <= i < |v.snapshot| && Holds(s.value, v.snapshot[i], item))
            <==> ViewStep(s, v, a).lost
    ensures ViewStep(s, v, a).lost ==> Holds(s.value, v.snapshot[0], item)
  {
    CurrentNode(s, v, v.at);
    if v.at + 1 < |v.snapshot| { CurrentNode(s, v, v.at + 1); }
    if s.walker.ScanCas? && !v.lost { FailsIffOvertaken(s, v); }
    if ViewStep(s, v, a).lost { assert Holds(s.value, v.snapshot[0], item); }
  }

  lemma GivingUpChangesNothing(s: Bag, a: Action, item: Item)
    requires GivesUp(s, a, item)
    ensures Step(s, a) == s.(walker := WalkIdle, removeAnswer := Answer(false))
  {
  }

  /** A false `remove` deletes nothing.  The item was nevertheless there when it loaded the head, exactly
      if a compare-exchange of the scan failed; and then it is in the first node of that list. */
  lemma {:induction false} RemoveMissesIffLost(value: seq<Item>, acts: seq<Action>, a: Action, item: Item)
    requires |value| > 0 && GivesUp(Run(Init(value), acts), a, item)
    ensures var s := Run(Init(value), acts);
            var v := ViewRun(Init(value), InitView(|value|), acts);
            && Step(s, a) == s.(walker := WalkIdle, removeAnswer := Answer(false))
            && ((exists i :: 0 <= i < |v.snapshot| && Holds(s.value, v.snapshot[i], item))
                <==> ViewStep(s, v, a).lost)
            && (ViewStep(s, v, a).lost ==> |v.snapshot| > 0 && Holds(s.value, v.snapshot[0], item))
  {
    RunKeepsInv(value, acts);
    var s := Run(Init(value), acts);
    GivingUpChangesNothing(s, a, item);
    GivingUp(s, ViewRun(Init(value), InitView(|value|), acts), a, item);
  }

  /** And a compare-exchange of a scan is lost exactly as follows: it is the one on the first node, and a
      push has swung the head after the scan loaded it and before this compare-exchange. */
  lemma {:induction false} LostIffOvertaken(value: seq<Item>, acts: seq<Action>, a: Action)
    requires |value| > 0 && !ViewRun(Init(value), InitView(|value|), acts).lost
    ensures var s := Run(Init(value), acts);
            var v := ViewRun(Init(value), InitView(|value|), acts);
            ViewStep(s, v, a).lost
            <==> a.StepWalk? && s.walker.ScanCas? && s.walker.prev == NIL && v.pushes > 0
  {
    RunKeepsInv(value, acts);
    var s, v := Run(Init(value), acts), ViewRun(Init(value), InitView(|value|), acts);
    if s.walker.ScanCas? { FailsIffOvertaken(s, v); }
  }

  /** The item is in exactly one node of the list the scan loaded. */
  ghost predicate Once(value: seq<Item>, snapshot: seq<int>, item: Item) {
    exists i :: 0 <= i < |snapshot| && Holds(value, snapshot[i], item)
                && forall j | 0 <= j < |snapshot| && Holds(value, snapshot[j], item) :: j == i
  }

  lemma DeletingOnce(s: Bag, v: View)
    requires Lists(s, v) && WalkOk(s, v) && Unlinks(s) && Once(s.value, v.snapshot, s.walker.item)
    ensures !v.lost
  {
    CurrentNode(s, v, v.at);
    assert Holds(s.value, v.snapshot[v.at], s.walker.item);
  }

  lemma GivingUpOnce(s: Bag, v: View, a: Action, item: Item)
    requires Lists(s, v) && WalkOk(s, v) && GivesUp(s, a, item) && Once(s.value, v.snapshot, item)
    ensures ViewStep(s, v, a).lost
  {
    GivingUp(s, v, a, item);
    var i :| 0 <= i < |v.snapshot| && Holds(s.value, v.snapshot[i], item);
  }

  /** So a `remove` of an item that is there once ends in one of two ways: it deletes the item, having lost
      no compare-exchange, or it answers false, having lost one. */
  lemma {:induction false} FalseIffLost(value: seq<Item>, acts: seq<Action>, a: Action, item: Item)
    requires |value| > 0 && a.StepWalk?
    requires var s := Run(Init(value), acts);
             Once(s.value, ViewRun(Init(value), InitView(|value|), acts).snapshot, item)
    ensures var s := Run(Init(value), acts);
            var v := ViewRun(Init(value), InitView(|value|), acts);
            && (GivesUp(s, a, item) ==> ViewStep(s, v, a).lost)
            && (Unlinks(s) && s.walker.item == item ==> !ViewStep(s, v, a).lost)
  {
    RunKeepsInv(value, acts);
    var s, v := Run(Init(value), acts), ViewRun(Init(value), InitView(|value|), acts);
    if GivesUp(s, a, item) {
      GivingUpOnce(s, v, a, item);
    } else if Unlinks(s) && s.walker.item == item {
      DeletingOnce(s, v);
    }
  }

  // ---- a run in which remove misses -----------------------------------------------------------

  lemma {:induction false} RunConcat(s: Bag, a: seq<Action>, b: seq<Action>)
    ensures Run(s, a + b) == Run(Run(s, a), b)
    decreases |b|
  {
    if b == [] {
      assert a + b == a;
    } else {
      assert (a + b)[..|a + b| - 1] == a + b[..|b| - 1];
      RunConcat(s, a, b[..|b| - 1]);
    }
  }

  lemma RunFirst(s: Bag, a: Action, rest: seq<Action>)
    ensures Run(s, [a] + rest) == Run(Step(s, a), rest)
  {
    assert [a][..0] == [];
    RunConcat(s, [a], rest);
  }

  function Pushing(): seq<Action> {
    [StepPush(false), StepPush(false), StepPush(false), StepPush(false), StepPush(false), StepPush(false)]
  }

  /** A push nothing interferes with. */
  function Pushed(s: Bag, item: Item): Bag
    requires 0 <= s.freeHead < |s.next| == |s.value|
  {
    var top := s.freeHead;
    s.(freeHead := s.next[top], itemsHead := top, value := s.value[top := item],
       next := s.next[top := s.itemsHead], pushed := s.pushed + multiset{item}, pushAnswer := Answer(true))
  }

  lemma PushTwice(s: Bag)
    ensures Run(s, [StepPush(false), StepPush(false)]) == PushAction(PushAction(s, false), false)
  {
    var go := StepPush(false);
    assert [go, go][..1] == [go] && [go][..0] == [];
    assert Run(s, [go]) == Step(s, go);
  }

  lemma PushTakesNode(s: Bag, item: Item, top: int)
    requires s.pusher == PopNext(item, top) && 0 <= s.freeHead == top < |s.next| == |s.value|
    ensures PushAction(PushAction(s, false), false)
            == s.(freeHead := s.next[top], pusher := PutValue(item, top))
  {
  }

  lemma PushFillsNode(s: Bag, item: Item, top: int)
    requires s.pusher == PutValue(item, top) && 0 <= top < |s.next| == |s.value|
    ensures PushAction(PushAction(s, false), false)
            == s.(value := s.value[top := item], pusher := PutLink(item, top, s.itemsHead))
  {
  }

  lemma PushSwingsHead(s: Bag, item: Item, top: int)
    requires s.pusher == PutLink(item, top, s.itemsHead) && 0 <= top < |s.next| == |s.value|
    ensures PushAction(PushAction(s, false), false)
            == s.(next := s.next[top := s.itemsHead], itemsHead := top, pusher := PushIdle,
                  pushed := s.pushed + multiset{item}, pushAnswer := Answer(true))
  {
  }

  lemma PushSixTimes(s: Bag)
    ensures var two := [StepPush(false), StepPush(false)];
            Run(s, Pushing()) == Run(Run(Run(s, two), two), two)
  {
    var two := [StepPush(false), StepPush(false)];
    RunConcat(Run(s, two), two, two);
    RunConcat(s, two, two + two);
    assert Pushing() == two + (two + two);
  }

  lemma UndisturbedPush(s: Bag, item: Item)
    requires s.pusher.PushIdle? && 0 <= s.freeHead < |s.next| == |s.value|
    ensures Run(s, [BeginPush(item)] + Pushing()) == Pushed(s, item)
  {
    var top := s.freeHead;
    var s0 := s.(pushAnswer := Pending, pusher := PopNext(item, top));
    var s1 := s0.(freeHead := s.next[top], pusher := PutValue(item, top));
    var s2 := s1.(value := s.value[top := item], pusher := PutLink(item, top, s.itemsHead));
    RunFirst(s, BeginPush(item), Pushing());
    PushSixTimes(s0);
    PushTwice(s0);
    PushTakesNode(s0, item, top);
    PushTwice(s1);
    PushFillsNode(s1, item, top);
    PushTwice(s2);
    PushSwingsHead(s2, item, top);
  }

  /** Push `x`; begin to remove it, up to its compare-exchange; push `y`; go on. */
  function MissActs(x: Item, y: Item): seq<Action> {
    [BeginPush(x)] + Pushing() + ([BeginRemove(x), StepWalk(false), StepWalk(false)]
    + ([BeginPush(y)] + Pushing() + [StepWalk(false)]))
  }

  lemma RunThree(s: Bag, a: Action, b: Action, c: Action)
    ensures Run(s, [a, b, c]) == Step(Step(Step(s, a), b), c)
  {
    assert [a, b, c][..2] == [a, b] && [a, b][..1] == [a] && [a][..0] == [];
    assert Run(s, [a]) == Step(s, a);
    assert Run(s, [a, b]) == Step(Step(s, a), b);
  }

  lemma ScanSteps(s: Bag, x: Item)
    requires s.walker.WalkIdle? && 0 <= s.itemsHead < |s.next| == |s.value| && s.value[s.itemsHead] == x
    ensures WalkAction(WalkAction(Step(s, BeginRemove(x)), false), false)
            == s.(removeAnswer := Pending, walker := ScanCas(x, NIL, s.itemsHead, s.next[s.itemsHead]))
  {
    var s1 := s.(removeAnswer := Pending, walker := ScanValue(x, NIL, s.itemsHead));
    assert Step(s, BeginRemove(x)) == s1;
    assert WalkAction(s1, false) == s1.(walker := ScanNext(x, NIL, s.itemsHead, x));
  }

  lemma ScanReachesExchange(s: Bag, x: Item)
    requires s.walker.WalkIdle? && 0 <= s.itemsHead < |s.next| == |s.value| && s.value[s.itemsHead] == x
    ensures Run(s, [BeginRemove(x), StepWalk(false), StepWalk(false)])
            == s.(removeAnswer := Pending, walker := ScanCas(x, NIL, s.itemsHead, s.next[s.itemsHead]))
  {
    RunThree(s, BeginRemove(x), StepWalk(false), StepWalk(false));
    ScanSteps(s, x);
  }

  /** With any two items in a bag of two nodes: `remove(x)` has answered false, and `x` is still there. */
  lemma RemoveCanMiss(value: seq<Item>, x: Item, y: Item)
    requires |value| == 2
    ensures var s := Run(Init(value), MissActs(x, y));
            && s.walker.WalkIdle? && s.removeAnswer == Answer(false) && s.removed == multiset{}
            && Contents(ViewRun(Init(value), InitView(|value|), MissActs(x, y)).items, s.value) == multiset{x, y}
  {
    var s0 := Init(value);
    var s1 := Pushed(s0, x);
    UndisturbedPush(s0, x);
    ScanReachesExchange(s1, x);
    var s2 := s1.(removeAnswer := Pending, walker := ScanCas(x, NIL, 0, NIL));
    UndisturbedPush(s2, y);
    var s3 := Pushed(s2, y);
    assert Step(s3, StepWalk(false)) == s3.(walker := WalkIdle, removeAnswer := Answer(false));
    var first, second, third := [BeginPush(x)] + Pushing(), [BeginRemove(x), StepWalk(false), StepWalk(false)],
                                [BeginPush(y)] + Pushing();
    RunConcat(s2, third, [StepWalk(false)]);
    assert [StepWalk(false)][..0] == [];
    RunConcat(s1, second, third + [StepWalk(false)]);
    RunConcat(s0, first, second + (third + [StepWalk(false)]));
    BagIsAMultiset(value, MissActs(x, y));
  }

  lemma Deleting(s: Bag, v: View)
    requires Lists(s, v) && WalkOk(s, v) && Unlinks(s)
    ensures var items' := Without(v.items, s.walker.cur);
            && |items'| == |v.items| - 1
            && Contents(v.items, s.value) == Contents(items', s.value) + multiset{s.walker.item}
  {
    CurrentNode(s, v, v.at);
    ChainAcyclic(s.itemsHead, s.next, v.items);
    WithoutNode(v.items, |v.items| - |v.snapshot| + v.at);
    WithoutItem(v.items, s.walker.cur, s.value);
  }

  /** A successful compare-exchange of `remove` deletes one occurrence of its item and nothing else. */
  lemma {:induction false} RemoveDeletesOne(value: seq<Item>, acts: seq<Action>, a: Action)
    requires |value| > 0 && Unlinks(Run(Init(value), acts)) && a.StepWalk?
    ensures var s := Run(Init(value), acts);
            var v := ViewRun(Init(value), InitView(|value|), acts);
            var v' := ViewRun(Init(value), InitView(|value|), acts + [a]);
            && |v'.items| == |v.items| - 1
            && Contents(v.items, s.value) == Contents(v'.items, s.value) + multiset{s.walker.item}
  {
    RunKeepsInv(value, acts);
    Deleting(Run(Init(value), acts), ViewRun(Init(value), InitView(|value|), acts));
    assert (acts + [a])[..|acts|] == acts;
  }

  lemma Yielding(s: Bag, v: View, a: Action)
    requires Lists(s, v) && WalkOk(s, v)
    requires s.walker.IterNext? && a.StepWalk? && Step(s, a).walker.WalkIdle?
    ensures |s.seen| == |v.snapshot| <= |v.items|
    ensures forall i | 0 <= i < |s.seen| :: Holds(s.value, v.snapshot[i], s.seen[i])
  {
    CurrentNode(s, v, v.at);
    if v.at + 1 < |v.snapshot| { CurrentNode(s, v, v.at + 1); }
  }

  /** When an iteration ends it has yielded the items that were in the bag when it started, in order,
      whatever was pushed meanwhile; and there are no more of them than nodes. */
  lemma {:induction false} IterationYieldsSnapshot(value: seq<Item>, acts: seq<Action>, a: Action)
    requires |value| > 0
    requires var s := Run(Init(value), acts);
             s.walker.IterNext? && a.StepWalk? && Step(s, a).walker.WalkIdle?
    ensures var s := Run(Init(value), acts);
            var v := ViewRun(Init(value), InitView(|value|), acts);
            && |s.seen| == |v.snapshot| <= |value|
            && forall i | 0 <= i < |s.seen| :: Holds(s.value, v.snapshot[i], s.seen[i])
  {
    RunKeepsInv(value, acts);
    Yielding(Run(Init(value), acts), ViewRun(Init(value), InitView(|value|), acts), a);
    NodesAreConserved(value, acts);
    CapacityIsFixed(value, acts);
  }

  // ---- the bag as an atomic sequence ----------------------------------------------------------

  /** The items of a list, in order. */
  function ItemsOf(l: seq<int>, value: seq<Item>): seq<Item> {
    if l == [] then []
    else (if 0 <= l[0] < |value| then [value[l[0]]] else []) + ItemsOf(l[1..], value)
  }

  lemma {:induction false} ItemsFrame(l: seq<int>, value: seq<Item>, value': seq<Item>)
    requires |value| == |value'|
    requires forall n | n in l && 0 <= n < |value| :: value[n] == value'[n]
    ensures ItemsOf(l, value) == ItemsOf(l, value')
  {
    if l != [] {
      assert l[0] in l && forall n | n in l[1..] :: n in l;
      ItemsFrame(l[1..], value, value');
    }
  }

  lemma {:induction false} ItemsConcat(a: seq<int>, b: seq<int>, value: seq<Item>)
    ensures ItemsOf(a + b, value) == ItemsOf(a, value) + ItemsOf(b, value)
  {
    if a == [] {
      assert a + b == b;
    } else {
      ItemsConcat(a[1..], b, value);
      assert (a + b)[1..] == a[1..] + b && (a + b)[0] == a[0];
      var first := if 0 <= a[0] < |value| then [value[a[0]]] else [];
      var more := ItemsOf(a[1..], value);
      assert first + (more + ItemsOf(b, value)) == (first + more) + ItemsOf(b, value);
    }
  }

  /** `bag'` is `bag` without one occurrence of `item`. */
  ghost predicate OneLess(bag: seq<Item>, bag': seq<Item>, item: Item) {
    exists i :: 0 <= i < |bag| && bag[i] == item && bag' == bag[..i] + bag[i + 1..]
  }

  lemma UnlinkTakesOne(items: seq<int>, value: seq<Item>, i: nat, item: Item)
    requires NoDuplicates(items) && i < |items| && Holds(value, items[i], item)
    ensures OneLess(ItemsOf(items, value), ItemsOf(Without(items, items[i]), value), item)
  {
    WithoutNode(items, i);
    var a, b := items[..i], items[i + 1..];
    SplitAround(items, i);
    ItemsConcat(a, b, value);
    ItemsConcat(a + [items[i]], b, value);
    ItemsConcat(a, [items[i]], value);
    var front, back := ItemsOf(a, value), ItemsOf(b, value);
    assert ItemsOf([items[i]], value) == [item];
    var bag := ItemsOf(items, value);
    assert bag == front + [item] + back;
    assert bag[|front|] == item && bag[..|front|] == front && bag[|front| + 1..] == back;
  }

  /** Does this action swing the head of the items list to the pusher's node? */
  predicate Swings(s: Bag, a: Action) {
    a.StepPush? && s.pusher.PutCas? && s.itemsHead == s.pusher.top && !a.spurious
  }

  lemma OtherStepsKeepList(s: Bag, v: View, a: Action)
    requires !Swings(s, a) && !(a.StepWalk? && Unlinks(s))
    ensures ViewStep(s, v, a).items == v.items
    ensures (a.StepPush? && s.pusher.PutValue?) || Step(s, a).value == s.value
  {
    match a {
      case StepPush(_) =>
      case StepWalk(_) =>
      case _ =>
    }
  }

  lemma OtherStepsKeepItems(s: Bag, v: View, a: Action)
    requires Core(s, v) && !Swings(s, a) && !(a.StepWalk? && Unlinks(s))
    ensures ViewStep(s, v, a).items == v.items
    ensures ItemsOf(ViewStep(s, v, a).items, Step(s, a).value) == ItemsOf(v.items, s.value)
  {
    OtherStepsKeepList(s, v, a);
    ItemsFrame(v.items, s.value, Step(s, a).value);
  }

  lemma SwingAddsItem(s: Bag, v: View, a: Action)
    requires Core(s, v) && Swings(s, a)
    ensures ItemsOf(ViewStep(s, v, a).items, Step(s, a).value) == [s.pusher.item] + ItemsOf(v.items, s.value)
  {
    var items := [s.pusher.node] + v.items;
    assert ViewStep(s, v, a).items == items && items[1..] == v.items;
  }

  lemma UnlinkDropsNode(s: Bag, v: View, a: Action)
    requires a.StepWalk? && Unlinks(s)
    ensures ViewStep(s, v, a).items == Without(v.items, s.walker.cur) && Step(s, a).value == s.value
  {
  }

  lemma UnlinkTakesItem(s: Bag, v: View, a: Action)
    requires Inv(s, v) && a.StepWalk? && Unlinks(s)
    ensures
      OneLess(ItemsOf(v.items, s.value), ItemsOf(ViewStep(s, v, a).items, Step(s, a).value), s.walker.item)
  {
    CurrentNode(s, v, v.at);
    ChainAcyclic(s.itemsHead, s.next, v.items);
    UnlinkTakesOne(v.items, s.value, |v.items| - |v.snapshot| + v.at, s.walker.item);
    UnlinkDropsNode(s, v, a);
  }

  /** Seen as a sequence of items, the bag is atomic: the swing of a push puts its item in front, the
      successful compare-exchange of a remove takes out one occurrence of its item, and no other action of
      either thread changes it. */
  lemma StepIsAtomic(s: Bag, v: View, a: Action)
    requires Inv(s, v)
    ensures var bag, bag' := ItemsOf(v.items, s.value), ItemsOf(ViewStep(s, v, a).items, Step(s, a).value);
            if Swings(s, a) then bag' == [s.pusher.item] + bag
            else if a.StepWalk? && Unlinks(s) then OneLess(bag, bag', s.walker.item)
            else bag' == bag
  {
    if Swings(s, a) {
      SwingAddsItem(s, v, a);
    } else if a.StepWalk? && Unlinks(s) {
      UnlinkTakesItem(s, v, a);
    } else {
      OtherStepsKeepItems(s, v, a);
    }
  }
}
