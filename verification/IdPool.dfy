/** The lock-free pool of subscription IDs: a free list through the nodes, popped by `rent`, searched
    by `try_rent`, pushed by `returns`.

    Any number of threads may return IDs; the threads allowed to rent are a parameter.  Every read or
    write of shared memory is one action; an action a thread is not ready for does nothing. */
module IdPool {
  import opened Chains

  /** Program points of one thread; the fields are its locals.  Node `n` carries ID `n`. */
  datatype Point =
    | Idle
    | RentNext(top: int)
    | RentCas(top: int, next: int)
    | RentReload
    | RentMark(id: int)
    | SeekNext(target: int, prev: int, cur: int)
    | HeadCas(cur: int, next: int)
    | SeekReload(target: int)
    | Mark(prev: int, cur: int, next: int)
    | CheckPrev(prev: int, cur: int, next: int)
    | CheckNext(prev: int, cur: int, next: int)
    | Unmark(cur: int)
    | Unlink(prev: int, cur: int, next: int)
    | ReturnCas(id: int)
    | ReturnHead(id: int)
    | ReturnLink(id: int, top: int)
    | ReturnSwing(id: int, top: int)

  type Thread = nat

  /** Shared memory, the program points, and the IDs the callers have been given and have not yet
      begun to return, counted with multiplicity. */
  datatype Pool = Pool(
    head: int, next: seq<int>, inUse: seq<bool>,
    points: map<Thread, Point>, held: multiset<int>)

  datatype Action =
    | Rent(t: Thread)
    | TryRent(t: Thread, target: int)
    | Return(t: Thread, id: int)
    | Go(t: Thread, spurious: bool)

  function Init(n: nat): Pool
    requires n > 0
  {
    Pool(0, seq(n, i => if i + 1 < n then i + 1 else NIL), seq(n, i => false), map[], multiset{})
  }

  function At(s: Pool, t: Thread): Point {
    if t in s.points then s.points[t] else Idle
  }

  function Put(s: Pool, t: Thread, p: Point): Pool {
    s.(points := s.points[t := p])
  }

  function GiveOut(s: Pool, t: Thread, id: int): Pool {
    Put(s, t, Idle).(held := s.held + multiset{id})
  }

  /** The loop test of `rent` on a freshly loaded head. */
  function RentFrom(s: Pool, t: Thread, head: int): Pool {
    Put(s, t, if head == NIL then Idle else RentNext(head))
  }

  /** The loop test of `try_rent`. */
  function SeekFrom(s: Pool, t: Thread, target: int, prev: int, cur: int): Pool {
    Put(s, t, if cur == NIL then Idle else SeekNext(target, prev, cur))
  }

  function GoStep(s: Pool, t: Thread, spurious: bool): Pool {
    match At(s, t)
    case Idle => s
    case RentNext(top) => Put(s, t, RentCas(top, Load(s.next, top, NIL)))
    case RentCas(top, next) =>
      if s.head == top then Put(s, t, RentMark(top)).(head := next) else Put(s, t, RentReload)
    case RentReload => RentFrom(s, t, s.head)
    case RentMark(id) => GiveOut(s, t, id).(inUse := Store(s.inUse, id, true))
    case SeekNext(target, prev, cur) =>
      var next := Load(s.next, cur, NIL);
      if cur != target then SeekFrom(s, t, target, cur, next)
      else if prev == NIL then Put(s, t, HeadCas(cur, next))
      else Put(s, t, Mark(prev, cur, next))
    case HeadCas(cur, next) =>
      if s.head == cur then GiveOut(s, t, cur).(head := next) else Put(s, t, SeekReload(cur))
    case SeekReload(target) => SeekFrom(s, t, target, NIL, s.head)
    case Mark(prev, cur, next) =>
      Put(s, t, CheckPrev(prev, cur, next)).(inUse := Store(s.inUse, cur, true))
    case CheckPrev(prev, cur, next) =>
      Put(s, t, if Load(s.next, prev, NIL) == cur then CheckNext(prev, cur, next) else Unmark(cur))
    case CheckNext(prev, cur, next) =>
      Put(s, t, if Load(s.next, cur, NIL) == next then Unlink(prev, cur, next) else Unmark(cur))
    case Unmark(cur) => Put(s, t, SeekReload(cur)).(inUse := Store(s.inUse, cur, false))
    case Unlink(prev, cur, next) => GiveOut(s, t, cur).(next := Store(s.next, prev, next))
    case ReturnCas(id) =>
      // a failed exchange throws "ID already returned"; the ID stays with its holder
      if Load(s.inUse, id, false)
      then Put(s, t, ReturnHead(id)).(inUse := Store(s.inUse, id, false))
      else GiveOut(s, t, id)
    case ReturnHead(id) => Put(s, t, ReturnLink(id, s.head))
    case ReturnLink(id, top) => Put(s, t, ReturnSwing(id, top)).(next := Store(s.next, id, top))
    case ReturnSwing(id, top) =>
      if s.head == top && !spurious then Put(s, t, Idle).(head := id) else Put(s, t, ReturnHead(id))
  }

  function Step(s: Pool, renters: set<Thread>, a: Action): Pool {
    match a
    case Rent(t) =>
      if t in renters && At(s, t).Idle? then RentFrom(s, t, s.head) else s
    case TryRent(t, target) =>
      if t in renters && At(s, t).Idle? && target < |s.next| then SeekFrom(s, t, target, NIL, s.head)
      else s
    case Return(t, id) =>
      if At(s, t).Idle? && id in s.held
      then Put(s, t, ReturnCas(id)).(held := s.held - multiset{id}) else s
    case Go(t, spurious) => GoStep(s, t, spurious)
  }

  function Run(s: Pool, renters: set<Thread>, acts: seq<Action>): Pool
    decreases |acts|
  {
    if acts == [] then s
    else Step(Run(s, renters, acts[..|acts| - 1]), renters, acts[|acts| - 1])
  }

  // ---- the abstract pool ----------------------------------------------------------------------

  datatype Owner = InPool | Held | InHand(t: Thread)

  /** The free list, who owns each ID, which held IDs `try_rent` took from the head, and the account
      of the running `rent`: outstanding IDs at its first load, failed rounds, returns completed since
      then and returns completed before its last load; and the list as the running `try_rent` last loaded
      its head, with how many of its IDs it has passed. */
  datatype View = View(
    free: seq<int>, owner: seq<Owner>, viaHead: set<int>,
    outstanding: nat, failed: nat, done: nat, base: nat,
    seen: seq<int>, at: nat)

  function InitView(n: nat): View {
    View(seq(n, i => i), seq(n, i => InPool), {}, 0, 0, 0, 0, [], 0)
  }

  /** The ID a thread has taken out of the pool and not given out, or is putting back. */
  function HandOf(p: Point): int {
    match p
    case RentMark(id) => id
    case ReturnCas(id) => id
    case ReturnHead(id) => id
    case ReturnLink(id, _) => id
    case ReturnSwing(id, _) => id
    case _ => NIL
  }

  predicate Renting(p: Point) {
    p.RentNext? || p.RentCas? || p.RentReload? || p.RentMark? || p.SeekNext? || p.HeadCas?
    || p.SeekReload? || p.Mark? || p.CheckPrev? || p.CheckNext? || p.Unmark? || p.Unlink?
  }

  function ViewGo(s: Pool, v: View, t: Thread, spurious: bool): View {
    match At(s, t)
    case RentCas(top, next) =>
      if s.head == top && v.free != []
      then v.(free := v.free[1..], owner := Store(v.owner, top, InHand(t)))
      else v.(failed := v.failed + 1)
    case RentReload => v.(base := v.done)
    case RentMark(id) => v.(owner := Store(v.owner, id, Held))
    case SeekNext(target, _, cur) => if cur != target then v.(at := v.at + 1) else v
    case SeekReload(_) => v.(seen := v.free, at := 0)
    case HeadCas(cur, next) =>
      if s.head == cur && v.free != []
      then v.(free := v.free[1..], owner := Store(v.owner, cur, Held), viaHead := v.viaHead + {cur})
      else v
    case Unlink(prev, cur, next) =>
      v.(free := Without(v.free, cur), owner := Store(v.owner, cur, Held))
    case ReturnCas(id) =>
      if Load(s.inUse, id, false) then v else v.(owner := Store(v.owner, id, Held))
    case ReturnSwing(id, top) =>
      if s.head == top && !spurious
      then v.(free := [id] + v.free, owner := Store(v.owner, id, InPool), done := v.done + 1)
      else v
    case _ => v
  }

  function ViewStep(s: Pool, v: View, renters: set<Thread>, a: Action): View {
    match a
    case Rent(t) =>
      if t in renters && At(s, t).Idle? && |v.free| <= |v.owner|
      then v.(outstanding := |v.owner| - |v.free|, failed := 0, done := 0, base := 0) else v
    case TryRent(t, target) =>
      if t in renters && At(s, t).Idle? && target < |s.next| then v.(seen := v.free, at := 0) else v
    case Return(t, id) =>
      if At(s, t).Idle? && id in s.held then v.(owner := Store(v.owner, id, InHand(t))) else v
    case Go(t, spurious) => ViewGo(s, v, t, spurious)
  }

  function ViewRun(s: Pool, v: View, renters: set<Thread>, acts: seq<Action>): View
    decreases |acts|
  {
    if acts == [] then v
    else
      var before := acts[..|acts| - 1];
      ViewStep(Run(s, renters, before), ViewRun(s, v, renters, before), renters, acts[|acts| - 1])
  }

  // ---- the invariant --------------------------------------------------------------------------

  /** What a thread knows at its program point about the links and the free list. */
  ghost predicate PointOk(p: Point, next: seq<int>, free: seq<int>) {
    match p
    case RentNext(top) => top in free
    case RentCas(top, n) => top in free && n == Load(next, top, NIL)
    case SeekNext(_, prev, cur) =>
      cur in free && (prev == NIL || (prev in free && Load(next, prev, NIL) == cur))
    case HeadCas(cur, n) => cur in free && n == Load(next, cur, NIL)
    case Mark(prev, cur, n) => Adjacent(next, free, prev, cur, n)
    case CheckPrev(prev, cur, n) => Adjacent(next, free, prev, cur, n)
    case CheckNext(prev, cur, n) => Adjacent(next, free, prev, cur, n)
    case Unmark(cur) => false
    case Unlink(prev, cur, n) => Adjacent(next, free, prev, cur, n)
    case RentMark(id) => id != NIL
    case ReturnCas(id) => id != NIL
    case ReturnHead(id) => id != NIL
    case ReturnLink(id, _) => id != NIL
    case ReturnSwing(id, top) => id != NIL && Load(next, id, NIL) == top
    case _ => true
  }

  ghost predicate Adjacent(next: seq<int>, free: seq<int>, prev: int, cur: int, n: int) {
    prev in free && cur in free && Load(next, prev, NIL) == cur && Load(next, cur, NIL) == n
  }

  /** The ID a `try_rent` has marked in use while it is still in the list. */
  function MarkedBy(p: Point): int {
    match p
    case CheckPrev(_, cur, _) => cur
    case CheckNext(_, cur, _) => cur
    case Unlink(_, cur, _) => cur
    case _ => NIL
  }

  ghost predicate Memory(s: Pool, v: View) {
    && |s.next| == |s.inUse| == |v.owner|
    && Chain(s.head, s.next, v.free)
    && (forall id | id in v.free :: 0 <= id < |v.owner| && v.owner[id] == InPool)
    && (forall id | 0 <= id < |v.owner| && v.owner[id] == InPool :: id in v.free)
    && (forall id :: s.held[id] == if 0 <= id < |v.owner| && v.owner[id] == Held then 1 else 0)
  }

  ghost predicate Threads(s: Pool, v: View, renters: set<Thread>) {
    && (forall t | t in s.points :: PointOk(s.points[t], s.next, v.free))
    && (forall t | t in s.points && Renting(s.points[t]) :: t in renters)
    && (forall t | t in s.points && HandOf(s.points[t]) != NIL ::
          0 <= HandOf(s.points[t]) < |v.owner| && v.owner[HandOf(s.points[t])] == InHand(t))
    && (forall id | 0 <= id < |v.owner| && v.owner[id].InHand? ::
          v.owner[id].t in s.points && HandOf(s.points[v.owner[id].t]) == id)
  }

  /** The marker as one thread relies on it. */
  ghost predicate MarkOk(p: Point, inUse: seq<bool>, viaHead: set<int>) {
    match p
    case ReturnCas(id) => Load(inUse, id, false) <==> id !in viaHead
    case ReturnHead(id) => !Load(inUse, id, false) && id !in viaHead
    case ReturnLink(id, _) => !Load(inUse, id, false) && id !in viaHead
    case ReturnSwing(id, _) => !Load(inUse, id, false) && id !in viaHead
    case RentMark(id) => id !in viaHead
    case _ => MarkedBy(p) != NIL ==> Load(inUse, MarkedBy(p), false)
  }

  /** The marker: set on every rented ID, except those `try_rent` took from the head; clear on every
      ID in the list, except one that a `try_rent` is unlinking. */
  ghost predicate Markers(s: Pool, v: View) {
    && |s.inUse| == |v.owner|
    && (forall id | 0 <= id < |v.owner| && v.owner[id] == Held :: s.inUse[id] <==> id !in v.viaHead)
    && (forall id | 0 <= id < |v.owner| && v.owner[id] == InPool && s.inUse[id] ::
          exists t :: t in s.points && MarkedBy(s.points[t]) == id)
    && (forall id | 0 <= id < |v.owner| && v.owner[id] == InPool :: id !in v.viaHead)
    && (forall t | t in s.points :: MarkOk(s.points[t], s.inUse, v.viaHead))
  }

  ghost predicate Inv(s: Pool, v: View, renters: set<Thread>) {
    Memory(s, v) && Threads(s, v, renters)
  }

  ghost predicate OneRenter(renters: set<Thread>) {
    forall t, u | t in renters && u in renters :: t == u
  }

  // ---- one action -----------------------------------------------------------------------------

  /** A thread's knowledge survives whatever keeps the free nodes, their links and its own link. */
  lemma PointFrame(p: Point, next: seq<int>, free: seq<int>, next': seq<int>, free': seq<int>)
    requires PointOk(p, next, free)
    requires Renting(p) ==> forall x | x in free :: x in free' && Load(next', x, NIL) == Load(next, x, NIL)
    requires HandOf(p) != NIL ==> Load(next', HandOf(p), NIL) == Load(next, HandOf(p), NIL)
    ensures PointOk(p, next', free')
  {
  }

  /** The other threads, when thread `t` has changed the links and the lists in such a way. */
  lemma OthersKeepThreads(s: Pool, v: View, renters: set<Thread>, t: Thread, s': Pool, v': View)
    requires Threads(s, v, renters) && |v'.owner| == |v.owner|
    requires s'.points == s.points[t := At(s', t)]
    requires PointOk(At(s', t), s'.next, v'.free)
    requires Renting(At(s', t)) ==> t in renters
    requires HandOf(At(s', t)) != NIL ==>
               0 <= HandOf(At(s', t)) < |v'.owner| && v'.owner[HandOf(At(s', t))] == InHand(t)
    requires forall u, id | u != t && 0 <= id < |v.owner| && v.owner[id] == InHand(u) ::
               v'.owner[id] == InHand(u) && Load(s'.next, id, NIL) == Load(s.next, id, NIL)
    requires forall id | 0 <= id < |v'.owner| && v'.owner[id].InHand? ::
               if v'.owner[id].t == t then HandOf(At(s', t)) == id else v.owner[id] == v'.owner[id]
    requires (forall x | x in v.free :: x in v'.free && Load(s'.next, x, NIL) == Load(s.next, x, NIL))
             || (forall u | u in renters :: u == t)
    ensures Threads(s', v', renters)
  {
    forall u | u in s'.points ensures PointOk(s'.points[u], s'.next, v'.free) {
      if u != t { PointFrame(s.points[u], s.next, v.free, s'.next, v'.free); }
    }
  }

  lemma PopKeepsMemory(s: Pool, v: View)
    requires Memory(s, v) && s.head != NIL
    ensures v.free != [] && v.free[0] == s.head && 0 <= s.head < |s.next| && v.owner[s.head] == InPool
    ensures Chain(s.next[s.head], s.next, v.free[1..])
    ensures forall x :: x in v.free[1..] <==> x in v.free && x != s.head
  {
    ChainAcyclic(s.head, s.next, v.free);
    assert v.free == [s.head] + v.free[1..];
  }

  /** Steps of a renting thread that only move it along: they read the links and nothing else. */
  predicate Looking(s: Pool, p: Point) {
    || p.RentNext? || p.RentReload? || p.SeekNext? || p.SeekReload? || p.CheckPrev? || p.CheckNext?
    || p.Mark? || (p.RentCas? && s.head != p.top) || (p.HeadCas? && s.head != p.cur)
  }

  lemma LookingPoint(s: Pool, v: View, t: Thread, spurious: bool)
    requires Memory(s, v) && PointOk(At(s, t), s.next, v.free) && Looking(s, At(s, t))
    ensures var s' := GoStep(s, t, spurious);
            && s'.points == s.points[t := At(s', t)] && s'.next == s.next && s'.head == s.head
            && s'.held == s.held && |s'.inUse| == |s.inUse|
            && PointOk(At(s', t), s.next, v.free) && HandOf(At(s', t)) == NIL
            && (Renting(At(s', t)) || At(s', t).Idle?)
  {
    if s.head != NIL { PopKeepsMemory(s, v); }
    if At(s, t).SeekNext? {
      var i :| 0 <= i < |v.free| && v.free[i] == At(s, t).cur;
      ChainNext(s.head, s.next, v.free, i);
    }
  }

  lemma LookKeepsInv(s: Pool, v: View, renters: set<Thread>, t: Thread, spurious: bool)
    requires Inv(s, v, renters) && t in s.points && Looking(s, At(s, t))
    ensures Inv(GoStep(s, t, spurious), ViewGo(s, v, t, spurious), renters)
  {
    var s', v' := GoStep(s, t, spurious), ViewGo(s, v, t, spurious);
    LookingPoint(s, v, t, spurious);
    assert v'.free == v.free && v'.owner == v.owner;
    OthersKeepThreads(s, v, renters, t, s', v');
  }

  /** Taking the first ID out of the list: `rent` keeps it in hand, `try_rent` gives it out. */
  lemma PopKeepsInv(s: Pool, v: View, renters: set<Thread>, t: Thread, spurious: bool)
    requires Inv(s, v, renters) && OneRenter(renters) && t in s.points
    requires (At(s, t).RentCas? && s.head == At(s, t).top) || (At(s, t).HeadCas? && s.head == At(s, t).cur)
    ensures Inv(GoStep(s, t, spurious), ViewGo(s, v, t, spurious), renters)
  {
    var s', v' := GoStep(s, t, spurious), ViewGo(s, v, t, spurious);
    PopKeepsMemory(s, v);
    OthersKeepThreads(s, v, renters, t, s', v');
  }

  lemma UnlinkKeepsMemory(s: Pool, v: View, t: Thread)
    requires Memory(s, v) && At(s, t).Unlink? && PointOk(At(s, t), s.next, v.free)
    ensures Memory(GoStep(s, t, false), ViewGo(s, v, t, false))
    ensures Adjacent(s.next, v.free, At(s, t).prev, At(s, t).cur, At(s, t).next)
  {
    var Unlink(prev, cur, next) := At(s, t);
    ChainRange(s.head, s.next, v.free);
    var i := Neighbours(s.head, s.next, v.free, prev, cur);
    UnlinkNode(s.head, s.next, v.free, i + 1);
  }

  lemma UnlinkKeepsInv(s: Pool, v: View, renters: set<Thread>, t: Thread, spurious: bool)
    requires Inv(s, v, renters) && OneRenter(renters) && t in s.points && At(s, t).Unlink?
    ensures Inv(GoStep(s, t, spurious), ViewGo(s, v, t, spurious), renters)
  {
    UnlinkKeepsMemory(s, v, t);
    OthersKeepThreads(s, v, renters, t, GoStep(s, t, spurious), ViewGo(s, v, t, spurious));
  }

  lemma InHandOf(s: Pool, v: View, renters: set<Thread>, t: Thread)
    requires Inv(s, v, renters) && HandOf(At(s, t)) != NIL
    ensures t in s.points && PointOk(At(s, t), s.next, v.free)
    ensures var id := HandOf(At(s, t));
            0 <= id < |s.next| && v.owner[id] == InHand(t) && id !in v.free && id !in s.held
  {
    assert At(s, t) == s.points[t];
    assert s.held[HandOf(At(s, t))] == 0;
  }

  lemma MarkKeepsInv(s: Pool, v: View, renters: set<Thread>, t: Thread, spurious: bool)
    requires Inv(s, v, renters) && t in s.points && At(s, t).RentMark?
    ensures Inv(GoStep(s, t, spurious), ViewGo(s, v, t, spurious), renters)
  {
    assert HandOf(At(s, t)) != NIL by { assert PointOk(s.points[t], s.next, v.free); }
    InHandOf(s, v, renters, t);
    OthersKeepThreads(s, v, renters, t, GoStep(s, t, spurious), ViewGo(s, v, t, spurious));
  }

  /** A return whose exchange fails gives the ID back to its holder. */
  lemma ReturnRefusedKeepsInv(s: Pool, v: View, renters: set<Thread>, t: Thread, spurious: bool)
    requires Inv(s, v, renters) && t in s.points && At(s, t).ReturnCas?
    requires !Load(s.inUse, At(s, t).id, false)
    ensures Inv(GoStep(s, t, spurious), ViewGo(s, v, t, spurious), renters)
  {
    assert HandOf(At(s, t)) != NIL by { assert PointOk(s.points[t], s.next, v.free); }
    InHandOf(s, v, renters, t);
    OthersKeepThreads(s, v, renters, t, GoStep(s, t, spurious), ViewGo(s, v, t, spurious));
  }

  lemma ReturnCasKeepsInv(s: Pool, v: View, renters: set<Thread>, t: Thread, spurious: bool)
    requires Inv(s, v, renters) && t in s.points && At(s, t).ReturnCas?
    ensures Inv(GoStep(s, t, spurious), ViewGo(s, v, t, spurious), renters)
  {
    if !Load(s.inUse, At(s, t).id, false) {
      ReturnRefusedKeepsInv(s, v, renters, t, spurious);
    } else {
      assert HandOf(At(s, t)) != NIL by { assert PointOk(s.points[t], s.next, v.free); }
      InHandOf(s, v, renters, t);
      OthersKeepThreads(s, v, renters, t, GoStep(s, t, spurious), v);
    }
  }

  lemma ReturnHeadKeepsInv(s: Pool, v: View, renters: set<Thread>, t: Thread, spurious: bool)
    requires Inv(s, v, renters) && t in s.points && At(s, t).ReturnHead?
    ensures Inv(GoStep(s, t, spurious), ViewGo(s, v, t, spurious), renters)
  {
    assert HandOf(At(s, t)) != NIL by { assert PointOk(s.points[t], s.next, v.free); }
    InHandOf(s, v, renters, t);
    OthersKeepThreads(s, v, renters, t, GoStep(s, t, spurious), ViewGo(s, v, t, spurious));
  }

  lemma HandKeepsInv(s: Pool, v: View, renters: set<Thread>, t: Thread, spurious: bool)
    requires Inv(s, v, renters) && t in s.points
    requires At(s, t).RentMark? || At(s, t).ReturnCas? || At(s, t).ReturnHead?
    ensures Inv(GoStep(s, t, spurious), ViewGo(s, v, t, spurious), renters)
  {
    if At(s, t).RentMark? {
      MarkKeepsInv(s, v, renters, t, spurious);
    } else if At(s, t).ReturnCas? {
      ReturnCasKeepsInv(s, v, renters, t, spurious);
    } else {
      ReturnHeadKeepsInv(s, v, renters, t, spurious);
    }
  }

  lemma LinkKeepsInv(s: Pool, v: View, renters: set<Thread>, t: Thread, spurious: bool)
    requires Inv(s, v, renters) && t in s.points && At(s, t).ReturnLink?
    requires HandOf(At(s, t)) != NIL
    ensures Inv(GoStep(s, t, spurious), v, renters)
  {
    var s' := GoStep(s, t, spurious);
    InHandOf(s, v, renters, t);
    ChainFrame(s.head, s.next, s'.next, v.free);
    OthersKeepThreads(s, v, renters, t, s', v);
  }

  lemma SwingKeepsInv(s: Pool, v: View, renters: set<Thread>, t: Thread, spurious: bool)
    requires Inv(s, v, renters) && t in s.points && At(s, t).ReturnSwing?
    requires HandOf(At(s, t)) != NIL
    ensures Inv(GoStep(s, t, spurious), ViewGo(s, v, t, spurious), renters)
  {
    var s', v' := GoStep(s, t, spurious), ViewGo(s, v, t, spurious);
    var id := At(s, t).id;
    InHandOf(s, v, renters, t);
    if s.head == At(s, t).top && !spurious {
      ChainPush(s.head, s.next, v.free, id);
      assert forall x :: x in v'.free <==> x in v.free || x == id;
    }
    OthersKeepThreads(s, v, renters, t, s', v');
  }

  lemma BeginRentKeepsInv(s: Pool, v: View, renters: set<Thread>, a: Action)
    requires Inv(s, v, renters) && (a.Rent? || a.TryRent?)
    ensures Inv(Step(s, renters, a), ViewStep(s, v, renters, a), renters)
  {
    var s', v' := Step(s, renters, a), ViewStep(s, v, renters, a);
    if s.head != NIL { PopKeepsMemory(s, v); }
    if s' != s { OthersKeepThreads(s, v, renters, a.t, s', v'); }
  }

  lemma BeginReturnKeepsInv(s: Pool, v: View, renters: set<Thread>, a: Action)
    requires Inv(s, v, renters) && a.Return? && At(s, a.t).Idle? && a.id in s.held
    ensures Inv(Step(s, renters, a), ViewStep(s, v, renters, a), renters)
  {
    assert s.held[a.id] > 0;
    OthersKeepThreads(s, v, renters, a.t, Step(s, renters, a), ViewStep(s, v, renters, a));
  }

  lemma BeginKeepsInv(s: Pool, v: View, renters: set<Thread>, a: Action)
    requires Inv(s, v, renters) && !a.Go?
    ensures Inv(Step(s, renters, a), ViewStep(s, v, renters, a), renters)
  {
    if !a.Return? {
      BeginRentKeepsInv(s, v, renters, a);
    } else if At(s, a.t).Idle? && a.id in s.held {
      BeginReturnKeepsInv(s, v, renters, a);
    }
  }

  /** One action of any thread.  With a single renter the re-check of `try_rent` always passes, so
      its branch that takes the marker back is never reached. */
  lemma StepKeepsInv(s: Pool, v: View, renters: set<Thread>, a: Action)
    requires Inv(s, v, renters) && OneRenter(renters)
    ensures Inv(Step(s, renters, a), ViewStep(s, v, renters, a), renters)
  {
    if !a.Go? {
      BeginKeepsInv(s, v, renters, a);
    } else if a.t in s.points {
      var p := At(s, a.t);
      assert PointOk(p, s.next, v.free);
      if Looking(s, p) {
        LookKeepsInv(s, v, renters, a.t, a.spurious);
      } else if p.RentCas? || p.HeadCas? {
        PopKeepsInv(s, v, renters, a.t, a.spurious);
      } else if p.Unlink? {
        UnlinkKeepsInv(s, v, renters, a.t, a.spurious);
      } else if p.ReturnLink? {
        LinkKeepsInv(s, v, renters, a.t, a.spurious);
      } else if p.ReturnSwing? {
        SwingKeepsInv(s, v, renters, a.t, a.spurious);
      } else if !p.Idle? {
        HandKeepsInv(s, v, renters, a.t, a.spurious);
      }
    }
  }

  // ---- the in-use markers ---------------------------------------------------------------------

  lemma MarkFrame(p: Point, inUse: seq<bool>, viaHead: set<int>, inUse': seq<bool>, viaHead': set<int>)
    requires MarkOk(p, inUse, viaHead)
    requires HandOf(p) in viaHead' <==> HandOf(p) in viaHead
    requires Load(inUse', HandOf(p), false) == Load(inUse, HandOf(p), false)
    requires Load(inUse', MarkedBy(p), false) == Load(inUse, MarkedBy(p), false)
    ensures MarkOk(p, inUse', viaHead')
  {
  }

  /** A step of `t` that writes at most the marker of `id`, where no other thread relies on it. */
  lemma OthersKeepMarkers(s: Pool, v: View, t: Thread, s': Pool, v': View, id: int)
    requires Markers(s, v) && |s'.inUse| == |s.inUse| && |v'.owner| == |v.owner|
    requires s'.points == s.points[t := At(s', t)] && MarkOk(At(s', t), s'.inUse, v'.viaHead)
    requires MarkedBy(At(s, t)) == NIL || MarkedBy(At(s, t)) == id
    requires forall x | 0 <= x < |s.inUse| && x != id :: s'.inUse[x] == s.inUse[x]
    requires forall x | x != id :: x in v'.viaHead <==> x in v.viaHead
    requires forall x | 0 <= x < |v.owner| && x != id :: v'.owner[x] == v.owner[x]
    requires forall u | u in s.points && u != t :: HandOf(s.points[u]) != id || id == NIL
    requires (s'.inUse == s.inUse && v'.viaHead == v.viaHead)
             || (id != NIL && forall u | u in s.points && u != t :: MarkedBy(s.points[u]) != id)
    requires 0 <= id < |v.owner| && v'.owner[id] == Held ==> (s'.inUse[id] <==> id !in v'.viaHead)
    requires 0 <= id < |v.owner| && v'.owner[id] == InPool ==>
               id !in v'.viaHead && (s'.inUse[id] ==> MarkedBy(At(s', t)) == id)
    ensures Markers(s', v')
  {
    forall x | 0 <= x < |v'.owner| && v'.owner[x] == InPool && s'.inUse[x]
      ensures exists u :: u in s'.points && MarkedBy(s'.points[u]) == x
    {
      if x == id {
        assert MarkedBy(s'.points[t]) == x;
      } else {
        var u :| u in s.points && MarkedBy(s.points[u]) == x;
        assert u != t && s'.points[u] == s.points[u];
      }
    }
    forall u | u in s'.points ensures MarkOk(s'.points[u], s'.inUse, v'.viaHead) {
      if u != t {
        assert MarkOk(s.points[u], s.inUse, v.viaHead);
        MarkFrame(s.points[u], s.inUse, v.viaHead, s'.inUse, v'.viaHead);
      }
    }
  }

  /** The ID whose marker, or whose owner, the next step of a thread may change. */
  function Concerns(p: Point): int {
    match p
    case RentCas(top, _) => top
    case HeadCas(cur, _) => cur
    case Mark(_, cur, _) => cur
    case CheckPrev(_, cur, _) => cur
    case CheckNext(_, cur, _) => cur
    case Unlink(_, cur, _) => cur
    case _ => HandOf(p)
  }

  lemma OnlyMine(s: Pool, v: View, renters: set<Thread>, t: Thread)
    requires Inv(s, v, renters) && OneRenter(renters) && t in s.points && Concerns(At(s, t)) != NIL
    ensures var id := Concerns(At(s, t));
            && 0 <= id < |v.owner|
            && (Renting(At(s, t)) && !At(s, t).RentMark? ==> v.owner[id] == InPool)
            && (forall u | u in s.points && u != t ::
                  HandOf(s.points[u]) != id && MarkedBy(s.points[u]) != id)
  {
    var p, id := At(s, t), Concerns(At(s, t));
    assert PointOk(s.points[t], s.next, v.free);
    assert id in v.free || v.owner[id] == InHand(t);
    forall u | u in s.points && u != t
      ensures HandOf(s.points[u]) != id && MarkedBy(s.points[u]) != id
    {
      assert PointOk(s.points[u], s.next, v.free);
      assert MarkedBy(s.points[u]) != NIL ==>
               MarkedBy(s.points[u]) in v.free && Renting(s.points[u]);
    }
  }

  lemma LookKeepsMarkers(s: Pool, v: View, renters: set<Thread>, t: Thread, spurious: bool)
    requires Inv(s, v, renters) && Markers(s, v) && OneRenter(renters) && t in s.points
    requires Looking(s, At(s, t))
    ensures Markers(GoStep(s, t, spurious), ViewGo(s, v, t, spurious))
  {
    var p, s', v' := At(s, t), GoStep(s, t, spurious), ViewGo(s, v, t, spurious);
    LookingPoint(s, v, t, spurious);
    if p.Mark? || MarkedBy(p) != NIL {
      OnlyMine(s, v, renters, t);
      OthersKeepMarkers(s, v, t, s', v', Concerns(p));
    } else {
      OthersKeepMarkers(s, v, t, s', v', NIL);
    }
  }

  /** The ID at the head cannot be marked: only the renter marks, and it is about to take the head. */
  lemma PopKeepsMarkers(s: Pool, v: View, renters: set<Thread>, t: Thread, spurious: bool)
    requires Inv(s, v, renters) && Markers(s, v) && OneRenter(renters) && t in s.points
    requires (At(s, t).RentCas? && s.head == At(s, t).top) || (At(s, t).HeadCas? && s.head == At(s, t).cur)
    ensures Markers(GoStep(s, t, spurious), ViewGo(s, v, t, spurious))
  {
    PopKeepsMemory(s, v);
    OnlyMine(s, v, renters, t);
    assert MarkedBy(s.points[t]) == NIL;
    OthersKeepMarkers(s, v, t, GoStep(s, t, spurious), ViewGo(s, v, t, spurious), s.head);
  }

  lemma TakenKeepsMarkers(s: Pool, v: View, renters: set<Thread>, t: Thread, spurious: bool)
    requires Inv(s, v, renters) && Markers(s, v) && OneRenter(renters) && t in s.points
    requires At(s, t).Unlink? || At(s, t).RentMark? || At(s, t).ReturnCas?
    ensures Markers(GoStep(s, t, spurious), ViewGo(s, v, t, spurious))
  {
    assert MarkOk(s.points[t], s.inUse, v.viaHead) && PointOk(s.points[t], s.next, v.free);
    OnlyMine(s, v, renters, t);
    OthersKeepMarkers(s, v, t, GoStep(s, t, spurious), ViewGo(s, v, t, spurious), Concerns(At(s, t)));
  }

  lemma ReturnKeepsMarkers(s: Pool, v: View, renters: set<Thread>, t: Thread, spurious: bool)
    requires Inv(s, v, renters) && Markers(s, v) && OneRenter(renters) && t in s.points
    requires At(s, t).ReturnHead? || At(s, t).ReturnLink? || At(s, t).ReturnSwing?
    ensures Markers(GoStep(s, t, spurious), ViewGo(s, v, t, spurious))
  {
    assert MarkOk(s.points[t], s.inUse, v.viaHead) && PointOk(s.points[t], s.next, v.free);
    OnlyMine(s, v, renters, t);
    OthersKeepMarkers(s, v, t, GoStep(s, t, spurious), ViewGo(s, v, t, spurious), Concerns(At(s, t)));
  }

  lemma BeginKeepsMarkers(s: Pool, v: View, renters: set<Thread>, a: Action)
    requires Inv(s, v, renters) && Markers(s, v) && OneRenter(renters) && !a.Go?
    ensures Markers(Step(s, renters, a), ViewStep(s, v, renters, a))
  {
    var s', v' := Step(s, renters, a), ViewStep(s, v, renters, a);
    if a.Return? && At(s, a.t).Idle? && a.id in s.held {
      assert s.held[a.id] > 0;
      OthersKeepMarkers(s, v, a.t, s', v', a.id);
    } else if s' != s {
      OthersKeepMarkers(s, v, a.t, s', v', NIL);
    }
  }

  lemma StepKeepsMarkers(s: Pool, v: View, renters: set<Thread>, a: Action)
    requires Inv(s, v, renters) && Markers(s, v) && OneRenter(renters)
    ensures Markers(Step(s, renters, a), ViewStep(s, v, renters, a))
  {
    if !a.Go? {
      BeginKeepsMarkers(s, v, renters, a);
    } else if a.t in s.points {
      var p := At(s, a.t);
      assert PointOk(p, s.next, v.free);
      if Looking(s, p) {
        LookKeepsMarkers(s, v, renters, a.t, a.spurious);
      } else if p.RentCas? || p.HeadCas? {
        PopKeepsMarkers(s, v, renters, a.t, a.spurious);
      } else if p.Unlink? || p.RentMark? || p.ReturnCas? {
        TakenKeepsMarkers(s, v, renters, a.t, a.spurious);
      } else if !p.Idle? {
        ReturnKeepsMarkers(s, v, renters, a.t, a.spurious);
      }
    }
  }

  // ---- the rounds of `rent` -------------------------------------------------------------------

  predicate InRent(p: Point) {
    p.RentNext? || p.RentCas? || p.RentReload?
  }

  /** Each failed round of the running `rent` is paid for by a return completed since it began, and
      every such return took one of the IDs that were outstanding at its first load. */
  ghost predicate Account(s: Pool, v: View) {
    forall t | t in s.points && InRent(s.points[t]) :: RentPaid(s.points[t], s.head, v)
  }

  ghost predicate RentPaid(p: Point, head: int, v: View) {
    && v.outstanding == |v.owner| - |v.free| + v.done
    && (p.RentReload? ==> v.failed <= v.done)
    && (p.RentNext? || p.RentCas? ==> v.failed <= v.base <= v.done && (v.done == v.base ==> head == p.top))
  }

  lemma FreeFits(s: Pool, v: View)
    requires Memory(s, v)
    ensures |v.free| <= |v.owner|
  {
    ChainAcyclic(s.head, s.next, v.free);
    NodeCount(v.free);
    assert (set x | x in v.free) <= Below(|v.owner|);
    SubsetSize((set x | x in v.free), Below(|v.owner|));
  }

  lemma RentKeepsAccount(s: Pool, v: View, renters: set<Thread>, a: Action)
    requires Inv(s, v, renters) && Inv(Step(s, renters, a), ViewStep(s, v, renters, a), renters)
    requires OneRenter(renters) && Account(s, v)
    requires a.t in renters && !(a.Go? && HandOf(At(s, a.t)) != NIL)
    ensures Account(Step(s, renters, a), ViewStep(s, v, renters, a))
  {
    FreeFits(s, v);
    var s', v' := Step(s, renters, a), ViewStep(s, v, renters, a);
    if InRent(At(s', a.t)) { RentMovePaid(s, v, renters, a); }
  }

  /** The renter's own move: a round fails only if the head has moved since the last load. */
  lemma RentMovePaid(s: Pool, v: View, renters: set<Thread>, a: Action)
    requires a.t in renters && |v.free| <= |v.owner|
    requires a.t in s.points && InRent(s.points[a.t]) ==> RentPaid(s.points[a.t], s.head, v)
    requires !(a.Go? && HandOf(At(s, a.t)) != NIL)
    requires InRent(At(Step(s, renters, a), a.t))
    ensures RentPaid(At(Step(s, renters, a), a.t), Step(s, renters, a).head, ViewStep(s, v, renters, a))
  {
    match At(s, a.t) {
      case RentNext(_) =>
      case RentCas(_, _) =>
      case RentReload =>
      case _ =>
    }
  }

  /** The actions of a thread that is not renting. */
  predicate Returns(s: Pool, a: Action) {
    a.Return? || (a.Go? && (a.t !in s.points || !Renting(At(s, a.t)) || At(s, a.t).RentMark?))
  }

  lemma ReturnPoints(s: Pool, renters: set<Thread>, a: Action)
    requires Returns(s, a)
    ensures var s' := Step(s, renters, a);
            s'.points == s.points || (s'.points == s.points[a.t := At(s', a.t)] && !InRent(At(s', a.t)))
  {
  }

  /** What a step outside the renter's search can do to the list: push one returned ID. */
  lemma ReturnCounts(s: Pool, v: View, renters: set<Thread>, a: Action)
    requires Returns(s, a)
    ensures var s', v' := Step(s, renters, a), ViewStep(s, v, renters, a);
            && v' == v.(free := v'.free, owner := v'.owner, done := v'.done) && |v'.owner| == |v.owner|
            && ((s'.head == s.head && |v'.free| == |v.free| && v'.done == v.done)
                || (|v'.free| == |v.free| + 1 && v'.done == v.done + 1))
  {
  }

  lemma ReturnKeepsAccount(s: Pool, v: View, renters: set<Thread>, a: Action)
    requires Account(s, v)
    requires Returns(s, a)
    ensures Account(Step(s, renters, a), ViewStep(s, v, renters, a))
  {
    ReturnPoints(s, renters, a);
    ReturnCounts(s, v, renters, a);
    var s', v' := Step(s, renters, a), ViewStep(s, v, renters, a);
    forall u | u in s'.points && InRent(s'.points[u]) ensures RentPaid(s'.points[u], s'.head, v') {
      assert RentPaid(s.points[u], s.head, v);
    }
  }

  lemma StepKeepsAccount(s: Pool, v: View, renters: set<Thread>, a: Action)
    requires Inv(s, v, renters) && OneRenter(renters) && Account(s, v)
    ensures Account(Step(s, renters, a), ViewStep(s, v, renters, a))
  {
    StepKeepsInv(s, v, renters, a);
    if Returns(s, a) {
      ReturnKeepsAccount(s, v, renters, a);
    } else if a.t in renters {
      RentKeepsAccount(s, v, renters, a);
    }
  }

  // ---- every run with one renter --------------------------------------------------------------

  lemma InitInv(n: nat, renters: set<Thread>)
    requires n > 0
    ensures Inv(Init(n), InitView(n), renters) && Markers(Init(n), InitView(n)) && Account(Init(n), InitView(n))
  {
    InitialChain(Init(n).next, 0);
    assert InitView(n).free == seq(n, i => 0 + i);
    forall id | 0 <= id < n ensures id in InitView(n).free { assert InitView(n).free[id] == id; }
  }

  function Reached(n: nat, renters: set<Thread>, acts: seq<Action>): Pool
    requires n > 0
  {
    Run(Init(n), renters, acts)
  }

  function ReachedView(n: nat, renters: set<Thread>, acts: seq<Action>): View
    requires n > 0
  {
    ViewRun(Init(n), InitView(n), renters, acts)
  }

  lemma {:induction false} RunKeepsInv(n: nat, renters: set<Thread>, acts: seq<Action>)
    requires n > 0 && OneRenter(renters)
    ensures var s, v := Reached(n, renters, acts), ReachedView(n, renters, acts);
            Inv(s, v, renters) && Markers(s, v) && Account(s, v)
    decreases |acts|
  {
    InitInv(n, renters);
    if acts != [] {
      var before, a := acts[..|acts| - 1], acts[|acts| - 1];
      RunKeepsInv(n, renters, before);
      var s, v := Reached(n, renters, before), ReachedView(n, renters, before);
      StepKeepsInv(s, v, renters, a);
      StepKeepsMarkers(s, v, renters, a);
      StepKeepsAccount(s, v, renters, a);
    }
  }

  /** With one renter, whatever the other threads return meanwhile: the free list is acyclic and without
      duplicates, every ID is free, given out once, or in the hands of exactly one thread, and so no ID
      is ever given out twice. */
  lemma NoIdIsGivenOutTwice(n: nat, renters: set<Thread>, acts: seq<Action>, id: int)
    requires n > 0 && OneRenter(renters) && 0 <= id < n
    ensures var s, v := Reached(n, renters, acts), ReachedView(n, renters, acts);
            && Chain(s.head, s.next, v.free) && NoDuplicates(v.free)
            && s.held[id] <= 1
            && (id in v.free ==> s.held[id] == 0 && forall t :: HandOf(At(s, t)) != id)
            && (s.held[id] == 1 ==> forall t :: HandOf(At(s, t)) != id)
            && (id !in v.free && s.held[id] == 0 ==> exists t :: HandOf(At(s, t)) == id)
            && (forall t, u :: HandOf(At(s, t)) == id == HandOf(At(s, u)) ==> t == u)
  {
    RunKeepsInv(n, renters, acts);
    SizeIsFixed(n, renters, acts);
    var s, v := Reached(n, renters, acts), ReachedView(n, renters, acts);
    ChainAcyclic(s.head, s.next, v.free);
    forall t | HandOf(At(s, t)) == id ensures v.owner[id] == InHand(t) { InHandOf(s, v, renters, t); }
    if v.owner[id].InHand? { assert HandOf(At(s, v.owner[id].t)) == id; }
  }

  lemma {:induction false} SizeIsFixed(n: nat, renters: set<Thread>, acts: seq<Action>)
    requires n > 0
    ensures |Reached(n, renters, acts).next| == n
    decreases |acts|
  {
    if acts != [] {
      SizeIsFixed(n, renters, acts[..|acts| - 1]);
      StepKeepsSize(Reached(n, renters, acts[..|acts| - 1]), renters, acts[|acts| - 1]);
    }
  }

  lemma StepKeepsSize(s: Pool, renters: set<Thread>, a: Action)
    ensures |Step(s, renters, a).next| == |s.next|
  {
  }

  /** `rent` terminates: it goes round at most once more than the number of IDs that were outstanding
      at its first load, because every round that fails is paid for by a distinct completed return. */
  lemma RentRoundsAreBounded(n: nat, renters: set<Thread>, acts: seq<Action>, t: Thread)
    requires n > 0 && OneRenter(renters) && InRent(At(Reached(n, renters, acts), t))
    ensures var v := ReachedView(n, renters, acts);
            v.failed <= v.done <= v.outstanding <= n
  {
    RunKeepsInv(n, renters, acts);
    SizeIsFixed(n, renters, acts);
    var s, v := Reached(n, renters, acts), ReachedView(n, renters, acts);
    FreeFits(s, v);
    assert RentPaid(s.points[t], s.head, v);
    OutstandingFits(n, renters, acts);
  }

  lemma {:induction false} OutstandingFits(n: nat, renters: set<Thread>, acts: seq<Action>)
    requires n > 0
    ensures var v := ReachedView(n, renters, acts); v.outstanding <= |v.owner| == n
    decreases |acts|
  {
    if acts != [] {
      var before := acts[..|acts| - 1];
      OutstandingFits(n, renters, before);
      ViewStepFits(Reached(n, renters, before), ReachedView(n, renters, before), renters, acts[|acts| - 1]);
    }
  }

  lemma ViewStepFits(s: Pool, v: View, renters: set<Thread>, a: Action)
    ensures |ViewStep(s, v, renters, a).owner| == |v.owner|
    ensures ViewStep(s, v, renters, a).outstanding in {v.outstanding, |v.owner| - |v.free|}
  {
  }

  /** `returns` refuses an ID its caller holds exactly when `try_rent` took that ID from the head of
      the list, where it does not set the marker. */
  lemma ReturnThrowsIffTakenFromHead(n: nat, renters: set<Thread>, acts: seq<Action>, t: Thread)
    requires n > 0 && OneRenter(renters) && At(Reached(n, renters, acts), t).ReturnCas?
    ensures var s, v := Reached(n, renters, acts), ReachedView(n, renters, acts);
            var id := At(s, t).id;
            var s' := Step(s, renters, Go(t, false));
            && (id in v.viaHead <==> At(s', t).Idle? && s'.held[id] == s.held[id] + 1)
            && (id !in v.viaHead <==> At(s', t) == ReturnHead(id) && s'.held == s.held)
  {
    RunKeepsInv(n, renters, acts);
    var s, v := Reached(n, renters, acts), ReachedView(n, renters, acts);
    assert MarkOk(s.points[t], s.inUse, v.viaHead);
  }

  // ---- when renting fails ---------------------------------------------------------------------

  ghost predicate Suffix(l: seq<int>, m: seq<int>) {
    |l| <= |m| && m[|m| - |l|..] == l
  }

  /** A searching `try_rent` has passed IDs that are not its target, in the list it loaded; since then IDs
      were only pushed. */
  ghost predicate SeekOk(p: Point, free: seq<int>, seen: seq<int>, at: nat) {
    p.SeekNext? ==>
      && Suffix(seen, free) && at < |seen| && seen[at] == p.cur
      && p.target !in seen[..at]
  }

  ghost predicate AllSeek(points: map<Thread, Point>, free: seq<int>, seen: seq<int>, at: nat) {
    forall t | t in points :: SeekOk(points[t], free, seen, at)
  }

  ghost predicate Searching(s: Pool, v: View) {
    AllSeek(s.points, v.free, v.seen, v.at)
  }

  lemma SuffixPush(l: seq<int>, m: seq<int>, x: int)
    requires Suffix(l, m)
    ensures Suffix(l, [x] + m)
  {
    assert ([x] + m)[|m| + 1 - |l|..] == m[|m| - |l|..];
  }

  /** One node further. */
  lemma SeekMoves(s: Pool, v: View, t: Thread, spurious: bool)
    requires Memory(s, v) && At(s, t).SeekNext? && SeekOk(At(s, t), v.free, v.seen, v.at)
    requires At(s, t).cur != At(s, t).target
    ensures At(s, t).target !in v.seen[..v.at + 1]
    ensures At(GoStep(s, t, spurious), t).Idle? <==> v.at + 1 == |v.seen|
    ensures SeekOk(At(GoStep(s, t, spurious), t), v.free, v.seen, v.at + 1)
  {
    var i := |v.free| - |v.seen| + v.at;
    assert v.free[i] == v.seen[v.at];
    ChainNext(s.head, s.next, v.free, i);
    if v.at + 1 < |v.seen| {
      ChainNext(s.head, s.next, v.free, i + 1);
      assert v.free[i + 1] == v.seen[v.at + 1];
    }
    assert v.seen[..v.at + 1] == v.seen[..v.at] + [v.seen[v.at]];
  }

  /** A search that loads the head. */
  lemma SeekStarts(s: Pool, v: View, t: Thread, target: int)
    requires Memory(s, v)
    ensures At(SeekFrom(s, t, target, NIL, s.head), t).Idle? <==> v.free == []
    ensures SeekOk(At(SeekFrom(s, t, target, NIL, s.head), t), v.free, v.free, 0)
  {
    assert v.free[|v.free| - |v.free|..] == v.free;
    if s.head != NIL { PopKeepsMemory(s, v); }
  }

  /** No thread but the renter searches. */
  lemma OnlyOneSearches(s: Pool, v: View, renters: set<Thread>, t: Thread, p: Point,
                        free: seq<int>, seen: seq<int>, at: nat)
    requires Threads(s, v, renters) && OneRenter(renters) && t in renters && SeekOk(p, free, seen, at)
    ensures AllSeek(s.points[t := p], free, seen, at)
  {
    forall u | u in s.points && u != t ensures SeekOk(s.points[u], free, seen, at) {
      assert !Renting(s.points[u]);
    }
  }

  /** The others search on while IDs are pushed. */
  lemma OthersSearchOn(points: map<Thread, Point>, t: Thread, p: Point,
                       free: seq<int>, free': seq<int>, seen: seq<int>, at: nat)
    requires AllSeek(points, free, seen, at) && !p.SeekNext?
    requires Suffix(seen, free) ==> Suffix(seen, free')
    ensures AllSeek(points[t := p], free', seen, at)
  {
    forall u | u in points && u != t ensures SeekOk(points[u], free', seen, at) {
      assert SeekOk(points[u], free, seen, at);
    }
  }

  lemma RenterMovesOne(s: Pool, t: Thread, spurious: bool)
    requires Renting(At(s, t))
    ensures GoStep(s, t, spurious).points == s.points[t := At(GoStep(s, t, spurious), t)]
  {
    var points' := GoStep(s, t, spurious).points;
    assert points' == s.points[t := points'[t]];
  }

  lemma ReturnerMovesOne(s: Pool, t: Thread, spurious: bool)
    requires !Renting(At(s, t)) && !At(s, t).Idle?
    ensures GoStep(s, t, spurious).points == s.points[t := At(GoStep(s, t, spurious), t)]
  {
    var points' := GoStep(s, t, spurious).points;
    assert points' == s.points[t := points'[t]];
  }

  lemma OtherPointsDoNotSeek(s: Pool, t: Thread, spurious: bool)
    requires !At(s, t).SeekNext? && !At(s, t).SeekReload?
    ensures !At(GoStep(s, t, spurious), t).SeekNext?
  {
  }

  lemma ReloadSeeks(s: Pool, v: View, t: Thread, spurious: bool)
    requires Memory(s, v) && At(s, t).SeekReload?
    ensures SeekOk(At(GoStep(s, t, spurious), t), v.free, v.free, 0)
  {
    SeekStarts(s, v, t, At(s, t).target);
  }

  lemma RenterSeeks(s: Pool, v: View, t: Thread, spurious: bool)
    requires Memory(s, v) && SeekOk(At(s, t), v.free, v.seen, v.at)
    ensures
      var v' := ViewGo(s, v, t, spurious);
      SeekOk(At(GoStep(s, t, spurious), t), v'.free, v'.seen, v'.at)
  {
    if At(s, t).SeekReload? {
      ReloadSeeks(s, v, t, spurious);
    } else if !At(s, t).SeekNext? {
      OtherPointsDoNotSeek(s, t, spurious);
    } else if At(s, t).cur != At(s, t).target {
      SeekMoves(s, v, t, spurious);
    }
  }

  lemma RenterKeepsSearching(s: Pool, v: View, renters: set<Thread>, t: Thread, spurious: bool)
    requires Inv(s, v, renters) && OneRenter(renters) && Searching(s, v)
    requires t in s.points && Renting(At(s, t))
    ensures Searching(GoStep(s, t, spurious), ViewGo(s, v, t, spurious))
  {
    var v' := ViewGo(s, v, t, spurious);
    RenterSeeks(s, v, t, spurious);
    RenterMovesOne(s, t, spurious);
    OnlyOneSearches(s, v, renters, t, At(GoStep(s, t, spurious), t), v'.free, v'.seen, v'.at);
  }

  lemma ReturnerPushes(s: Pool, v: View, t: Thread, spurious: bool)
    requires !Renting(At(s, t))
    ensures
      var v' := ViewGo(s, v, t, spurious);
      && v'.seen == v.seen && v'.at == v.at && !At(GoStep(s, t, spurious), t).SeekNext?
      && (Suffix(v.seen, v.free) ==> Suffix(v.seen, v'.free))
  {
    if At(s, t).ReturnSwing? && Suffix(v.seen, v.free) { SuffixPush(v.seen, v.free, At(s, t).id); }
  }

  lemma ReturnerKeepsSearching(s: Pool, v: View, t: Thread, spurious: bool)
    requires Searching(s, v) && !Renting(At(s, t)) && !At(s, t).Idle?
    ensures Searching(GoStep(s, t, spurious), ViewGo(s, v, t, spurious))
  {
    ReturnerPushes(s, v, t, spurious);
    ReturnerMovesOne(s, t, spurious);
    OthersSearchOn(s.points, t, At(GoStep(s, t, spurious), t), v.free, ViewGo(s, v, t, spurious).free, v.seen, v.at);
  }

  lemma BeginKeepsSearching(s: Pool, v: View, renters: set<Thread>, a: Action)
    requires Inv(s, v, renters) && OneRenter(renters) && Searching(s, v) && !a.Go?
    ensures Searching(Step(s, renters, a), ViewStep(s, v, renters, a))
  {
    var s', v' := Step(s, renters, a), ViewStep(s, v, renters, a);
    if a.TryRent? && s' != s {
      SeekStarts(s, v, a.t, a.target);
      OnlyOneSearches(s, v, renters, a.t, At(s', a.t), v'.free, v'.seen, v'.at);
    } else if s' != s {
      OthersSearchOn(s.points, a.t, At(s', a.t), v.free, v.free, v.seen, v.at);
    }
  }

  lemma {:induction false} RunKeepsSearching(n: nat, renters: set<Thread>, acts: seq<Action>)
    requires n > 0 && OneRenter(renters)
    ensures Searching(Reached(n, renters, acts), ReachedView(n, renters, acts))
    decreases |acts|
  {
    if acts != [] {
      var before, a := acts[..|acts| - 1], acts[|acts| - 1];
      RunKeepsSearching(n, renters, before);
      RunKeepsInv(n, renters, before);
      var s, v := Reached(n, renters, before), ReachedView(n, renters, before);
      if !a.Go? {
        BeginKeepsSearching(s, v, renters, a);
      } else if a.t in s.points {
        if Renting(At(s, a.t)) {
          RenterKeepsSearching(s, v, renters, a.t, a.spurious);
        } else if !At(s, a.t).Idle? {
          ReturnerKeepsSearching(s, v, a.t, a.spurious);
        }
      }
    }
  }

  /** The action is the load of the head by `rent`. */
  predicate RentLoads(s: Pool, renters: set<Thread>, a: Action) {
    || (a.Rent? && a.t in renters && At(s, a.t).Idle?)
    || (a.Go? && At(s, a.t).RentReload?)
  }

  /** `rent` answers false exactly when it loads the head while no ID is free: every ID is then held, or in
      the hand of a thread that is returning it. */
  lemma RentFailsIffNoneFree(n: nat, renters: set<Thread>, acts: seq<Action>, a: Action)
    requires n > 0 && OneRenter(renters) && RentLoads(Reached(n, renters, acts), renters, a)
    ensures
      var s, v := Reached(n, renters, acts), ReachedView(n, renters, acts);
      && (At(Step(s, renters, a), a.t).Idle? <==> v.free == [])
      && (v.free == [] ==> forall id | 0 <= id < n :: s.held[id] == 1 || exists t :: HandOf(At(s, t)) == id)
  {
    RunKeepsInv(n, renters, acts);
    var s, v := Reached(n, renters, acts), ReachedView(n, renters, acts);
    if s.head != NIL { PopKeepsMemory(s, v); }
    if v.free == [] {
      forall id | 0 <= id < n ensures s.held[id] == 1 || exists t :: HandOf(At(s, t)) == id {
        NoIdIsGivenOutTwice(n, renters, acts, id);
      }
    }
  }

  /** The action is a load of the head by `try_rent`. */
  predicate SeekLoads(s: Pool, renters: set<Thread>, a: Action) {
    || (a.TryRent? && a.t in renters && At(s, a.t).Idle? && a.target < |s.next|)
    || (a.Go? && At(s, a.t).SeekReload?)
  }

  /** `try_rent` of an ID in range answers false exactly when it loads the head of an empty list, or comes to
      the end of the list it loaded without having seen its target there; what it loaded is then still the
      end of the list, because IDs were only put in front. */
  lemma TryRentFailsIffUnseen(n: nat, renters: set<Thread>, acts: seq<Action>, a: Action)
    requires n > 0 && OneRenter(renters)
    ensures
      var s, v := Reached(n, renters, acts), ReachedView(n, renters, acts);
      var answersFalse := At(Step(s, renters, a), a.t).Idle?;
      && (SeekLoads(s, renters, a) ==> (answersFalse <==> v.free == []))
      && (a.Go? && At(s, a.t).SeekNext? ==>
            && Suffix(v.seen, v.free)
            && (answersFalse <==> v.at + 1 == |v.seen| && At(s, a.t).target !in v.seen))
  {
    RunKeepsInv(n, renters, acts);
    RunKeepsSearching(n, renters, acts);
    var s, v := Reached(n, renters, acts), ReachedView(n, renters, acts);
    if s.head != NIL { PopKeepsMemory(s, v); }
    if a.Go? && At(s, a.t).SeekNext? {
      assert SeekOk(s.points[a.t], v.free, v.seen, v.at);
      if At(s, a.t).cur != At(s, a.t).target { SeekMoves(s, v, a.t, a.spurious); }
      assert v.seen[..|v.seen|] == v.seen;
    }
  }

  // ---- two renters ----------------------------------------------------------------------------

  lemma {:induction false} RunConcat(s: Pool, renters: set<Thread>, a: seq<Action>, b: seq<Action>)
    ensures Run(s, renters, a + b) == Run(Run(s, renters, a), renters, b)
    decreases |b|
  {
    if b == [] {
      assert a + b == a;
    } else {
      assert (a + b)[..|a + b| - 1] == a + b[..|b| - 1];
      RunConcat(s, renters, a, b[..|b| - 1]);
    }
  }

  lemma RunFour(s: Pool, renters: set<Thread>, a: Action, b: Action, c: Action, d: Action)
    ensures Run(s, renters, [a, b, c, d])
            == Step(Step(Step(Step(s, renters, a), renters, b), renters, c), renters, d)
  {
    assert [a, b, c, d][..3] == [a, b, c] && [a, b, c][..2] == [a, b] && [a, b][..1] == [a];
    assert Run(s, renters, [a]) == Step(s, renters, a);
    assert Run(s, renters, [a, b]) == Step(Step(s, renters, a), renters, b);
    assert Run(s, renters, [a, b, c]) == Step(Step(Step(s, renters, a), renters, b), renters, c);
  }

  /** An undisturbed `rent` of a non-empty pool. */
  function RentActs(t: Thread): seq<Action> {
    [Rent(t), Go(t, false), Go(t, false), Go(t, false)]
  }

  lemma UndisturbedRent(s: Pool, renters: set<Thread>, t: Thread)
    requires t in renters && At(s, t).Idle? && 0 <= s.head < |s.next|
    ensures Run(s, renters, RentActs(t))
            == s.(head := s.next[s.head], inUse := Store(s.inUse, s.head, true),
                  held := s.held + multiset{s.head}, points := s.points[t := Idle])
  {
    RunFour(s, renters, Rent(t), Go(t, false), Go(t, false), Go(t, false));
  }

  /** An undisturbed `returns` of a held and marked ID. */
  function ReturnActs(t: Thread, id: int): seq<Action> {
    [Return(t, id), Go(t, false), Go(t, false), Go(t, false)] + [Go(t, false)]
  }

  lemma ReturnSteps(s: Pool, renters: set<Thread>, t: Thread, id: int)
    requires At(s, t).Idle? && id in s.held && 0 <= id < |s.next| == |s.inUse| && s.inUse[id]
    ensures Step(Step(s, renters, Return(t, id)), renters, Go(t, false))
            == s.(inUse := s.inUse[id := false], held := s.held - multiset{id},
                  points := s.points[t := ReturnHead(id)])
  {
    var s1 := s.(held := s.held - multiset{id}, points := s.points[t := ReturnCas(id)]);
    assert Step(s, renters, Return(t, id)) == s1;
  }

  lemma ReturnPrepared(s: Pool, renters: set<Thread>, t: Thread, id: int)
    requires At(s, t).Idle? && id in s.held && 0 <= id < |s.next| == |s.inUse| && s.inUse[id]
    ensures Run(s, renters, [Return(t, id), Go(t, false), Go(t, false), Go(t, false)])
            == s.(next := s.next[id := s.head], inUse := s.inUse[id := false],
                  held := s.held - multiset{id}, points := s.points[t := ReturnSwing(id, s.head)])
  {
    RunFour(s, renters, Return(t, id), Go(t, false), Go(t, false), Go(t, false));
    ReturnSteps(s, renters, t, id);
    var s2 := s.(inUse := s.inUse[id := false], held := s.held - multiset{id},
                 points := s.points[t := ReturnHead(id)]);
    var s3 := s2.(points := s.points[t := ReturnLink(id, s.head)]);
    assert Step(s2, renters, Go(t, false)) == s3;
    assert Step(s3, renters, Go(t, false))
           == s3.(next := s.next[id := s.head], points := s.points[t := ReturnSwing(id, s.head)]);
  }

  lemma UndisturbedReturn(s: Pool, renters: set<Thread>, t: Thread, id: int)
    requires At(s, t).Idle? && id in s.held && 0 <= id < |s.next| == |s.inUse| && s.inUse[id]
    ensures Run(s, renters, ReturnActs(t, id))
            == s.(head := id, next := s.next[id := s.head], inUse := s.inUse[id := false],
                  held := s.held - multiset{id}, points := s.points[t := Idle])
  {
    ReturnPrepared(s, renters, t, id);
    RunConcat(s, renters, [Return(t, id), Go(t, false), Go(t, false), Go(t, false)], [Go(t, false)]);
    assert [Go(t, false)][..0] == [];
  }

  lemma RunTwo(s: Pool, renters: set<Thread>, a: Action, b: Action)
    ensures Run(s, renters, [a, b]) == Step(Step(s, renters, a), renters, b)
  {
    assert [a, b][..1] == [a] && [a][..0] == [];
    assert Run(s, renters, [a]) == Step(s, renters, a);
  }

  /** The ABA run: `t` stops before its exchange of head 0 for 1; `u` rents 0, rents 1 and returns 0;
      `t`'s exchange then succeeds and makes 1, which `u` holds, the head again. */
  function AbaActs(t: Thread, u: Thread): seq<Action> {
    [Rent(t), Go(t, false)] + Overtake(u) + Finish(t)
  }

  function Overtake(u: Thread): seq<Action> {
    RentActs(u) + RentActs(u) + ReturnActs(u, 0)
  }

  function Finish(t: Thread): seq<Action> {
    [Go(t, false), Go(t, false)] + RentActs(t)
  }

  /** `t` is about to replace head 0 by 1, with these IDs held. */
  ghost predicate Poised(s: Pool, t: Thread, held: multiset<int>) {
    && |s.next| == |s.inUse| >= 2 && s.head == 0 && At(s, t) == RentCas(0, 1) && s.held == held
  }

  lemma Overtaking(s: Pool, renters: set<Thread>, t: Thread, u: Thread)
    requires u in renters && t != u && Poised(s, t, multiset{}) && s.next[0] == 1 && At(s, u).Idle?
    ensures Poised(Run(s, renters, Overtake(u)), t, multiset{1})
  {
    UndisturbedRent(s, renters, u);
    var s1 := Run(s, renters, RentActs(u));
    UndisturbedRent(s1, renters, u);
    var s2 := Run(s1, renters, RentActs(u));
    assert s2.held == multiset{0, 1} && s2.inUse[0] && At(s2, t) == RentCas(0, 1) && At(s2, u).Idle?;
    UndisturbedReturn(s2, renters, u, 0);
    RunConcat(s, renters, RentActs(u), RentActs(u));
    RunConcat(s, renters, RentActs(u) + RentActs(u), ReturnActs(u, 0));
  }

  lemma Finishing(s: Pool, renters: set<Thread>, t: Thread)
    requires t in renters && Poised(s, t, multiset{1})
    ensures Run(s, renters, Finish(t)).held[1] == 2
  {
    RunTwo(s, renters, Go(t, false), Go(t, false));
    var s1 := Run(s, renters, [Go(t, false), Go(t, false)]);
    assert s1.head == 1 && s1.held == multiset{0, 1} && At(s1, t).Idle? && s1.next == s.next;
    UndisturbedRent(s1, renters, t);
    RunConcat(s, renters, [Go(t, false), Go(t, false)], RentActs(t));
  }

  lemma TwoRentersBreakIt(n: nat, renters: set<Thread>, t: Thread, u: Thread)
    requires n >= 2 && t in renters && u in renters && t != u
    ensures Reached(n, renters, AbaActs(t, u)).held[1] == 2
  {
    var first := [Rent(t), Go(t, false)];
    RunTwo(Init(n), renters, Rent(t), Go(t, false));
    var s1 := Run(Init(n), renters, first);
    Overtaking(s1, renters, t, u);
    RunConcat(Init(n), renters, first, Overtake(u));
    Finishing(Run(s1, renters, Overtake(u)), renters, t);
    RunConcat(Init(n), renters, first + Overtake(u), Finish(t));
  }

  /** The pool of two or more IDs is safe in every run if and only if at most one thread rents. */
  lemma SafeIffOneRenter(n: nat, renters: set<Thread>)
    requires n >= 2
    ensures (forall acts, id :: Reached(n, renters, acts).held[id] <= 1) <==> OneRenter(renters)
  {
    if OneRenter(renters) {
      forall acts, id ensures Reached(n, renters, acts).held[id] <= 1 {
        RunKeepsInv(n, renters, acts);
      }
    } else {
      var t, u :| t in renters && u in renters && t != u;
      TwoRentersBreakIt(n, renters, t, u);
    }
  }

  // ---- a run in which a return throws ---------------------------------------------------------

  /** `try_rent(0)` on a fresh pool takes ID 0 from the head; then `returns(0)`, up to its exchange. */
  function ThrowActs(t: Thread): seq<Action> {
    [TryRent(t, 0), Go(t, false), Go(t, false), Return(t, 0)]
  }

  lemma TakesFromHead(s: Pool, renters: set<Thread>, t: Thread, id: int)
    requires t in renters && At(s, t).Idle? && s.head == id && 0 <= id < |s.next|
    ensures Step(Step(Step(s, renters, TryRent(t, id)), renters, Go(t, false)), renters, Go(t, false))
            == s.(head := s.next[id], points := s.points[t := Idle], held := s.held + multiset{id})
  {
    var s1 := Put(s, t, SeekNext(id, NIL, id));
    assert Step(s, renters, TryRent(t, id)) == s1;
    var s2 := Put(s1, t, HeadCas(id, s.next[id]));
    assert Step(s1, renters, Go(t, false)) == s2;
  }

  /** Any thread that may rent can get there; the exchange fails, the call throws, and the ID is neither
      back in the pool nor out of the caller's hands. */
  lemma ReturnCanThrow(n: nat, renters: set<Thread>, t: Thread)
    requires n > 0 && t in renters
    ensures var s := Reached(n, renters, ThrowActs(t));
            var s' := Step(s, renters, Go(t, false));
            && At(s, t) == ReturnCas(0) && s.held == multiset{}
            && At(s', t).Idle? && s'.held == multiset{0} && s'.head == s.head && s'.next == s.next
  {
    var s0 := Init(n);
    RunFour(s0, renters, TryRent(t, 0), Go(t, false), Go(t, false), Return(t, 0));
    TakesFromHead(s0, renters, t, 0);
    var s3 := s0.(head := s0.next[0], points := s0.points[t := Idle], held := multiset{0});
    assert s0.held + multiset{0} == multiset{0};
    assert multiset{0} - multiset{0} == multiset{};
    assert Step(s3, renters, Return(t, 0)) == Put(s3, t, ReturnCas(0)).(held := multiset{});
  }

  // ---- the pool as an atomic set --------------------------------------------------------------

  function FreeIds(v: View): set<int> {
    set id | id in v.free
  }

  /** The ID that an action takes out of the pool. */
  function Taken(s: Pool, a: Action): int {
    if !a.Go? then NIL
    else
      match At(s, a.t)
      case RentCas(top, _) => if s.head == top then top else NIL
      case HeadCas(cur, _) => if s.head == cur then cur else NIL
      case Unlink(_, cur, _) => cur
      case _ => NIL
  }

  /** The ID that an action puts back. */
  function PutBack(s: Pool, a: Action): int {
    if !a.Go? then NIL
    else
      match At(s, a.t)
      case ReturnSwing(id, top) => if s.head == top && !a.spurious then id else NIL
      case _ => NIL
  }

  lemma TakenIsFree(s: Pool, v: View, renters: set<Thread>, a: Action)
    requires Inv(s, v, renters) && Taken(s, a) != NIL
    ensures Taken(s, a) in v.free
    ensures ViewStep(s, v, renters, a).free == Without(v.free, Taken(s, a))
  {
    assert a.t in s.points && PointOk(s.points[a.t], s.next, v.free);
  }

  lemma TakingShrinksFree(s: Pool, v: View, renters: set<Thread>, a: Action)
    requires Inv(s, v, renters) && Taken(s, a) != NIL
    ensures Taken(s, a) in FreeIds(v)
    ensures FreeIds(ViewStep(s, v, renters, a)) == FreeIds(v) - {Taken(s, a)}
  {
    TakenIsFree(s, v, renters, a);
    var i :| 0 <= i < |v.free| && v.free[i] == Taken(s, a);
    ChainAcyclic(s.head, s.next, v.free);
    WithoutNode(v.free, i);
  }

  lemma PuttingGrowsFree(s: Pool, v: View, renters: set<Thread>, a: Action)
    requires Inv(s, v, renters) && PutBack(s, a) != NIL
    ensures PutBack(s, a) !in FreeIds(v)
    ensures FreeIds(ViewStep(s, v, renters, a)) == FreeIds(v) + {PutBack(s, a)}
  {
    InHandOf(s, v, renters, a.t);
    assert ViewStep(s, v, renters, a).free == [PutBack(s, a)] + v.free;
  }

  lemma OthersKeepFree(s: Pool, v: View, renters: set<Thread>, a: Action)
    requires Inv(s, v, renters) && Taken(s, a) == NIL == PutBack(s, a)
    ensures ViewStep(s, v, renters, a).free == v.free
  {
    if a.Go? && a.t in s.points { assert PointOk(s.points[a.t], s.next, v.free); }
    ChainRange(s.head, s.next, v.free);
  }

  /** Seen as a set of IDs, the pool is atomic: a successful compare-exchange of a rent, or the unlink of
      `try_rent`, takes out one free ID, the swing of a return puts one in that was not free, and no other
      action changes it. */
  lemma StepIsAtomic(s: Pool, v: View, renters: set<Thread>, a: Action)
    requires Inv(s, v, renters)
    ensures var free, free' := FreeIds(v), FreeIds(ViewStep(s, v, renters, a));
            if Taken(s, a) != NIL then Taken(s, a) in free && free' == free - {Taken(s, a)}
            else if PutBack(s, a) != NIL then PutBack(s, a) !in free && free' == free + {PutBack(s, a)}
            else free' == free
  {
    if Taken(s, a) != NIL {
      TakingShrinksFree(s, v, renters, a);
    } else if PutBack(s, a) != NIL {
      PuttingGrowsFree(s, v, renters, a);
    } else {
      OthersKeepFree(s, v, renters, a);
    }
  }
}
