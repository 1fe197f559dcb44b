/** A server that restarts: the constructor's scan of the subscribers table rebuilds the ID pool and the
    bag, with no other thread running yet. */
module Recovery {
  import opened Chains
  import B = ConcurrentBag
  import P = IdPool
  import opened TopicService

  /** The thread that constructs the topic. */
  const ME: P.Thread := 0

  // ---- try_rent with nobody else running ------------------------------------------------------

  /** An idle pool with this free list. */
  ghost predicate PoolAt(s: P.Pool, free: seq<int>) {
    P.At(s, ME).Idle? && Chain(s.head, s.next, free) && |s.next| == |s.inUse| == SLOTS
  }

  /** `try_rent` from where it has found the ID at the head of the list to its end. */
  method TakeHead(s: P.Pool, target: nat, ghost free: seq<int>) returns (s': P.Pool)
    requires P.At(s, ME) == P.SeekNext(target, NIL, target) && |s.next| == |s.inUse| == SLOTS
    requires Chain(s.head, s.next, free) && free != [] && free[0] == target
    ensures PoolAt(s', Without(free, target)) && s'.held == s.held + multiset{target}
    ensures s'.inUse == s.inUse
  {
    s' := P.GoStep(s, ME, false);
    assert P.At(s', ME) == P.HeadCas(target, s.next[target]);
    s' := P.GoStep(s', ME, false);
    assert s'.head == s.next[target] && s'.next == s.next;
  }

  /** `try_rent` from where it has found the ID further down the list to its end. */
  method TakeMiddle(s: P.Pool, target: nat, ghost free: seq<int>, ghost i: nat) returns (s': P.Pool)
    requires |s.next| == |s.inUse| == SLOTS && Chain(s.head, s.next, free)
    requires 0 < i < |free| && free[i] == target && P.At(s, ME) == P.SeekNext(target, free[i - 1], target)
    requires target < SLOTS
    ensures PoolAt(s', Without(free, target)) && s'.held == s.held + multiset{target}
    ensures s'.inUse == s.inUse[target := true]
  {
    ghost var prev := free[i - 1];
    ChainNext(s.head, s.next, free, i - 1);
    ChainNext(s.head, s.next, free, i);
    ChainAcyclic(s.head, s.next, free);
    ChainUnlink(s.head, s.next, free, i);
    WithoutNode(free, i);
    s' := P.GoStep(s, ME, false);
    assert P.At(s', ME) == P.Mark(prev, target, s.next[target]);
    s' := P.GoStep(s', ME, false);
    assert P.At(s', ME) == P.CheckPrev(prev, target, s.next[target]);
    s' := P.GoStep(s', ME, false);
    assert P.At(s', ME) == P.CheckNext(prev, target, s.next[target]);
    s' := P.GoStep(s', ME, false);
    assert P.At(s', ME) == P.Unlink(prev, target, s.next[target]) && s'.next == s.next;
    s' := P.GoStep(s', ME, false);
    assert s'.head == s.head && s'.next == s.next[prev := s.next[target]];
  }

  /** Where `try_rent` is when it has looked at `i` nodes of the free list. */
  function Seeking(target: int, free: seq<int>, i: nat): P.Point {
    if i < |free| then P.SeekNext(target, if i == 0 then NIL else free[i - 1], free[i]) else P.Idle
  }

  /** What `try_rent` does to the in-use markers: it sets that of the ID, unless the ID is at the head. */
  function MarkersAfter(inUse: seq<bool>, free: seq<int>, target: nat): seq<bool>
    requires free != [] && target < |inUse|
  {
    if free[0] == target then inUse else inUse[target := true]
  }

  /** `try_rent` run to its end: it finds the ID exactly when it is free, and takes nothing else. */
  method TryRent(s: P.Pool, target: nat, ghost free: seq<int>) returns (s': P.Pool, ok: bool)
    requires PoolAt(s, free) && target < SLOTS
    ensures ok <==> target in free
    ensures PoolAt(s', if ok then Without(free, target) else free)
    ensures s'.held == if ok then s.held + multiset{target} else s.held
    ensures ok ==> s'.inUse == MarkersAfter(s.inUse, free, target)
  {
    ghost var i := 0;
    s', ok := P.Step(s, {ME}, P.TryRent(ME, target)), false;
    ChainRange(s.head, s.next, free);
    while P.At(s', ME).SeekNext? && P.At(s', ME).cur != target
      invariant i <= |free| && target !in free[..i] && P.At(s', ME) == Seeking(target, free, i)
      invariant s' == s.(points := s'.points)
      decreases |free| - i
    {
      ChainNext(s.head, s.next, free, i);
      s' := P.GoStep(s', ME, false);
      assert free[..i + 1] == free[..i] + [free[i]];
      i := i + 1;
      assert i < |free| ==> free[i] in free;
    }
    if P.At(s', ME).Idle? {
      assert free[..i] == free;
      return;
    }
    assert free[i] in free && (i > 0 ==> free[i - 1] in free);
    assert free[0] == target <==> i == 0 by { ChainAcyclic(s.head, s.next, free); }
    if P.At(s', ME).prev == NIL { s' := TakeHead(s', target, free); }
    else { s' := TakeMiddle(s', target, free, i); }
    ok := true;
  }

  // ---- push with nobody else running ----------------------------------------------------------

  /** An idle bag with these two lists. */
  ghost predicate BagAt(b: B.Bag, items: seq<int>, free: seq<int>) {
    && b.pusher.PushIdle? && b.walker.WalkIdle? && |b.next| == |b.value| == SLOTS
    && Chain(b.itemsHead, b.next, items) && Chain(b.freeHead, b.next, free)
    && (forall n | n in items :: n !in free) && |items| + |free| == SLOTS
  }

  /** `push` on node `top`, up to the links. */
  method PushSteps(b: B.Bag, item: B.Item, top: int) returns (b': B.Bag)
    requires b.pusher.PushIdle? && b.freeHead == top && 0 <= top < |b.next| == |b.value|
    ensures b' == b.(freeHead := b.next[top], itemsHead := top, value := b.value[top := item],
                     next := b.next[top := b.itemsHead], pushed := b.pushed + multiset{item},
                     pushAnswer := B.Answer(true))
  {
    b' := B.Step(b, B.BeginPush(item));
    b' := B.PushAction(b', false);
    assert b'.pusher == B.PopCas(item, top, b.next[top]);
    b' := B.PushAction(b', false);
    b' := B.PushAction(b', false);
    assert b'.pusher == B.PutHead(item, top);
    b' := B.PushAction(b', false);
    b' := B.PushAction(b', false);
    assert b'.pusher == B.PutCas(item, top, b.itemsHead);
    b' := B.PushAction(b', false);
  }

  /** `push` run to its end: it takes a free node. */
  method Push(b: B.Bag, item: B.Item, ghost items: seq<int>, ghost free: seq<int>) returns (b': B.Bag)
    requires BagAt(b, items, free) && free != []
    ensures BagAt(b', [free[0]] + items, free[1..]) && b'.pushAnswer == B.Answer(true)
    ensures B.Contents([free[0]] + items, b'.value) == multiset{item} + B.Contents(items, b.value)
  {
    ghost var node := free[0];
    ChainAcyclic(b.freeHead, b.next, free);
    assert node in free && node !in items && node !in free[1..];
    b' := PushSteps(b, item, b.freeHead);
    ChainFrame(b.itemsHead, b.next, b'.next, items);
    ChainFrame(b.next[node], b.next, b'.next, free[1..]);
    ChainPush(b.itemsHead, b'.next, items, node);
    B.ContentsFrame(items, b.value, b'.value);
    assert ([node] + items)[1..] == items;
    forall n | n in [node] + items ensures n !in free[1..] {
      if n != node { assert n in items; }
    }
  }

  // ---- the scan -------------------------------------------------------------------------------

  /** A slot whose subscription is rebuilt: in use, not being removed, its process alive. */
  predicate Survives(d: Slot, alive: bool) {
    d.active && !d.pendingRemove && alive
  }

  /** The subscriptions of the surviving slots below `n`; `subs[i]` is the one opened for slot `i`. */
  function Survivors(slots: seq<Slot>, alive: seq<bool>, subs: seq<B.Item>, n: nat): multiset<B.Item>
    requires n <= |slots| == |alive| == |subs|
  {
    if n == 0 then multiset{}
    else Survivors(slots, alive, subs, n - 1)
         + if Survives(slots[n - 1], alive[n - 1]) then multiset{subs[n - 1]} else multiset{}
  }

  function SurvivingIds(slots: seq<Slot>, alive: seq<bool>, n: nat): multiset<int>
    requires n <= |slots| == |alive|
  {
    if n == 0 then multiset{}
    else SurvivingIds(slots, alive, n - 1)
         + if Survives(slots[n - 1], alive[n - 1]) then multiset{n - 1} else multiset{}
  }

  /** Each surviving slot's ID once, and no other. */
  lemma {:induction false} SurvivingIdsOnce(slots: seq<Slot>, alive: seq<bool>, n: nat, i: int)
    requires n <= |slots| == |alive|
    ensures SurvivingIds(slots, alive, n)[i] == if 0 <= i < n && Survives(slots[i], alive[i]) then 1 else 0
  {
    if n > 0 { SurvivingIdsOnce(slots, alive, n - 1, i); }
  }

  /** What the scan leaves of the table: a slot that is in use but not rebuilt is no longer pending. */
  function Cleaned(d: Slot, alive: bool): Slot {
    if d.active && !Survives(d, alive) then d.(pendingRemove := false) else d
  }

  /** The clean-up leaves the slot in use: at the next restart it is rebuilt whenever its process runs,
      even if its removal was pending at this one. */
  lemma CleanedSlotComesBack(d: Slot, alive: bool, aliveNext: bool)
    ensures Survives(Cleaned(d, alive), aliveNext) <==> d.active && aliveNext
  {
  }

  lemma SameTail(free: seq<int>, target: int)
    requires NoDuplicates(free) && target in free
    ensures forall n :: n in Without(free, target) <==> n in free && n != target
  {
    var k :| 0 <= k < |free| && free[k] == target;
    WithoutNode(free, k);
  }

  lemma StartsEmpty(empty: seq<B.Item>)
    requires |empty| == SLOTS
    ensures
      var ids := seq(SLOTS, i => i);
      && PoolAt(P.Init(SLOTS), ids) && BagAt(B.Init(empty), [], ids)
      && (forall i | 0 <= i < SLOTS :: i in ids)
      && P.Init(SLOTS).inUse == seq(SLOTS, i => false)
  {
    var ids := seq(SLOTS, i => i);
    InitialChain(P.Init(SLOTS).next, 0);
    assert ids == seq(SLOTS - 0, i => 0 + i);
    forall i | 0 <= i < SLOTS ensures i in ids { assert ids[i] == i; }
  }

  /** One slot whose subscription is rebuilt. */
  method Rebuild(pool: P.Pool, bag: B.Bag, n: nat, sub: B.Item,
                 ghost free: seq<int>, ghost items: seq<int>, ghost nodes: seq<int>)
    returns (pool': P.Pool, bag': B.Bag, ok: bool)
    requires PoolAt(pool, free) && BagAt(bag, items, nodes) && n < SLOTS && n in free && nodes != []
    ensures ok && PoolAt(pool', Without(free, n)) && pool'.held == pool.held + multiset{n}
    ensures pool'.inUse == MarkersAfter(pool.inUse, free, n)
    ensures forall i :: i in Without(free, n) <==> i in free && i != n
    ensures BagAt(bag', [nodes[0]] + items, nodes[1..])
    ensures B.Contents([nodes[0]] + items, bag'.value) == multiset{sub} + B.Contents(items, bag.value)
  {
    ChainAcyclic(pool.head, pool.next, free);
    SameTail(free, n);
    bag' := bag;
    pool', ok := TryRent(pool, n, free);
    if ok { bag' := Push(bag, sub, items, nodes); }
  }

  predicate AllSurvive(table: seq<Slot>, alive: seq<bool>, n: nat)
    requires n <= |table| == |alive|
  {
    forall i | 0 <= i < n :: Survives(table[i], alive[i])
  }

  /** As long as every slot survives, the scan takes its IDs from the head of the list, unmarked; from the
      first that does not survive on, that one stays at the head and the others are marked. */
  ghost predicate Marked(table: seq<Slot>, alive: seq<bool>, n: nat, inUse: seq<bool>, free: seq<int>)
    requires n <= |table| == |alive| == SLOTS
  {
    && (AllSurvive(table, alive, n) ==> free == seq(SLOTS - n, i => n + i))
    && (!AllSurvive(table, alive, n) ==> free != [] && free[0] < n)
    && |inUse| == SLOTS
    && forall i | 0 <= i < SLOTS ::
         inUse[i] <==> i < n && Survives(table[i], alive[i]) && !AllSurvive(table, alive, i)
  }

  lemma PassedKeepsMarked(table: seq<Slot>, alive: seq<bool>, n: nat, inUse: seq<bool>, free: seq<int>)
    requires n < |table| == |alive| == SLOTS && Marked(table, alive, n, inUse, free)
    requires !Survives(table[n], alive[n])
    ensures Marked(table, alive, n + 1, inUse, free)
  {
    assert !AllSurvive(table, alive, n + 1);
  }

  lemma RebuiltKeepsMarked(table: seq<Slot>, alive: seq<bool>, n: nat, inUse: seq<bool>, free: seq<int>)
    requires n < |table| == |alive| == SLOTS && Marked(table, alive, n, inUse, free)
    requires Survives(table[n], alive[n]) && free != []
    ensures Marked(table, alive, n + 1, MarkersAfter(inUse, free, n), Without(free, n))
  {
    if AllSurvive(table, alive, n) {
      assert free[1..] == seq(SLOTS - (n + 1), i => n + 1 + i);
      assert AllSurvive(table, alive, n + 1);
    } else {
      assert Without(free, n)[0] == free[0];
      assert !AllSurvive(table, alive, n + 1);
    }
  }

  /** The first `n` slots have been scanned. */
  ghost predicate Scanned(
    table: seq<Slot>, alive: seq<bool>, subs: seq<B.Item>, n: nat,
    slots: seq<Slot>, pool: P.Pool, bag: B.Bag, free: seq<int>, items: seq<int>, nodes: seq<int>)
  {
    && |table| == |alive| == |subs| == |slots| == SLOTS && n <= SLOTS
    && (forall i | 0 <= i < SLOTS :: slots[i] == if i < n then Cleaned(table[i], alive[i]) else table[i])
    && PoolAt(pool, free) && pool.held == SurvivingIds(table, alive, n)
    && (forall i | 0 <= i < SLOTS :: i in free <==> i >= n || !Survives(table[i], alive[i]))
    && BagAt(bag, items, nodes) && |items| <= n
    && B.Contents(items, bag.value) == Survivors(table, alive, subs, n)
    && Marked(table, alive, n, pool.inUse, free)
  }

  /** A slot that is not rebuilt is cleaned up or left alone. */
  lemma SlotPassed(
    table: seq<Slot>, alive: seq<bool>, subs: seq<B.Item>, n: nat,
    slots: seq<Slot>, pool: P.Pool, bag: B.Bag, free: seq<int>, items: seq<int>, nodes: seq<int>)
    requires Scanned(table, alive, subs, n, slots, pool, bag, free, items, nodes)
    requires n < SLOTS && !Survives(table[n], alive[n])
    ensures Scanned(table, alive, subs, n + 1, slots[n := Cleaned(table[n], alive[n])],
                    pool, bag, free, items, nodes)
  {
    PassedKeepsMarked(table, alive, n, pool.inUse, free);
  }

  lemma SlotRebuilt(
    table: seq<Slot>, alive: seq<bool>, subs: seq<B.Item>, n: nat,
    slots: seq<Slot>, pool: P.Pool, bag: B.Bag, free: seq<int>, items: seq<int>, nodes: seq<int>,
    pool': P.Pool, bag': B.Bag)
    requires Scanned(table, alive, subs, n, slots, pool, bag, free, items, nodes)
    requires n < SLOTS && Survives(table[n], alive[n]) && nodes != []
    requires PoolAt(pool', Without(free, n)) && pool'.held == pool.held + multiset{n}
    requires free != [] && pool'.inUse == MarkersAfter(pool.inUse, free, n)
    requires forall i :: i in Without(free, n) <==> i in free && i != n
    requires BagAt(bag', [nodes[0]] + items, nodes[1..])
    requires B.Contents([nodes[0]] + items, bag'.value) == multiset{subs[n]} + B.Contents(items, bag.value)
    ensures Scanned(table, alive, subs, n + 1, slots, pool', bag', Without(free, n),
                    [nodes[0]] + items, nodes[1..])
  {
    RebuiltKeepsMarked(table, alive, n, pool.inUse, free);
  }

  /** Restart.  After the scan the bag holds exactly one subscription for each slot that is in use, not
      pending removal and alive, and exactly the IDs of those slots are rented.  Neither can `try_rent`
      fail, which would throw, nor the bag be full. */
  method Recover(table: seq<Slot>, alive: seq<bool>, subs: seq<B.Item>, empty: seq<B.Item>)
    returns (slots: seq<Slot>, pool: P.Pool, bag: B.Bag, threw: bool,
             ghost free: seq<int>, ghost items: seq<int>, ghost nodes: seq<int>)
    requires |table| == |alive| == |subs| == |empty| == SLOTS
    ensures !threw
    ensures |slots| == SLOTS && forall i | 0 <= i < SLOTS :: slots[i] == Cleaned(table[i], alive[i])
    ensures PoolAt(pool, free) && pool.held == SurvivingIds(table, alive, SLOTS)
    ensures forall i | 0 <= i < SLOTS :: i in free <==> !Survives(table[i], alive[i])
    ensures Marked(table, alive, SLOTS, pool.inUse, free)
    ensures BagAt(bag, items, nodes) && B.Contents(items, bag.value) == Survivors(table, alive, subs, SLOTS)
  {
    slots, pool, bag, threw := table, P.Init(SLOTS), B.Init(empty), false;
    items, free, nodes := [], seq(SLOTS, i => i), seq(SLOTS, i => i);
    StartsEmpty(empty);
    for n := 0 to SLOTS
      invariant !threw && Scanned(table, alive, subs, n, slots, pool, bag, free, items, nodes)
    {
      var sub := slots[n];
      if !Survives(sub, alive[n]) {
        SlotPassed(table, alive, subs, n, slots, pool, bag, free, items, nodes);
        assert !sub.active ==> slots[n := sub] == slots;
      }
      if sub.active {
        if sub.pendingRemove {
          slots := slots[n := sub.(pendingRemove := false)];
        } else if !alive[n] {
          slots := slots[n := sub.(pendingRemove := false)];
        } else {
          var pool', bag', ok := Rebuild(pool, bag, n, subs[n], free, items, nodes);
          if !ok { threw := true; return; }
          SlotRebuilt(table, alive, subs, n, slots, pool, bag, free, items, nodes, pool', bag');
          pool, bag := pool', bag';
          free, items, nodes := Without(free, n), [nodes[0]] + items, nodes[1..];
        }
      }
    }
  }

  // ---- after the restart ----------------------------------------------------------------------

  /** The first two steps of `returns` look at the marker of the ID and at nothing else. */
  lemma ReturnLooksAtMarker(pool: P.Pool, id: nat)
    requires P.At(pool, ME).Idle? && id in pool.held && id < |pool.inUse|
    ensures
      var s := P.Step(pool, {ME}, P.Return(ME, id));
      var s' := P.Step(s, {ME}, P.Go(ME, false));
      && P.At(s, ME) == P.ReturnCas(id)
      && (if pool.inUse[id] then P.At(s', ME) == P.ReturnHead(id)
          else P.At(s', ME).Idle? && s'.held == pool.held)
  {
    var s := P.Step(pool, {ME}, P.Return(ME, id));
    assert P.At(s, ME) == P.ReturnCas(id) && s.held == pool.held - multiset{id as int};
    assert s.held + multiset{id as int} == pool.held;
  }

  lemma MarkerAfterRestart(table: seq<Slot>, alive: seq<bool>, inUse: seq<bool>, free: seq<int>, id: nat)
    requires id < |table| == |alive| == SLOTS && Marked(table, alive, SLOTS, inUse, free)
    requires Survives(table[id], alive[id])
    ensures inUse[id] <==> !AllSurvive(table, alive, id + 1)
  {
    assert AllSurvive(table, alive, id + 1) <==> AllSurvive(table, alive, id);
  }

  /** Returning the ID of a rebuilt subscription throws exactly when every slot up to it was rebuilt too:
      those IDs came from the head of the list, and `try_rent` did not mark them. */
  lemma ReturnAfterRestartThrows(
    table: seq<Slot>, alive: seq<bool>, pool: P.Pool, free: seq<int>, id: nat)
    requires id < |table| == |alive| == SLOTS && PoolAt(pool, free)
    requires pool.held == SurvivingIds(table, alive, SLOTS) && Marked(table, alive, SLOTS, pool.inUse, free)
    requires Survives(table[id], alive[id])
    ensures
      var s := P.Step(pool, {ME}, P.Return(ME, id));
      var s' := P.Step(s, {ME}, P.Go(ME, false));
      && P.At(s, ME) == P.ReturnCas(id)
      && (if AllSurvive(table, alive, id + 1) then P.At(s', ME).Idle? && s'.held == pool.held
          else P.At(s', ME) == P.ReturnHead(id))
  {
    SurvivingIdsOnce(table, alive, SLOTS, id);
    MarkerAfterRestart(table, alive, pool.inUse, free, id);
    ReturnLooksAtMarker(pool, id);
  }

  /** Two restarts.  The clean-up of the first leaves a dropped slot in use, so the second rebuilds every
      slot that is in use and whose process runs then, also one whose removal was pending before. */
  method RecoverTwice(table: seq<Slot>, alive: seq<bool>, aliveNext: seq<bool>,
                      subs: seq<B.Item>, empty: seq<B.Item>)
    returns (slots: seq<Slot>, pool: P.Pool, bag: B.Bag, threw: bool)
    requires |table| == |alive| == |aliveNext| == |subs| == |empty| == SLOTS
    ensures !threw
    ensures forall i | 0 <= i < SLOTS :: pool.held[i] == if table[i].active && aliveNext[i] then 1 else 0
  {
    ghost var free, items, nodes;
    slots, pool, bag, threw, free, items, nodes := Recover(table, alive, subs, empty);
    ghost var first := slots;
    slots, pool, bag, threw, free, items, nodes := Recover(slots, aliveNext, subs, empty);
    forall i | 0 <= i < SLOTS ensures pool.held[i] == if table[i].active && aliveNext[i] then 1 else 0 {
      SurvivingIdsOnce(first, aliveNext, SLOTS, i);
      CleanedSlotComesBack(table[i], alive[i], aliveNext[i]);
    }
  }
}
