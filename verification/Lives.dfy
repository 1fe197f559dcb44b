/** Subscriptions made and removed, one after the other, and what they cost in IDs. */
module Lives {
  import opened Cursors
  import opened Operations
  import opened Options
  import opened Rounds
  import opened TopicService

  /** Nothing is going on, and the bag is empty. */
  predicate Tidy(s: Topic) {
    && |s.ring| > 0 && |s.slots| == SLOTS && |s.permits| == |s.clients| && s.nextIndex + 2 < WORD
    && s.publisher.Quiet? && s.dispatcher.Waiting? && s.bag == []
  }

  /** The end of a life in slot `i`: as written it has cost its ID, as intended nothing. */
  predicate Lived(s': Topic, s: Topic, i: nat, pid: nat) {
    && |s'.ring| == |s.ring| > 0 && |s'.slots| == SLOTS && s'.code == s.code
    && s'.clients == s.clients + [NewClient(i, pid, false)] && |s'.permits| == |s'.clients|
    && s'.nextIndex == s.nextIndex + 1
    && s'.publisher.Quiet? && s'.dispatcher.Waiting? && s'.bag == []
    && s'.free == if s.code.Written? then s.free - {i} else s.free
  }

  /** The new subscription, closed by its client. */
  lemma {:induction false} LifeToClose(s: Topic, i: nat, pid: nat) returns (acts: seq<Action>)
    requires Tidy(s) && i in s.free && i < SLOTS
    ensures
      var k, s1 := |s.clients|, Subscribed(s, i, pid);
      Run(s, acts) == s1.(clients := s1.clients[k := NewClient(i, pid, false).(asked := true)])
  {
    var k := |s.clients|;
    var more := SubscribeAlone(s, i, pid);
    RunsOn(s, [Subscribe(i, pid)] + more, Close(k));
    acts := [Subscribe(i, pid)] + more + [Close(k)];
  }

  /** Unsubscribed: pending removal, and nothing asked any more. */
  function Ending(s: Topic, i: nat, pid: nat): Topic
    requires i < |s.slots|
  {
    var s1 := Subscribed(s, i, pid);
    s1.(clients := s.clients + [NewClient(i, pid, false)],
        slots := s1.slots[i := s1.slots[i].(pendingRemove := true)])
  }

  lemma {:induction false} LifeToUnsubscribe(s: Topic, i: nat, pid: nat) returns (acts: seq<Action>)
    requires Tidy(s) && i in s.free && i < SLOTS
    ensures Run(s, acts) == Ending(s, i, pid)
  {
    var k := |s.clients|;
    var acts1 := LifeToClose(s, i, pid);
    var s1 := Run(s, acts1);
    UnsubscribeAlone(s1, k, false);
    var more := [Unsubscribe(k)] + [DispatcherStep(false)] + [DispatcherStep(false)];
    RunBoth(s, acts1, more);
    acts := acts1 + more;
  }

  lemma {:induction false} HasMember(bag: seq<Subscription>)
    requires bag != []
    ensures exists b :: b in bag
  {
    assert bag[0] in bag;
  }

  /** The round that removes it. */
  lemma RemovedAlone(s: Topic, i: nat, pid: nat, s1: Topic, s': Topic)
    requires Tidy(s) && i in s.free && i < SLOTS
    requires s1 == Stored(Ending(s, i, pid)) && RoundDone(s1, s')
    ensures Lived(s', s, i, pid)
  {
    var sub := Subscription(|s.clients|, i);
    assert s1.bag == [sub] && sub in s1.bag && IsPending(s1, sub);
    if s'.bag != [] { HasMember(s'.bag); }
    forall j: nat ensures j in s'.free <==> j in if s.code.Written? then s.free - {i} else s.free { }
  }

  /** The life of one subscription of any process: it is made in slot `i`, closed by its client, unsubscribed,
      and removed by the next `NotifyAll`. */
  lemma {:induction false} OneLife(s: Topic, i: nat, pid: nat) returns (acts: seq<Action>)
    requires Tidy(s) && i in s.free && i < SLOTS
    ensures Lived(Run(s, acts), s, i, pid)
  {
    var acts1 := LifeToUnsubscribe(s, i, pid);
    var s1 := Ending(s, i, pid);
    var more := PublishAlone(s1);
    RunBoth(s, acts1, [Publish] + [PublisherStep(true)] + more);
    acts := acts1 + ([Publish] + [PublisherStep(true)] + more);
    RemovedAlone(s, i, pid, Stored(s1), Run(s, acts));
  }

  // ---- one after the other --------------------------------------------------------------------

  /** The slot of life `n`: as written the next one, as intended always slot 0. */
  function SlotOfLife(code: Code, n: nat): nat
    requires n > 0
  {
    if code.Written? then n - 1 else 0
  }

  lemma InitIsTidy(capacity: nat, code: Code)
    requires capacity > 0
    ensures Tidy(Init(capacity, code)) && Init(capacity, code).code == code
    ensures Init(capacity, code).clients == [] && Init(capacity, code).nextIndex == 0
    ensures forall i: nat :: i in Init(capacity, code).free <==> i < SLOTS
  {
  }

  /** The IDs that are free after `n` lives. */
  ghost predicate FreeAfter(free: set<nat>, code: Code, n: nat) {
    forall i: nat :: i in free <==> (if code.Written? then n else 0) <= i < SLOTS
  }

  /** After the lives of subscriptions of these processes. */
  ghost predicate Outlived(s: Topic, code: Code, pids: seq<nat>) {
    && Tidy(s) && s.code == code && |s.clients| == |pids| == s.nextIndex && FreeAfter(s.free, code, |pids|)
    && forall j | 0 <= j < |pids| :: s.clients[j].pid == pids[j]
  }

  lemma {:induction false} AnotherLife(s: Topic, s': Topic, code: Code, pids: seq<nat>)
    requires
      var n := |pids|;
      && 0 < n < WORD - 2 && Outlived(s, code, pids[..n - 1])
      && Lived(s', s, SlotOfLife(code, n), pids[n - 1])
    ensures Outlived(s', code, pids)
  {
  }

  lemma {:induction false} LivesRun(capacity: nat, code: Code, pids: seq<nat>) returns (acts: seq<Action>, s: Topic)
    requires capacity > 0 && |pids| + 2 < WORD && (code.Written? ==> |pids| <= SLOTS)
    ensures Reached(capacity, code, acts) == s && Outlived(s, code, pids)
    decreases |pids|
  {
    var n := |pids|;
    if n == 0 {
      InitIsTidy(capacity, code);
      acts, s := [], Init(capacity, code);
    } else {
      var acts0, s0 := LivesRun(capacity, code, pids[..n - 1]);
      var more := OneLife(s0, SlotOfLife(code, n), pids[n - 1]);
      RunBoth(Init(capacity, code), acts0, more);
      acts, s := acts0 + more, Run(s0, more);
      AnotherLife(s0, s, code, pids);
    }
  }

  lemma IdsLeft(free: set<nat>, m: nat, n: nat)
    requires n <= m && forall i: nat :: i in free <==> n <= i < m
    ensures |free| == m - n
  {
    assert free + Ids(n) == Ids(m);
  }

  lemma FreeCount(free: set<nat>, code: Code, n: nat)
    requires FreeAfter(free, code, n) && (code.Written? ==> n <= SLOTS)
    ensures |free| == if code.Written? then SLOTS - n else SLOTS
  {
    IdsLeft(free, SLOTS, if code.Written? then n else 0);
  }

  /** For any processes, there is a run that has made a subscription for each of them and removed it again.  As
      intended all 256 IDs are free at its end, however many there were; as written, 256 less their number. */
  lemma {:induction false} EveryLifeCostsAnId(capacity: nat, code: Code, pids: seq<nat>) returns (acts: seq<Action>)
    requires capacity > 0 && |pids| + 2 < WORD && (code.Written? ==> |pids| <= SLOTS)
    ensures
      var s := Reached(capacity, code, acts);
      && s.bag == [] && s.publisher.Quiet? && s.dispatcher.Waiting?
      && |s.clients| == |pids| && (forall j | 0 <= j < |pids| :: s.clients[j].pid == pids[j])
      && |s.free| == if code.Written? then SLOTS - |pids| else SLOTS
  {
    var s;
    acts, s := LivesRun(capacity, code, pids);
    FreeCount(s.free, code, |pids|);
  }

  /** So a run of the written code gets to a topic that has no subscription and accepts none. */
  lemma EmptyTopicRefuses(capacity: nat, index: nat, pid: nat) returns (acts: seq<Action>)
    requires capacity > 0
    ensures
      var s := Reached(capacity, Written, acts);
      s.bag == [] && s.free == {} && |s.clients| == SLOTS && Step(s, Subscribe(index, pid)) == s
  {
    acts := EveryLifeCostsAnId(capacity, Written, seq(SLOTS, i => pid));
    WrittenCodeUsesIdsUp(capacity, acts, index, pid);
  }
}
