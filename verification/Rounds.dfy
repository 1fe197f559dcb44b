/** A whole round of `NotifyAll`, and of the other operations, with nobody else running: what the topic looks
    like afterwards, for a bag of any length. */
module Rounds {
  import opened Chains
  import opened Cursors
  import opened Operations
  import opened Options
  import opened TopicService

  predicate OnlyPublishes(acts: seq<Action>) {
    forall a | a in acts :: a == PublisherStep(true)
  }

  /** The run goes on by one step of the publisher, whose removes find their entries. */
  lemma {:induction false} PublishesOn(r: Topic, acts: seq<Action>, s: Topic, s': Topic)
    requires |r.ring| > 0 && Run(r, acts) == s && OnlyPublishes(acts)
    requires PublisherAction(s, true) == s'
    ensures Run(r, acts + [PublisherStep(true)]) == s' && OnlyPublishes(acts + [PublisherStep(true)])
  {
    RunsOn(r, acts, PublisherStep(true));
  }

  // ---- the iteration --------------------------------------------------------------------------

  predicate IsPending(s: Topic, b: Subscription) {
    b.index < |s.slots| && s.slots[b.index].pendingRemove
  }

  /** A slot whose subscription is announced message `next - 1`. */
  function Announced(d: Slot, next: nat): Slot {
    d.(notified := d.notified + 1, nextIndex := if d.notified == 0 then Minus(next, 1) else d.nextIndex)
  }

  /** What the iteration does for one entry: nothing to one pending removal; for any other it counts the
      notification and releases one permit. */
  function AfterEntry(s: Topic, b: Subscription): Topic {
    if IsPending(s, b) || b.index >= |s.slots| || b.sem >= |s.permits| then s
    else s.(slots := s.slots[b.index := Announced(s.slots[b.index], s.nextIndex)],
            permits := s.permits[b.sem := s.permits[b.sem] + 1])
  }

  function AfterEntries(s: Topic, done: seq<Subscription>): Topic {
    if done == [] then s else AfterEntry(AfterEntries(s, done[..|done| - 1]), done[|done| - 1])
  }

  /** The entries pending removal, in order. */
  function PendingOf(s: Topic, done: seq<Subscription>): seq<Subscription> {
    if done == [] then []
    else PendingOf(s, done[..|done| - 1]) + if IsPending(s, done[|done| - 1]) then [done[|done| - 1]] else []
  }

  ghost predicate InRange(s: Topic, bag: seq<Subscription>) {
    forall b | b in bag :: b.index < |s.slots| && b.sem < |s.permits|
  }

  /** The publisher on its first entry, with nobody interfering. */
  lemma {:induction false} EntryIsPending(r: Topic, acts: seq<Action>, s: Topic) returns (acts': seq<Action>, s': Topic)
    requires |r.ring| > 0 && Run(r, acts) == s && OnlyPublishes(acts)
    requires s.publisher.Check? && Current(s) && IsPending(s, s.publisher.rest[0])
    ensures Run(r, acts') == s' && OnlyPublishes(acts')
    ensures s' == s.(publisher := Continue(s.publisher.rest[1..], s.publisher.gone + [s.publisher.rest[0]]))
  {
    s' := PublisherAction(s, true);
    PublishesOn(r, acts, s, s');
    acts' := acts + [PublisherStep(true)];
  }

  lemma {:induction false} FirstNotification(
    r: Topic, acts: seq<Action>, s: Topic) returns (acts': seq<Action>, s': Topic)
    requires |r.ring| > 0 && Run(r, acts) == s && OnlyPublishes(acts)
    requires s.publisher.LoadNext? && Current(s)
    ensures Run(r, acts') == s' && OnlyPublishes(acts')
    ensures
      var b := s.publisher.rest[0];
      s' == SetSlot(s, b.index, s.slots[b.index].(nextIndex := Minus(s.nextIndex, 1)))
            .(publisher := Release(s.publisher.rest, s.publisher.gone))
  {
    var s1 := s.(publisher := StoreNext(s.publisher.rest, s.publisher.gone, Minus(s.nextIndex, 1)));
    PublishesOn(r, acts, s, s1);
    s' := PublisherAction(s1, true);
    PublishesOn(r, acts + [PublisherStep(true)], s1, s');
    acts' := acts + [PublisherStep(true)] + [PublisherStep(true)];
  }

  lemma {:induction false} EntryIsCounted(r: Topic, acts: seq<Action>, s: Topic) returns (acts': seq<Action>, s': Topic)
    requires |r.ring| > 0 && Run(r, acts) == s && OnlyPublishes(acts)
    requires s.publisher.Check? && Current(s) && !IsPending(s, s.publisher.rest[0])
    ensures Run(r, acts') == s' && OnlyPublishes(acts')
    ensures
      var b, d := s.publisher.rest[0], s.slots[s.publisher.rest[0].index];
      s' == SetSlot(s, b.index, d.(notified := d.notified + 1))
            .(publisher := if d.notified == 0 then LoadNext(s.publisher.rest, s.publisher.gone)
                           else Release(s.publisher.rest, s.publisher.gone))
  {
    var s1 := s.(publisher := Count(s.publisher.rest, s.publisher.gone));
    PublishesOn(r, acts, s, s1);
    s' := PublisherAction(s1, true);
    PublishesOn(r, acts + [PublisherStep(true)], s1, s');
    acts' := acts + [PublisherStep(true)] + [PublisherStep(true)];
  }

  lemma {:induction false} EntryIsReleased(
    r: Topic, acts: seq<Action>, s: Topic) returns (acts': seq<Action>, s': Topic)
    requires |r.ring| > 0 && Run(r, acts) == s && OnlyPublishes(acts)
    requires s.publisher.Release? && Current(s) && s.publisher.rest[0].sem < |s.permits|
    ensures Run(r, acts') == s' && OnlyPublishes(acts')
    ensures
      var k := s.publisher.rest[0].sem;
      s' == s.(permits := s.permits[k := s.permits[k] + 1],
               publisher := Continue(s.publisher.rest[1..], s.publisher.gone))
  {
    s' := PublisherAction(s, true);
    PublishesOn(r, acts, s, s');
    acts' := acts + [PublisherStep(true)];
  }

  /** Up to the release of the permit. */
  lemma {:induction false} EntryIsAnnounced(r: Topic, acts: seq<Action>, s: Topic)
    returns (acts': seq<Action>, s': Topic)
    requires |r.ring| > 0 && Run(r, acts) == s && OnlyPublishes(acts)
    requires s.publisher.Check? && Current(s) && !IsPending(s, s.publisher.rest[0])
    ensures Run(r, acts') == s' && OnlyPublishes(acts')
    ensures
      var b := s.publisher.rest[0];
      s' == SetSlot(s, b.index, Announced(s.slots[b.index], s.nextIndex))
            .(publisher := Release(s.publisher.rest, s.publisher.gone))
  {
    acts', s' := EntryIsCounted(r, acts, s);
    if s'.publisher.LoadNext? { acts', s' := FirstNotification(r, acts', s'); }
  }

  /** What one entry makes of the topic. */
  function NextEntry(s: Topic, b: Subscription, rest: seq<Subscription>, gone: seq<Subscription>): Topic {
    AfterEntry(s, b).(publisher := Continue(rest, gone + if IsPending(s, b) then [b] else []))
  }

  lemma EntryAdds(s: Topic, s1: Topic, s': Topic)
    requires s.publisher.Check? && Current(s) && !IsPending(s, s.publisher.rest[0])
    requires s.publisher.rest[0].sem < |s.permits|
    requires
      var b := s.publisher.rest[0];
      && s1 == SetSlot(s, b.index, Announced(s.slots[b.index], s.nextIndex))
               .(publisher := Release(s.publisher.rest, s.publisher.gone))
      && s' == s1.(permits := s.permits[b.sem := s.permits[b.sem] + 1],
                   publisher := Continue(s.publisher.rest[1..], s.publisher.gone))
    ensures s' == NextEntry(s, s.publisher.rest[0], s.publisher.rest[1..], s.publisher.gone)
  {
    assert s.publisher.gone + [] == s.publisher.gone;
  }

  /** One entry of the iteration, whichever it is. */
  lemma {:induction false} EntryAlone(r: Topic, acts: seq<Action>, s: Topic)
    returns (acts': seq<Action>, s': Topic)
    requires |r.ring| > 0 && Run(r, acts) == s && OnlyPublishes(acts)
    requires s.publisher.Check? && Current(s) && s.publisher.rest[0].sem < |s.permits|
    ensures Run(r, acts') == s' && OnlyPublishes(acts')
    ensures s' == NextEntry(s, s.publisher.rest[0], s.publisher.rest[1..], s.publisher.gone)
  {
    if IsPending(s, s.publisher.rest[0]) {
      acts', s' := EntryIsPending(r, acts, s);
    } else {
      var acts1, s1 := EntryIsAnnounced(r, acts, s);
      acts', s' := EntryIsReleased(r, acts1, s1);
      EntryAdds(s, s1, s');
    }
  }

  lemma {:induction false} EntriesKeepPending(s: Topic, done: seq<Subscription>, b: Subscription)
    ensures |AfterEntries(s, done).slots| == |s.slots| && |AfterEntries(s, done).permits| == |s.permits|
    ensures AfterEntries(s, done).nextIndex == s.nextIndex
    ensures IsPending(AfterEntries(s, done), b) == IsPending(s, b)
  {
    if done != [] { EntriesKeepPending(s, done[..|done| - 1], b); }
  }

  /** The topic after the iteration has dealt with these entries, with the rest before it. */
  function Iterated(s: Topic, done: seq<Subscription>, rest: seq<Subscription>): Topic {
    AfterEntries(s, done).(publisher := Continue(rest, PendingOf(s, done)))
  }

  lemma {:induction false} EntriesOnly(s: Topic, done: seq<Subscription>)
    ensures
      var s' := AfterEntries(s, done);
      s' == s.(slots := s'.slots, permits := s'.permits)
  {
    if done != [] { EntriesOnly(s, done[..|done| - 1]); }
  }

  lemma {:induction false} NextIterated(s: Topic, done: seq<Subscription>, b: Subscription, rest: seq<Subscription>)
    ensures NextEntry(Iterated(s, done, [b] + rest), b, rest, PendingOf(s, done)) == Iterated(s, done + [b], rest)
  {
    EntriesKeepPending(s, done, b);
    assert (done + [b])[..|done|] == done;
  }

  lemma {:induction false} IteratedStands(s: Topic, done: seq<Subscription>, b: Subscription, rest: seq<Subscription>)
    requires b.index < |s.slots| && b.sem < |s.permits|
    ensures
      var s1 := Iterated(s, done, [b] + rest);
      && s1.publisher == Check([b] + rest, PendingOf(s, done)) && Current(s1) && b.sem < |s1.permits|
  {
    EntriesKeepPending(s, done, b);
  }

  lemma {:induction false} IterationOnce(
    r: Topic, acts: seq<Action>, s: Topic, done: seq<Subscription>, b: Subscription, rest: seq<Subscription>, s1: Topic)
    returns (acts': seq<Action>, s': Topic)
    requires |r.ring| > 0 && OnlyPublishes(acts) && b.index < |s.slots| && b.sem < |s.permits|
    requires Run(r, acts) == s1 && s1 == Iterated(s, done, [b] + rest)
    ensures OnlyPublishes(acts') && Run(r, acts') == s' && s' == Iterated(s, done + [b], rest)
  {
    IteratedStands(s, done, b, rest);
    acts', s' := EntryAlone(r, acts, s1);
    assert ([b] + rest)[1..] == rest;
    NextIterated(s, done, b, rest);
  }

  lemma {:induction false} FirstOf(s: Topic, bag: seq<Subscription>, n: nat)
    requires n < |bag| && InRange(s, bag)
    ensures [bag[n]] + bag[n + 1..] == bag[n..] && bag[..n] + [bag[n]] == bag[..n + 1]
    ensures bag[n].index < |s.slots| && bag[n].sem < |s.permits|
  {
  }

  /** The first `n` entries are done. */
  lemma {:induction false} IterationAlone(
    r: Topic, acts: seq<Action>, s: Topic, bag: seq<Subscription>, n: nat, s1: Topic)
    returns (acts': seq<Action>, s': Topic)
    requires |r.ring| > 0 && OnlyPublishes(acts) && InRange(s, bag) && n <= |bag|
    requires Run(r, acts) == s1 && s1 == Iterated(s, bag[..n], bag[n..])
    ensures OnlyPublishes(acts') && Run(r, acts') == s' && s' == Iterated(s, bag, [])
    decreases |bag| - n
  {
    if n == |bag| {
      assert bag[..n] == bag && bag[n..] == [];
      acts', s' := acts, s1;
    } else {
      FirstOf(s, bag, n);
      var acts1, s2 := IterationOnce(r, acts, s, bag[..n], bag[n], bag[n + 1..], s1);
      acts', s' := IterationAlone(r, acts1, s, bag, n + 1, s2);
    }
  }

  // ---- the removal pass -----------------------------------------------------------------------

  /** What the second loop does for one entry: it takes it out of the bag, clears its slot, and as intended
      gives its ID back. */
  function AfterRemoval(s: Topic, b: Subscription): Topic {
    if b !in s.bag || b.index >= |s.slots| then s
    else s.(bag := Without(s.bag, b),
            slots := s.slots[b.index := s.slots[b.index].(pendingRemove := false, active := false)],
            free := if s.code.Intended? then s.free + {b.index} else s.free)
  }

  function AfterRemovals(s: Topic, gone: seq<Subscription>): Topic
    decreases |gone|
  {
    if gone == [] then s else AfterRemovals(AfterRemoval(s, gone[|gone| - 1]), gone[..|gone| - 1])
  }

  /** The last entry of `toRemove`, with nobody interfering. */
  lemma {:induction false} TakesOut(r: Topic, acts: seq<Action>, s: Topic, gone: seq<Subscription>)
    returns (acts': seq<Action>, s': Topic)
    requires |r.ring| > 0 && Run(r, acts) == s && OnlyPublishes(acts)
    requires s.publisher == Remove(gone) && gone != [] && gone[|gone| - 1] in s.bag
    ensures Run(r, acts') == s' && OnlyPublishes(acts')
    ensures
      var b := gone[|gone| - 1];
      s' == s.(bag := Without(s.bag, b),
               publisher := ClearPending(b, IndexAfterClose(s.code, b), gone[..|gone| - 1]))
  {
    s' := PublisherAction(s, true);
    PublishesOn(r, acts, s, s');
    acts' := acts + [PublisherStep(true)];
  }

  lemma {:induction false} ClearsSlot(
    r: Topic, acts: seq<Action>, s: Topic, b: Subscription, id: int, gone: seq<Subscription>)
    returns (acts': seq<Action>, s': Topic)
    requires |r.ring| > 0 && Run(r, acts) == s && OnlyPublishes(acts)
    requires s.publisher == ClearPending(b, id, gone) && b.index < |s.slots|
    ensures Run(r, acts') == s' && OnlyPublishes(acts')
    ensures s' == s.(slots := s.slots[b.index := s.slots[b.index].(pendingRemove := false, active := false)],
                     publisher := GiveBack(b, id, gone))
  {
    var s1 := s.(slots := s.slots[b.index := s.slots[b.index].(pendingRemove := false)],
                 publisher := ClearActive(b, id, gone));
    PublishesOn(r, acts, s, s1);
    s' := s.(slots := s.slots[b.index := s.slots[b.index].(pendingRemove := false, active := false)],
             publisher := GiveBack(b, id, gone));
    assert s1.slots[b.index := s1.slots[b.index].(active := false)] == s'.slots;
    PublishesOn(r, acts + [PublisherStep(true)], s1, s');
    acts' := acts + [PublisherStep(true)] + [PublisherStep(true)];
  }

  lemma {:induction false} RemovalAlone(r: Topic, acts: seq<Action>, s: Topic, gone: seq<Subscription>)
    returns (acts': seq<Action>, s': Topic)
    requires |r.ring| > 0 && Run(r, acts) == s && OnlyPublishes(acts)
    requires s.publisher == Remove(gone) && gone != []
    requires gone[|gone| - 1] in s.bag && gone[|gone| - 1].index < |s.slots|
    ensures Run(r, acts') == s' && OnlyPublishes(acts')
    ensures s' == AfterRemoval(s, gone[|gone| - 1]).(publisher := Remove(gone[..|gone| - 1]))
  {
    var b, more := gone[|gone| - 1], gone[..|gone| - 1];
    var acts1, s1 := TakesOut(r, acts, s, gone);
    var acts2, s2 := ClearsSlot(r, acts1, s1, b, IndexAfterClose(s.code, b), more);
    s' := PublisherAction(s2, true);
    PublishesOn(r, acts2, s2, s');
    acts' := acts2 + [PublisherStep(true)];
  }

  /** Every entry of `toRemove` is in the bag, once. */
  ghost predicate Removable(s: Topic, gone: seq<Subscription>) {
    Distinct(gone) && forall b | b in gone :: b in s.bag && b.index < |s.slots|
  }

  lemma {:induction false} WithoutKeepsOthers(l: seq<Subscription>, x: Subscription, y: Subscription)
    requires y in l && y != x
    ensures y in Without(l, x)
    decreases |l|
  {
    if l[0] != x && l[0] != y { WithoutKeepsOthers(l[1..], x, y); }
    if l[0] == x { assert l == [l[0]] + l[1..]; }
  }

  lemma {:induction false} StillRemovable(s: Topic, gone: seq<Subscription>)
    requires gone != [] && Removable(s, gone)
    ensures
      var b, more := gone[|gone| - 1], gone[..|gone| - 1];
      Removable(AfterRemoval(s, b).(publisher := Remove(more)), more)
  {
    FrontOf(gone);
    var b := gone[|gone| - 1];
    forall x | x in gone[..|gone| - 1] ensures x in AfterRemoval(s, b).bag { WithoutKeepsOthers(s.bag, b, x); }
  }

  lemma {:induction false} PublisherDoesNotMatter(s: Topic, gone: seq<Subscription>, p: Publisher)
    ensures AfterRemovals(s.(publisher := p), gone).(publisher := Quiet)
            == AfterRemovals(s, gone).(publisher := Quiet)
    decreases |gone|
  {
    if gone != [] {
      var b, more := gone[|gone| - 1], gone[..|gone| - 1];
      assert AfterRemoval(s.(publisher := p), b) == AfterRemoval(s, b).(publisher := p);
      PublisherDoesNotMatter(AfterRemoval(s, b), more, p);
    }
  }

  lemma {:induction false} RemovalsAlone(r: Topic, acts: seq<Action>, s: Topic, gone: seq<Subscription>)
    returns (acts': seq<Action>)
    requires |r.ring| > 0 && Run(r, acts) == s && OnlyPublishes(acts)
    requires s.publisher == Remove(gone) && Removable(s, gone)
    ensures OnlyPublishes(acts') && Run(r, acts') == AfterRemovals(s, gone).(publisher := Quiet)
    decreases |gone|
  {
    if gone == [] {
      PublishesOn(r, acts, s, s.(publisher := Quiet));
      acts' := acts + [PublisherStep(true)];
    } else {
      var b, more := gone[|gone| - 1], gone[..|gone| - 1];
      assert b in gone;
      StillRemovable(s, gone);
      var acts1, s1 := RemovalAlone(r, acts, s, gone);
      acts' := RemovalsAlone(r, acts1, s1, more);
      PublisherDoesNotMatter(AfterRemoval(s, b), more, Remove(more));
    }
  }

  // ---- what that comes to ---------------------------------------------------------------------

  /** Entries have slots and semaphores of their own. */
  ghost predicate Apart(bag: seq<Subscription>) {
    && Distinct(bag)
    && forall a, b | a in bag && b in bag && (a.index == b.index || a.sem == b.sem) :: a == b
  }

  lemma {:induction false} FrontIsApart(bag: seq<Subscription>)
    requires bag != [] && Apart(bag)
    ensures
      var front, last := bag[..|bag| - 1], bag[|bag| - 1];
      Apart(front) && forall b | b in front :: b in bag && b.index != last.index && b.sem != last.sem
  {
    FrontOf(bag);
    assert bag[|bag| - 1] in bag;
  }

  lemma {:induction false} OtherSlots(s: Topic, done: seq<Subscription>, i: nat)
    requires i < |s.slots| && forall b | b in done :: b.index != i
    ensures |AfterEntries(s, done).slots| == |s.slots| && AfterEntries(s, done).slots[i] == s.slots[i]
    decreases |done|
  {
    if done != [] {
      assert done[|done| - 1] in done;
      OtherSlots(s, done[..|done| - 1], i);
    }
  }

  lemma {:induction false} OtherPermits(s: Topic, done: seq<Subscription>, k: nat)
    requires k < |s.permits| && forall b | b in done :: b.sem != k
    ensures |AfterEntries(s, done).permits| == |s.permits| && AfterEntries(s, done).permits[k] == s.permits[k]
    decreases |done|
  {
    if done != [] {
      assert done[|done| - 1] in done;
      OtherPermits(s, done[..|done| - 1], k);
    }
  }

  /** Each entry that is not pending removal has been announced the message, with one permit. */
  ghost predicate EntryDone(s: Topic, b: Subscription, s': Topic) {
    && b.index < |s.slots| == |s'.slots| && b.sem < |s.permits| == |s'.permits|
    && s'.slots[b.index]
       == (if IsPending(s, b) then s.slots[b.index] else Announced(s.slots[b.index], s.nextIndex))
    && s'.permits[b.sem] == s.permits[b.sem] + if IsPending(s, b) then 0 else 1
  }

  lemma {:induction false} EntriesMean(s: Topic, done: seq<Subscription>, b: Subscription)
    requires Apart(done) && InRange(s, done) && b in done
    ensures EntryDone(s, b, AfterEntries(s, done))
    decreases |done|
  {
    var front, last := done[..|done| - 1], done[|done| - 1];
    assert done == front + [last];
    FrontIsApart(done);
    EntriesKeepPending(s, front, last);
    if b == last {
      OtherSlots(s, front, b.index);
      OtherPermits(s, front, b.sem);
    } else {
      EntriesMean(s, front, b);
    }
  }

  lemma {:induction false} PendingMembers(s: Topic, done: seq<Subscription>, b: Subscription)
    ensures b in PendingOf(s, done) <==> b in done && IsPending(s, b)
    decreases |done|
  {
    if done != [] {
      PendingMembers(s, done[..|done| - 1], b);
      assert done == done[..|done| - 1] + [done[|done| - 1]];
    }
  }

  lemma {:induction false} PendingIsDistinct(s: Topic, done: seq<Subscription>)
    requires Distinct(done)
    ensures Distinct(PendingOf(s, done))
    decreases |done|
  {
    if done != [] {
      FrontOf(done);
      PendingIsDistinct(s, done[..|done| - 1]);
      PendingMembers(s, done[..|done| - 1], done[|done| - 1]);
      if IsPending(s, done[|done| - 1]) { AppendTo(PendingOf(s, done[..|done| - 1]), done[|done| - 1]); }
    }
  }

  lemma {:induction false} RemovalsOnly(s: Topic, gone: seq<Subscription>)
    ensures
      var s' := AfterRemovals(s, gone);
      s' == s.(bag := s'.bag, slots := s'.slots, free := s'.free) && |s'.slots| == |s.slots|
    decreases |gone|
  {
    if gone != [] { RemovalsOnly(AfterRemoval(s, gone[|gone| - 1]), gone[..|gone| - 1]); }
  }

  lemma RemovalMembers(s: Topic, b: Subscription)
    requires Distinct(s.bag) && b.index < |s.slots|
    ensures Distinct(AfterRemoval(s, b).bag)
    ensures forall x :: x in AfterRemoval(s, b).bag <==> x in s.bag && x != b
  {
    if b in s.bag { WithoutEntry(s.bag, b); }
  }

  lemma {:induction false} RemovalsMembers(s: Topic, gone: seq<Subscription>, x: Subscription)
    requires Distinct(s.bag) && forall b | b in gone :: b.index < |s.slots|
    ensures Distinct(AfterRemovals(s, gone).bag)
    ensures x in AfterRemovals(s, gone).bag <==> x in s.bag && x !in gone
    decreases |gone|
  {
    if gone != [] {
      var b, more := gone[|gone| - 1], gone[..|gone| - 1];
      assert gone == more + [b];
      assert b in gone && forall y | y in more :: y in gone;
      RemovalMembers(s, b);
      RemovalsMembers(AfterRemoval(s, b), more, x);
    }
  }

  lemma {:induction false} OtherSlotsStay(s: Topic, gone: seq<Subscription>, i: nat)
    requires i < |s.slots| && forall b | b in gone :: b.index != i
    ensures |AfterRemovals(s, gone).slots| == |s.slots| && AfterRemovals(s, gone).slots[i] == s.slots[i]
    decreases |gone|
  {
    if gone != [] {
      assert gone[|gone| - 1] in gone;
      OtherSlotsStay(AfterRemoval(s, gone[|gone| - 1]), gone[..|gone| - 1], i);
    }
  }

  lemma {:induction false} SlotsAreCleared(s: Topic, gone: seq<Subscription>, b: Subscription)
    requires Removable(s, gone) && Apart(gone) && b in gone
    ensures |AfterRemovals(s, gone).slots| == |s.slots|
    ensures AfterRemovals(s, gone).slots[b.index] == s.slots[b.index].(pendingRemove := false, active := false)
    decreases |gone|
  {
    var last, more := gone[|gone| - 1], gone[..|gone| - 1];
    assert last in gone;
    FrontIsApart(gone);
    StillRemovable(s, gone);
    var s1 := AfterRemoval(s, last);
    if b == last {
      OtherSlotsStay(s1, more, b.index);
    } else {
      assert gone == more + [last];
      assert Removable(s1, more);
      SlotsAreCleared(s1, more, b);
    }
  }

  lemma {:induction false} IdsComeBack(s: Topic, gone: seq<Subscription>, i: nat)
    requires Removable(s, gone)
    ensures i in AfterRemovals(s, gone).free
            <==> i in s.free || (s.code.Intended? && exists b :: b in gone && b.index == i)
    decreases |gone|
  {
    if gone != [] {
      var last, more := gone[|gone| - 1], gone[..|gone| - 1];
      assert last in gone && gone == more + [last];
      StillRemovable(s, gone);
      assert Removable(AfterRemoval(s, last), more);
      IdsComeBack(AfterRemoval(s, last), more, i);
      if exists b :: b in gone && b.index == i {
        var b :| b in gone && b.index == i;
        assert b == last || b in more;
      }
    }
  }

  // ---- the whole round ------------------------------------------------------------------------

  /** The round is over: the bag has lost exactly the entries pending removal, their slots are cleared, and as
      intended their IDs are free; every other entry has been announced the message, with one permit; nothing
      else has changed. */
  ghost predicate RoundDone(s: Topic, s': Topic) {
    && s' == s.(bag := s'.bag, slots := s'.slots, permits := s'.permits, free := s'.free, publisher := Quiet)
    && |s'.slots| == |s.slots| && |s'.permits| == |s.permits|
    && Distinct(s'.bag) && (forall b :: b in s'.bag <==> b in s.bag && !IsPending(s, b))
    && (forall b | b in s.bag ::
          && b.index < |s.slots| && b.sem < |s.permits|
          && s'.slots[b.index] == (if IsPending(s, b) then s.slots[b.index].(pendingRemove := false, active := false)
                                   else Announced(s.slots[b.index], s.nextIndex))
          && s'.permits[b.sem] == s.permits[b.sem] + (if IsPending(s, b) then 0 else 1))
    && (forall i | 0 <= i < |s.slots| && (forall b | b in s.bag :: b.index != i) :: s'.slots[i] == s.slots[i])
    && (forall k | 0 <= k < |s.permits| && (forall b | b in s.bag :: b.sem != k) :: s'.permits[k] == s.permits[k])
    && (forall i: nat :: i in s'.free
          <==> i in s.free || (s.code.Intended? && exists b :: b in s.bag && IsPending(s, b) && b.index == i))
  }

  /** The two passes as functions. */
  function AfterRound(s: Topic): Topic {
    AfterRemovals(AfterEntries(s, s.bag), PendingOf(s, s.bag)).(publisher := Quiet)
  }

  lemma PendingsAreRemovable(s: Topic)
    requires Apart(s.bag) && InRange(s, s.bag)
    ensures
      var gone := PendingOf(s, s.bag);
      Removable(AfterEntries(s, s.bag), gone) && Apart(gone) && forall b | b in gone :: b in s.bag && IsPending(s, b)
  {
    var gone := PendingOf(s, s.bag);
    PendingIsDistinct(s, s.bag);
    EntriesOnly(s, s.bag);
    forall b | b in gone ensures b in s.bag && IsPending(s, b) && b.index < |AfterEntries(s, s.bag).slots| {
      PendingMembers(s, s.bag, b);
      EntriesKeepPending(s, s.bag, b);
    }
  }

  lemma RoundEntry(s: Topic, b: Subscription)
    requires Apart(s.bag) && InRange(s, s.bag) && b in s.bag
    ensures
      var s' := AfterRound(s);
      && |s'.slots| == |s.slots| && |s'.permits| == |s.permits|
      && s'.slots[b.index] == (if IsPending(s, b) then s.slots[b.index].(pendingRemove := false, active := false)
                               else Announced(s.slots[b.index], s.nextIndex))
      && s'.permits[b.sem] == s.permits[b.sem] + if IsPending(s, b) then 0 else 1
  {
    var s1, gone := AfterEntries(s, s.bag), PendingOf(s, s.bag);
    EntriesMean(s, s.bag, b);
    PendingsAreRemovable(s);
    RemovalsOnly(s1, gone);
    PendingMembers(s, s.bag, b);
    if IsPending(s, b) {
      SlotsAreCleared(s1, gone, b);
    } else {
      OtherSlotsStay(s1, gone, b.index);
    }
  }

  lemma RoundElsewhere(s: Topic, i: nat)
    requires Apart(s.bag) && InRange(s, s.bag) && i < |s.slots| && forall b | b in s.bag :: b.index != i
    ensures |AfterRound(s).slots| == |s.slots| && AfterRound(s).slots[i] == s.slots[i]
  {
    OtherSlots(s, s.bag, i);
    PendingsAreRemovable(s);
    OtherSlotsStay(AfterEntries(s, s.bag), PendingOf(s, s.bag), i);
  }

  lemma RoundOtherPermits(s: Topic, k: nat)
    requires k < |s.permits| && forall b | b in s.bag :: b.sem != k
    ensures |AfterRound(s).permits| == |s.permits| && AfterRound(s).permits[k] == s.permits[k]
  {
    OtherPermits(s, s.bag, k);
    RemovalsOnly(AfterEntries(s, s.bag), PendingOf(s, s.bag));
  }

  lemma RoundBag(s: Topic, b: Subscription)
    requires Apart(s.bag) && InRange(s, s.bag)
    ensures Distinct(AfterRound(s).bag) && (b in AfterRound(s).bag <==> b in s.bag && !IsPending(s, b))
  {
    var s1, gone := AfterEntries(s, s.bag), PendingOf(s, s.bag);
    PendingsAreRemovable(s);
    EntriesOnly(s, s.bag);
    RemovalsMembers(s1, gone, b);
    PendingMembers(s, s.bag, b);
  }

  lemma RoundFree(s: Topic, i: nat)
    requires Apart(s.bag) && InRange(s, s.bag)
    ensures i in AfterRound(s).free
            <==> i in s.free || (s.code.Intended? && exists b :: b in s.bag && IsPending(s, b) && b.index == i)
  {
    var s1, gone := AfterEntries(s, s.bag), PendingOf(s, s.bag);
    PendingsAreRemovable(s);
    EntriesOnly(s, s.bag);
    IdsComeBack(s1, gone, i);
    if exists b :: b in s.bag && IsPending(s, b) && b.index == i {
      var b :| b in s.bag && IsPending(s, b) && b.index == i;
      PendingMembers(s, s.bag, b);
    }
  }

  lemma RoundIsDone(s: Topic)
    requires Apart(s.bag) && InRange(s, s.bag)
    ensures RoundDone(s, AfterRound(s))
  {
    EntriesOnly(s, s.bag);
    EntriesKeepPending(s, s.bag, Subscription(0, 0));
    RemovalsOnly(AfterEntries(s, s.bag), PendingOf(s, s.bag));
    RoundBag(s, Subscription(0, 0));
    forall b ensures b in AfterRound(s).bag <==> b in s.bag && !IsPending(s, b) { RoundBag(s, b); }
    forall b | b in s.bag
      ensures AfterRound(s).slots[b.index]
              == (if IsPending(s, b) then s.slots[b.index].(pendingRemove := false, active := false)
                  else Announced(s.slots[b.index], s.nextIndex))
      ensures AfterRound(s).permits[b.sem] == s.permits[b.sem] + (if IsPending(s, b) then 0 else 1)
    {
      RoundEntry(s, b);
    }
    forall i | 0 <= i < |s.slots| && (forall b | b in s.bag :: b.index != i)
      ensures AfterRound(s).slots[i] == s.slots[i]
    {
      RoundElsewhere(s, i);
    }
    forall k | 0 <= k < |s.permits| && (forall b | b in s.bag :: b.sem != k)
      ensures AfterRound(s).permits[k] == s.permits[k]
    {
      RoundOtherPermits(s, k);
    }
    forall i: nat ensures i in AfterRound(s).free
      <==> i in s.free || (s.code.Intended? && exists b :: b in s.bag && IsPending(s, b) && b.index == i)
    {
      RoundFree(s, i);
    }
  }

  lemma BagIsApart(s: Topic, v: View)
    requires Frame(s, v)
    ensures Apart(s.bag) && InRange(s, s.bag)
  {
    forall a, b | a in s.bag && b in s.bag && (a.index == b.index || a.sem == b.sem) ensures a == b {
      assert v.owner[a.index] == Of(a.sem) && v.owner[b.index] == Of(b.sem);
    }
  }

  lemma {:induction false} IterationBegins(s: Topic)
    requires |s.ring| > 0 && s.publisher.Begin?
    ensures OnlyPublishes([PublisherStep(true)])
    ensures Run(s, [PublisherStep(true)]) == Iterated(s, s.bag[..0], s.bag[0..])
  {
    PublishesOn(s, [], s, s.(publisher := Continue(s.bag, [])));
    assert s.bag[..0] == [] && s.bag[0..] == s.bag && [] + [PublisherStep(true)] == [PublisherStep(true)];
  }

  lemma {:induction false} IterationOfAll(s: Topic) returns (acts: seq<Action>)
    requires |s.ring| > 0 && s.publisher.Begin? && InRange(s, s.bag)
    ensures OnlyPublishes(acts)
    ensures Run(s, acts) == AfterEntries(s, s.bag).(publisher := Remove(PendingOf(s, s.bag)))
  {
    IterationBegins(s);
    var s';
    acts, s' := IterationAlone(s, [PublisherStep(true)], s, s.bag, 0, Iterated(s, s.bag[..0], s.bag[0..]));
  }

  lemma {:induction false} NotifyAllRuns(s: Topic) returns (acts: seq<Action>)
    requires |s.ring| > 0 && s.publisher.Begin? && Apart(s.bag) && InRange(s, s.bag)
    ensures OnlyPublishes(acts) && Run(s, acts) == AfterRound(s)
  {
    var acts1 := IterationOfAll(s);
    PendingsAreRemovable(s);
    var gone, s2 := PendingOf(s, s.bag), AfterEntries(s, s.bag);
    assert Removable(s2.(publisher := Remove(gone)), gone);
    acts := RemovalsAlone(s, acts1, s2.(publisher := Remove(gone)), gone);
    PublisherDoesNotMatter(s2, gone, Remove(gone));
  }

  /** A round of `NotifyAll` from any reachable state, for a bag of any length, with nobody else running and
      every remove finding its entry. */
  lemma {:induction false} NotifyAllAlone(capacity: nat, code: Code, before: seq<Action>) returns (acts: seq<Action>)
    requires capacity > 0 && Reached(capacity, code, before).publisher.Begin?
    ensures OnlyPublishes(acts) && |Reached(capacity, code, before).ring| > 0
    ensures RoundDone(Reached(capacity, code, before), Run(Reached(capacity, code, before), acts))
  {
    RunKeepsInv(capacity, code, before);
    BagIsApart(Reached(capacity, code, before), ReachedView(capacity, code, before));
    acts := NotifyAllRuns(Reached(capacity, code, before));
    RoundIsDone(Reached(capacity, code, before));
  }

  // ---- the other operations alone -------------------------------------------------------------

  lemma {:induction false} RunBoth(s: Topic, a: seq<Action>, b: seq<Action>)
    requires |s.ring| > 0
    ensures Run(s, a + b) == Run(Run(s, a), b)
  {
    RunConcat(s, InitView(), a, b);
  }

  /** The message goes into its ring entry and the index moves on. */
  function Stored(s: Topic): Topic
    requires |s.ring| > 0
  {
    s.(ring := s.ring[s.nextIndex % |s.ring| := s.nextIndex], nextIndex := s.nextIndex + 1, publisher := Begin)
  }

  lemma {:induction false} StoreAlone(s: Topic)
    requires |s.ring| > 0 && s.publisher.Quiet? && s.nextIndex + 2 < WORD
    ensures Run(s, [Publish] + [PublisherStep(true)]) == Stored(s)
  {
    var s0 := s.(ring := s.ring[s.nextIndex % |s.ring| := s.nextIndex], publisher := Bump);
    assert Step(s, Publish) == s0 && Step(s0, PublisherStep(true)) == Stored(s);
    RunsOn(s, [], Publish);
    assert [] + [Publish] == [Publish];
    RunsOn(s, [Publish], PublisherStep(true));
  }

  /** Publishing alone: the message is stored, and the round announces it. */
  lemma {:induction false} PublishAlone(s: Topic) returns (acts: seq<Action>)
    requires |s.ring| > 0 && s.publisher.Quiet? && s.nextIndex + 2 < WORD && Apart(s.bag) && InRange(s, s.bag)
    ensures OnlyPublishes(acts) && RoundDone(Stored(s), Run(s, [Publish] + [PublisherStep(true)] + acts))
  {
    StoreAlone(s);
    acts := NotifyAllRuns(Stored(s));
    RoundIsDone(Stored(s));
    RunBoth(s, [Publish] + [PublisherStep(true)], acts);
  }

  predicate OnlyDispatches(acts: seq<Action>) {
    forall a | a in acts :: a == DispatcherStep(false)
  }

  lemma {:induction false} DispatchesOn(r: Topic, acts: seq<Action>, s: Topic, s': Topic)
    requires |r.ring| > 0 && Run(r, acts) == s && OnlyDispatches(acts) && DispatcherAction(s, false) == s'
    ensures Run(r, acts + [DispatcherStep(false)]) == s' && OnlyDispatches(acts + [DispatcherStep(false)])
  {
    RunsOn(r, acts, DispatcherStep(false));
  }

  /** The client of a new subscription. */
  function NewClient(i: nat, pid: nat, open: bool): Client {
    Client(i, pid, open, false, None, Resting, [])
  }

  /** What the four stores of `Reset` leave of a slot. */
  function ResetSlot(d: Slot, pid: nat): Slot {
    Slot(d.nextIndex, 0, false, true, pid)
  }

  /** What `Subscribe` leaves: the ID is rented, its slot is reset, and there is a new semaphore without
      permits, whose entry is in front of the bag. */
  function Subscribed(s: Topic, i: nat, pid: nat): Topic
    requires i < |s.slots|
  {
    s.(free := s.free - {i}, slots := s.slots[i := ResetSlot(s.slots[i], pid)],
       permits := s.permits + [0], clients := s.clients + [NewClient(i, pid, true)],
       bag := [Subscription(|s.permits|, i)] + s.bag)
  }

  lemma {:induction false} ResetAlone(s: Topic, i: nat, pid: nat) returns (acts: seq<Action>)
    requires |s.ring| > 0 && s.dispatcher == Reset(i, pid, 0) && i < |s.slots|
    ensures OnlyDispatches(acts)
    ensures Run(s, acts) == s.(slots := s.slots[i := ResetSlot(s.slots[i], pid)], dispatcher := Create(i, pid))
  {
    var go := DispatcherStep(false);
    var s1 := SetSlot(s, i, s.slots[i].(pid := pid)).(dispatcher := Reset(i, pid, 1));
    var s2 := SetSlot(s1, i, s1.slots[i].(notified := 0)).(dispatcher := Reset(i, pid, 2));
    var s3 := SetSlot(s2, i, s2.slots[i].(active := true)).(dispatcher := Reset(i, pid, 3));
    var s4 := s.(slots := s.slots[i := ResetSlot(s.slots[i], pid)], dispatcher := Create(i, pid));
    DispatchesOn(s, [], s, s1);
    DispatchesOn(s, [] + [go], s1, s2);
    DispatchesOn(s, [] + [go] + [go], s2, s3);
    DispatchesOn(s, [] + [go] + [go] + [go], s3, s4);
    acts := [] + [go] + [go] + [go] + [go];
  }

  lemma {:induction false} PushAlone(s: Topic, i: nat, pid: nat) returns (acts: seq<Action>)
    requires |s.ring| > 0 && s.dispatcher == Create(i, pid) && |s.permits| == |s.clients|
    ensures OnlyDispatches(acts)
    ensures Run(s, acts) == s.(permits := s.permits + [0], clients := s.clients + [NewClient(i, pid, true)],
                               bag := [Subscription(|s.permits|, i)] + s.bag, dispatcher := Waiting)
  {
    var s1 := s.(permits := s.permits + [0], clients := s.clients + [NewClient(i, pid, false)],
                 dispatcher := Push(Subscription(|s.permits|, i)));
    DispatchesOn(s, [], s, s1);
    var s2 := s.(permits := s.permits + [0], clients := s.clients + [NewClient(i, pid, true)],
                 bag := [Subscription(|s.permits|, i)] + s.bag, dispatcher := Waiting);
    assert DispatcherAction(s1, false) == s2 by {
      assert s1.clients[|s.permits| := NewClient(i, pid, true)] == s.clients + [NewClient(i, pid, true)];
    }
    DispatchesOn(s, [] + [DispatcherStep(false)], s1, s2);
    acts := [] + [DispatcherStep(false)] + [DispatcherStep(false)];
  }

  /** `Subscribe` alone, for any process, slot and bag. */
  lemma {:induction false} SubscribeAlone(s: Topic, i: nat, pid: nat) returns (acts: seq<Action>)
    requires |s.ring| > 0 && s.dispatcher.Waiting? && i in s.free && i < |s.slots| && |s.permits| == |s.clients|
    ensures OnlyDispatches(acts) && Run(s, [Subscribe(i, pid)] + acts) == Subscribed(s, i, pid)
  {
    var s1 := s.(free := s.free - {i}, dispatcher := Reset(i, pid, 0));
    assert Step(s, Subscribe(i, pid)) == s1;
    RunsOn(s, [], Subscribe(i, pid));
    assert [] + [Subscribe(i, pid)] == [Subscribe(i, pid)];
    var acts1 := ResetAlone(s1, i, pid);
    var s2 := Run(s1, acts1);
    var acts2 := PushAlone(s2, i, pid);
    RunBoth(s1, acts1, acts2);
    acts := acts1 + acts2;
    RunBoth(s, [Subscribe(i, pid)], acts);
  }
}
