/** A topic that goes on after its server restarts: the scan of the module Recovery, seen from the machine
    of the module TopicService. */
module Restart {
  import opened Operations
  import opened Options
  import opened Recovery
  import opened TopicService

  // ---- the restart ----------------------------------------------------------------------------

  /** Whether slot `i` survives. */
  predicate Stays(slots: seq<Slot>, alive: seq<bool>, i: nat) {
    i < |slots| && i < |alive| && Survives(slots[i], alive[i])
  }

  /** The entry the scan rebuilds for a slot that survives: the subscription it is the slot of, whose
      semaphore is found again by its name. */
  predicate Belongs(slots: seq<Slot>, owner: seq<Owner>, alive: seq<bool>, n: nat, b: Subscription) {
    b.index < n && Stays(slots, alive, b.index) && b.index < |owner| && owner[b.index] == Of(b.sem)
  }

  /** The bag holds these entries once each. */
  ghost predicate Rebuilds(bag: seq<Subscription>, slots: seq<Slot>, owner: seq<Owner>, alive: seq<bool>, n: nat) {
    Distinct(bag) && forall b :: b in bag <==> Belongs(slots, owner, alive, n, b)
  }

  /** The IDs that the scan does not rent. */
  function NotRented(slots: seq<Slot>, alive: seq<bool>): set<nat> {
    set i | 0 <= i < |slots| && !Stays(slots, alive, i)
  }

  /** What `Recover` leaves of a topic that was stopped between two messages and two requests, with this
      bag. */
  function Restarted(s: Topic, alive: seq<bool>, bag: seq<Subscription>): Topic
    requires |s.slots| == |alive|
  {
    s.(free := NotRented(s.slots, alive), bag := bag,
       slots := seq(|s.slots|, i requires 0 <= i < |s.slots| => Cleaned(s.slots[i], alive[i])))
  }

  /** A subscription that is dropped is gone, and its slot is in the pool, as is every lost one. */
  function RestartedView(s: Topic, v: View, alive: seq<bool>): View
    requires |s.clients| == |v.phase|
  {
    v.(phase := seq(|v.phase|, k requires 0 <= k < |v.phase| =>
                      if v.phase[k].Live? && !Stays(s.slots, alive, s.clients[k].index) then Gone else v.phase[k]),
       owner := seq(|v.owner|, i requires 0 <= i < |v.owner| =>
                      if Stays(s.slots, alive, i) then v.owner[i] else InPool))
  }

  /** The server stops between two messages and two requests, and a process that has ended has no
      subscription open. */
  ghost predicate CanStop(s: Topic, alive: seq<bool>) {
    && s.publisher.Quiet? && s.dispatcher.Waiting? && |s.slots| == |alive| == SLOTS
    && forall k | 0 <= k < |s.clients| && s.clients[k].index < SLOTS && !alive[s.clients[k].index] ::
         !s.clients[k].open && !s.clients[k].asked
  }

  /** A slot that survives belongs to a live subscription. */
  lemma {:induction false} StayingIsLive(s: Topic, v: View, alive: seq<bool>, i: nat)
    requires Frame(s, v) && Dormant(s, v) && CanStop(s, alive) && Stays(s.slots, alive, i)
    ensures v.owner[i].Of? && v.owner[i].sem < |s.clients| && s.clients[v.owner[i].sem].index == i
    ensures v.phase[v.owner[i].sem] == Live
  {
    assert v.owner[i] != Renting;
    assert v.owner[i].Of?;
  }

  lemma {:induction false} NextRebuilds(
    bag: seq<Subscription>, slots: seq<Slot>, owner: seq<Owner>, alive: seq<bool>, n: nat)
    requires Rebuilds(bag, slots, owner, alive, n) && n < |owner| && owner[n].Of? && Stays(slots, alive, n)
    ensures Rebuilds([Subscription(owner[n].sem, n)] + bag, slots, owner, alive, n + 1)
  {
    PrependTo(bag, Subscription(owner[n].sem, n));
  }

  /** There is such a bag. */
  lemma {:induction false} RebuiltBag(slots: seq<Slot>, owner: seq<Owner>, alive: seq<bool>, n: nat)
    returns (bag: seq<Subscription>)
    requires n <= |slots| == |owner| && forall i | 0 <= i < |slots| && Stays(slots, alive, i) :: owner[i].Of?
    ensures Rebuilds(bag, slots, owner, alive, n)
  {
    if n == 0 {
      bag := [];
    } else {
      bag := RebuiltBag(slots, owner, alive, n - 1);
      if Stays(slots, alive, n - 1) {
        NextRebuilds(bag, slots, owner, alive, n - 1);
        bag := [Subscription(owner[n - 1].sem, n - 1)] + bag;
      }
    }
  }

  // ---- the invariant after it -----------------------------------------------------------------

  lemma {:induction false} RestartKeepsOwned(s: Topic, v: View, alive: seq<bool>, bag: seq<Subscription>)
    requires Frame(s, v) && Dormant(s, v) && CanStop(s, alive)
    ensures Shape(Restarted(s, alive, bag), RestartedView(s, v, alive))
    ensures Owned(Restarted(s, alive, bag), RestartedView(s, v, alive))
  {
    forall i | 0 <= i < SLOTS && Stays(s.slots, alive, i) ensures v.owner[i].Of? { StayingIsLive(s, v, alive, i); }
  }

  lemma {:induction false} RestartKeepsPhased(s: Topic, v: View, alive: seq<bool>, bag: seq<Subscription>)
    requires Frame(s, v) && CanStop(s, alive)
    ensures Shape(Restarted(s, alive, bag), RestartedView(s, v, alive))
    ensures Phased(Restarted(s, alive, bag), RestartedView(s, v, alive))
  {
  }

  lemma {:induction false} RestartKeepsListed(s: Topic, v: View, alive: seq<bool>, bag: seq<Subscription>)
    requires Frame(s, v) && Dormant(s, v) && CanStop(s, alive) && Rebuilds(bag, s.slots, v.owner, alive, SLOTS)
    requires Shape(Restarted(s, alive, bag), RestartedView(s, v, alive))
    ensures Listed(Restarted(s, alive, bag), RestartedView(s, v, alive))
  {
    var s', v' := Restarted(s, alive, bag), RestartedView(s, v, alive);
    forall b | b in s'.bag ensures b.sem < |s.clients| && b == SubOf(s', b.sem) && v'.phase[b.sem] == Live {
      StayingIsLive(s, v, alive, b.index);
    }
    forall k | 0 <= k < |s.clients| && v'.phase[k] == Live ensures SubOf(s', k) in s'.bag {
      assert Belongs(s.slots, v.owner, alive, SLOTS, SubOf(s, k));
    }
  }

  lemma {:induction false} RestartKeepsKept(s: Topic, v: View, alive: seq<bool>, bag: seq<Subscription>, k: nat)
    requires Inv(s, v) && CanStop(s, alive) && k < |s.clients|
    requires Frame(Restarted(s, alive, bag), RestartedView(s, v, alive))
    ensures KeptOf(Restarted(s, alive, bag), RestartedView(s, v, alive), k)
  {
    assert KeptOf(s, v, k);
  }

  /** The restart keeps the invariant of the running topic. */
  lemma {:induction false} RestartKeepsInv(s: Topic, v: View, alive: seq<bool>, bag: seq<Subscription>)
    requires Inv(s, v) && Dormant(s, v) && CanStop(s, alive) && Rebuilds(bag, s.slots, v.owner, alive, SLOTS)
    ensures Inv(Restarted(s, alive, bag), RestartedView(s, v, alive))
  {
    RestartKeepsOwned(s, v, alive, bag);
    RestartKeepsPhased(s, v, alive, bag);
    RestartKeepsListed(s, v, alive, bag);
    forall k | 0 <= k < |s.clients| ensures KeptOf(Restarted(s, alive, bag), RestartedView(s, v, alive), k) {
      RestartKeepsKept(s, v, alive, bag, k);
    }
  }

  // ---- across a restart -----------------------------------------------------------------------

  /** The topic restarted after a run, in the order in which its bag came out. */
  ghost predicate RestartsAs(capacity: nat, code: Code, before: seq<Action>, alive: seq<bool>, s: Topic, v: View)
    requires capacity > 0
  {
    var s0, v0 := Reached(capacity, code, before), ReachedView(capacity, code, before);
    && CanStop(s0, alive) && |s0.clients| == |v0.phase|
    && Rebuilds(s.bag, s0.slots, v0.owner, alive, SLOTS)
    && s == Restarted(s0, alive, s.bag) && v == RestartedView(s0, v0, alive)
  }

  /** It can be restarted wherever it can stop. */
  lemma {:induction false} CanRestart(
    capacity: nat, code: Code, before: seq<Action>, alive: seq<bool>) returns (s: Topic, v: View)
    requires capacity > 0 && CanStop(Reached(capacity, code, before), alive)
    ensures RestartsAs(capacity, code, before, alive, s, v)
  {
    RunKeepsInv(capacity, code, before);
    RunKeepsDormant(capacity, code, before);
    var s0, v0 := Reached(capacity, code, before), ReachedView(capacity, code, before);
    forall i | 0 <= i < SLOTS && Stays(s0.slots, alive, i) ensures v0.owner[i].Of? {
      StayingIsLive(s0, v0, alive, i);
    }
    var bag := RebuiltBag(s0.slots, v0.owner, alive, SLOTS);
    s, v := Restarted(s0, alive, bag), RestartedView(s0, v0, alive);
  }

  lemma {:induction false} RestartedKeepsInv(
    capacity: nat, code: Code, before: seq<Action>, alive: seq<bool>, s: Topic, v: View)
    requires capacity > 0 && RestartsAs(capacity, code, before, alive, s, v)
    ensures Inv(s, v)
  {
    RunKeepsInv(capacity, code, before);
    RunKeepsDormant(capacity, code, before);
    RestartKeepsInv(Reached(capacity, code, before), ReachedView(capacity, code, before), alive, s.bag);
  }

  /** A subscription has had one permit for every message published since the first it was due. */
  ghost predicate UpToDate(s: Topic, k: nat, due: nat) {
    && k < |s.clients| == |s.permits|
    && var c := s.clients[k];
       && (s.publisher.Quiet? && c.open ==>
             s.permits[k] + |c.log| + (if c.point.Resting? then 0 else 1) == s.nextIndex - due)
       && forall j | 0 <= j < |c.log| :: c.log[j].index == due + j
  }

  lemma EnteredIsUpToDate(s: Topic, v: View, k: nat, due: nat)
    requires Inv(s, v) && Entered(s, v, k, due)
    ensures UpToDate(s, k, due)
  {
    assert KeptOf(s, v, k) && Served(s.clients[k], s.permits[k], v.granted[k], v.start[k]);
  }

  lemma {:induction false} SurvivorsEntered(
    capacity: nat, code: Code, before: seq<Action>, alive: seq<bool>, s: Topic, v: View, k: nat)
    requires capacity > 0 && RestartsAs(capacity, code, before, alive, s, v)
    requires
      var s0 := Reached(capacity, code, before);
      k < |s0.clients| && s0.clients[k].open && Stays(s0.slots, alive, s0.clients[k].index)
    ensures k < |ReachedView(capacity, code, before).due|
    ensures Entered(s, v, k, ReachedView(capacity, code, before).due[k])
  {
    RunKeepsInv(capacity, code, before);
    assert KeptOf(Reached(capacity, code, before), ReachedView(capacity, code, before), k);
  }

  /** Nothing is lost over a restart.  Take any run that ends where the server can stop, and any
      continuation of the restarted topic: at its end, between publications, a subscription that survived
      and is still open has had exactly one permit for every message published since the first it was due,
      before the restart and after, and its reads go on with the next index. */
  lemma {:induction false} NothingIsLostOverARestart(capacity: nat, code: Code, before: seq<Action>, alive: seq<bool>,
                                  s: Topic, v: View, after: seq<Action>, k: nat)
    requires capacity > 0 && RestartsAs(capacity, code, before, alive, s, v)
    requires
      var s0 := Reached(capacity, code, before);
      k < |s0.clients| && s0.clients[k].open && Stays(s0.slots, alive, s0.clients[k].index)
    ensures
      var due := ReachedView(capacity, code, before).due;
      k < |due| && |s.ring| > 0 && UpToDate(Run(s, after), k, due[k])
  {
    RestartedKeepsInv(capacity, code, before, alive, s, v);
    SurvivorsEntered(capacity, code, before, alive, s, v, k);
    var due := ReachedView(capacity, code, before).due;
    EnteredSince(s, v, after, k, due[k]);
    EnteredIsUpToDate(Run(s, after), ViewRun(s, v, after), k, due[k]);
  }

  // ---- IDs after a restart --------------------------------------------------------------------

  lemma {:induction false} RestartedOwners(
    capacity: nat, code: Code, before: seq<Action>, alive: seq<bool>, s: Topic, v: View)
    requires capacity > 0 && RestartsAs(capacity, code, before, alive, s, v)
    ensures forall i | 0 <= i < |v.owner| :: v.owner[i].InPool? || v.owner[i].Of?
  {
    RunKeepsInv(capacity, code, before);
    RunKeepsDormant(capacity, code, before);
    var s0, v0 := Reached(capacity, code, before), ReachedView(capacity, code, before);
    forall i | 0 <= i < |v.owner| ensures v.owner[i].InPool? || v.owner[i].Of? {
      if Stays(s0.slots, alive, i) { StayingIsLive(s0, v0, alive, i); }
    }
  }

  /** With nothing in hand, an ID is free or that of an entry of the bag. */
  lemma FreeOrUsed(s: Topic, v: View, used: set<nat>, i: nat)
    requires Frame(s, v) && s.publisher.Quiet? && s.dispatcher.Waiting? && i < SLOTS
    requires forall i :: i in used <==> exists b :: b in s.bag && b.index == i
    requires v.owner[i].InPool? || v.owner[i].Of?
    ensures i in s.free <==> i !in used
  {
    if v.owner[i].Of? {
      assert v.phase[v.owner[i].sem] == Live && SubOf(s, v.owner[i].sem) in s.bag;
    } else {
      forall b | b in s.bag ensures b.index != i { assert v.owner[b.index] == Of(b.sem); }
    }
  }

  lemma TwoParts(a: set<nat>, b: set<nat>, n: nat)
    requires forall i: nat :: i < n ==> (i in a <==> i !in b)
    requires forall i | i in a || i in b :: i < n
    ensures |a| + |b| == n
  {
    assert a !! b && a + b == Ids(n);
  }

  lemma FreeAndUsed(s: Topic, v: View)
    requires Frame(s, v) && s.publisher.Quiet? && s.dispatcher.Waiting?
    requires forall i | 0 <= i < |v.owner| :: v.owner[i].InPool? || v.owner[i].Of?
    ensures |s.free| + |s.bag| == SLOTS
  {
    forall b | b in s.bag ensures v.owner[b.index] == Of(b.sem) && b.index < SLOTS { }
    var used := SlotsOf(s.bag);
    forall i: nat | i < SLOTS ensures i in s.free <==> i !in used { FreeOrUsed(s, v, used, i); }
    TwoParts(s.free, used, SLOTS);
  }

  /** The IDs the written code has lost come back: after a restart every ID is free that no surviving
      subscription has. */
  lemma {:induction false} RestartFindsLostIds(
    capacity: nat, code: Code, before: seq<Action>, alive: seq<bool>, s: Topic, v: View)
    requires capacity > 0 && RestartsAs(capacity, code, before, alive, s, v)
    ensures |s.free| + |s.bag| == SLOTS
  {
    RestartedKeepsInv(capacity, code, before, alive, s, v);
    RestartedOwners(capacity, code, before, alive, s, v);
    FreeAndUsed(s, v);
  }
}
