/** What the operations of a topic get done: reading, unsubscribing, removing and announcing, in every
    interleaving, and each of them alone. */
module Operations {
  import opened Chains
  import opened Cursors
  import opened Options
  import opened TopicService

  // ---- reading --------------------------------------------------------------------------------

  /** How many steps of its own a client needs to finish the read under way. */
  function StepsToRead(p: Reading): nat {
    match p
    case FirstLoad => 3
    case Trying(_) => 2
    case Reading => 1
    case _ => 0
  }

  /** A client with a permit spends exactly one to begin a read; without one, or not open, or in the middle of
      a read, nothing moves. */
  lemma AcquireSpendsOne(s: Topic, v: View, k: nat)
    requires Inv(s, v) && k < |s.clients|
    ensures
      var c, s' := s.clients[k], Step(s, Acquire(k));
      if c.open && c.point.Resting? && s.permits[k] > 0
      then && s' == s.(permits := s.permits[k := s.permits[k] - 1],
                       clients := s.clients[k := c.(point := s'.clients[k].point)])
           && StepsToRead(s'.clients[k].point) == if c.log == [] then 3 else 2
      else s' == s
  {
    assert Served(s.clients[k], s.permits[k], v.granted[k], v.start[k]);
  }

  /** What another action leaves of a client that is reading. */
  lemma OthersLetRead(s: Topic, a: Action, k: nat)
    requires |s.ring| > 0 && k < |s.clients| && StepsToRead(s.clients[k].point) > 0
    requires a != ClientStep(k)
    ensures
      var s' := Step(s, a);
      && k < |s'.clients| && s'.clients[k].point == s.clients[k].point && s'.clients[k].log == s.clients[k].log
  {
    match a {
      case PublisherStep(choice) => PublisherLeavesClients(s, choice);
      case DispatcherStep(spurious) =>
      case _ =>
    }
  }

  lemma PublisherLeavesClients(s: Topic, choice: bool)
    ensures PublisherAction(s, choice).clients == s.clients
  {
    match s.publisher {
      case Remove(_) =>
      case GiveBack(_, _, _) =>
      case _ =>
    }
  }

  /** The read that a client is about to log: the next message it is due, and the message itself if fewer than
      `capacity` have been published from it on. */
  ghost predicate IsNextRead(x: Read, s: Topic, due: nat, logged: nat) {
    x.index == due + logged && (s.nextIndex - x.index < |s.ring| ==> x.found == x.index)
  }

  /** Its own step brings a reading client one nearer to its end, and the last one logs the read. */
  lemma OwnStepReads(s: Topic, v: View, k: nat)
    requires Inv(s, v) && k < |s.clients| && StepsToRead(s.clients[k].point) > 0
    ensures
      var c, s' := s.clients[k], Step(s, ClientStep(k));
      && k < |s'.clients| && s' == s.(clients := s.clients[k := s'.clients[k]])
      && var c' := s'.clients[k];
         && StepsToRead(c'.point) == StepsToRead(c.point) - 1
         && (if StepsToRead(c.point) > 1 then c'.log == c.log
             else && c'.point.Resting? && |c'.log| == |c.log| + 1 && c'.log[..|c.log|] == c.log
                  && IsNextRead(c'.log[|c.log|], s, v.due[k], |c.log|)
                  && (c'.log[|c.log|].intact <==> s.nextIndex - c'.log[|c.log|].index < |s.ring|))
  {
    var c := s.clients[k];
    assert Served(c, s.permits[k], v.granted[k], v.start[k]) && KeptOf(s, v, k);
    PermitIsBacked(s, v, k);
    CursorCounts(v.start[k], |c.log|, s.nextIndex);
  }

  /** How many of the actions are the client's own steps. */
  function OwnSteps(acts: seq<Action>, k: nat): nat
    decreases |acts|
  {
    if acts == [] then 0
    else OwnSteps(acts[..|acts| - 1], k) + if acts[|acts| - 1] == ClientStep(k) then 1 else 0
  }

  /** A client that was at `c` when its read began, after this many steps of its own. */
  ghost predicate ReadingOn(s: Topic, c: Client, k: nat, due: nat, own: nat) {
    && k < |s.clients|
    && var c', n := s.clients[k], StepsToRead(c.point);
       if own < n then StepsToRead(c'.point) == n - own && c'.log == c.log
       else && c'.point.Resting? && |c'.log| == |c.log| + 1 && c'.log[..|c.log|] == c.log
            && IsNextRead(c'.log[|c.log|], s, due, |c.log|)
  }

  lemma NextIndexGrows(s: Topic, a: Action)
    requires |s.ring| > 0
    ensures Step(s, a).nextIndex >= s.nextIndex && |Step(s, a).ring| == |s.ring|
  {
    match a {
      case PublisherStep(choice) => PublisherGrows(s, choice);
      case DispatcherStep(_) =>
      case _ =>
    }
  }

  lemma PublisherGrows(s: Topic, choice: bool)
    ensures PublisherAction(s, choice).nextIndex >= s.nextIndex && PublisherAction(s, choice).ring == s.ring
  {
    match s.publisher {
      case Remove(_) =>
      case GiveBack(_, _, _) =>
      case _ =>
    }
  }

  /** A client that rests only begins to read by acquiring a permit. */
  lemma RestingStays(s: Topic, a: Action, k: nat)
    requires |s.ring| > 0 && k < |s.clients| && s.clients[k].point.Resting? && a != Acquire(k)
    ensures
      var s' := Step(s, a);
      && k < |s'.clients| && s'.clients[k].point.Resting? && s'.clients[k].log == s.clients[k].log
  {
    match a {
      case PublisherStep(choice) => PublisherLeavesClients(s, choice);
      case DispatcherStep(spurious) =>
      case _ =>
    }
  }

  lemma ReadingStep(s: Topic, v: View, a: Action, c: Client, k: nat, due: nat, own: nat)
    requires Inv(s, v) && k < |v.due| && v.due[k] == due && ReadingOn(s, c, k, due, own) && a != Acquire(k)
    ensures ReadingOn(Step(s, a), c, k, due, own + if a == ClientStep(k) then 1 else 0)
  {
    NextIndexGrows(s, a);
    if own >= StepsToRead(c.point) {
      RestingStays(s, a, k);
    } else if a == ClientStep(k) {
      OwnStepReads(s, v, k);
    } else {
      OthersLetRead(s, a, k);
    }
  }

  lemma {:induction false} ReadingGoesOn(s: Topic, v: View, acts: seq<Action>, k: nat, due: nat)
    requires Inv(s, v) && Entered(s, v, k, due) && StepsToRead(s.clients[k].point) > 0 && Acquire(k) !in acts
    ensures ReadingOn(Run(s, acts), s.clients[k], k, due, OwnSteps(acts, k))
    decreases |acts|
  {
    if acts != [] {
      var before, a := acts[..|acts| - 1], acts[|acts| - 1];
      assert a in acts;
      ReadingGoesOn(s, v, before, k, due);
      EnteredSince(s, v, before, k, due);
      ReadingStep(Run(s, before), ViewRun(s, v, before), a, s.clients[k], k, due, OwnSteps(before, k));
    }
  }

  /** `Read` never waits with a permit there, and never fails.  From every reachable state: an open, resting
      client with a permit spends one, and then, as soon as it has made its own steps, two with a cursor and
      three without, whatever the others have done between them, it rests again and has logged exactly one
      more read: the next message it is due, found in the ring if fewer than `capacity` followed. */
  lemma {:induction false} PermitIsRead(capacity: nat, code: Code, before: seq<Action>, k: nat, acts: seq<Action>)
    requires capacity > 0 && k < |Reached(capacity, code, before).clients|
    requires
      var s := Reached(capacity, code, before);
      && |s.permits| == |s.clients| && s.clients[k].open && s.clients[k].point.Resting? && s.permits[k] > 0
    requires Acquire(k) !in acts
    requires OwnSteps(acts, k) >= if Reached(capacity, code, before).clients[k].log == [] then 3 else 2
    ensures
      var s, v := Reached(capacity, code, before), ReachedView(capacity, code, before);
      && |v.due| == |s.clients| && |Step(s, Acquire(k)).ring| == |s.ring| > 0
      && Step(s, Acquire(k)).permits == s.permits[k := s.permits[k] - 1]
      && var s' := Run(Step(s, Acquire(k)), acts);
         && k < |s'.clients|
         && var log, log' := s.clients[k].log, s'.clients[k].log;
            && s'.clients[k].point.Resting? && |log'| == |log| + 1 && log'[..|log|] == log
            && IsNextRead(log'[|log|], s', v.due[k], |log|)
  {
    RunKeepsInv(capacity, code, before);
    var s, v := Reached(capacity, code, before), ReachedView(capacity, code, before);
    AcquireSpendsOne(s, v, k);
    AcquireKeepsInv(s, v, k);
    assert KeptOf(s, v, k);
    ReadingGoesOn(Step(s, Acquire(k)), v, acts, k, v.due[k]);
  }

  // ---- unsubscribing --------------------------------------------------------------------------

  lemma {:induction false} RunsOn(s: Topic, acts: seq<Action>, a: Action)
    requires |s.ring| > 0
    ensures Run(s, acts + [a]) == Step(Run(s, acts), a)
  {
    assert (acts + [a])[..|acts|] == acts;
  }

  /** `Unsubscribe` alone, in any state and for any process: if the process of the request is that of the slot
      it marks that slot, and changes no other; if not, or if the exchange fails spuriously, it changes none.
      The request is spent. */
  lemma {:induction false} UnsubscribeAlone(s: Topic, k: nat, spurious: bool)
    requires |s.ring| > 0 && s.dispatcher.Waiting? && k < |s.clients| && s.clients[k].asked
    requires s.clients[k].index < |s.slots|
    ensures
      var c := s.clients[k];
      var s' := Run(s, [Unsubscribe(k)] + [DispatcherStep(false)] + [DispatcherStep(spurious)]);
      var d := s.slots[c.index];
      && s' == s.(slots := s'.slots, clients := s.clients[k := c.(asked := false)])
      && s'.slots == if d.pid == c.pid && !spurious then s.slots[c.index := d.(pendingRemove := true)] else s.slots
  {
    var a, b := Unsubscribe(k), DispatcherStep(false);
    RunsOn(s, [a] + [b], DispatcherStep(spurious));
    RunsOn(s, [a], b);
    RunsOn(s, [], a);
    assert [] + [a] == [a];
    var s1 := s.(clients := s.clients[k := s.clients[k].(asked := false)], dispatcher := MatchPid(k));
    assert Step(s, a) == s1;
  }

  /** Leaving alone, in any state: a client that rests closes, its request is sent and served, and if its
      process is that of its slot the slot is marked.  Nothing else has changed. */
  lemma {:induction false} LeaveAlone(s: Topic, k: nat)
    requires |s.ring| > 0 && s.dispatcher.Waiting? && k < |s.clients|
    requires s.clients[k].open && s.clients[k].point.Resting? && s.clients[k].index < |s.slots|
    ensures
      var c := s.clients[k];
      var more := [Unsubscribe(k)] + [DispatcherStep(false)] + [DispatcherStep(false)];
      var d := s.slots[c.index];
      && |Step(s, Close(k)).ring| > 0
      && Run(Step(s, Close(k)), more)
         == s.(clients := s.clients[k := c.(open := false, asked := false)],
               slots := if d.pid == c.pid then s.slots[c.index := d.(pendingRemove := true)] else s.slots)
  {
    var s1 := s.(clients := s.clients[k := s.clients[k].(open := false, asked := true)]);
    assert Step(s, Close(k)) == s1;
    UnsubscribeAlone(s1, k, false);
  }

  /** The subscription is marked for removal, or on its way out. */
  ghost predicate Marked(s: Topic, v: View, k: nat) {
    && k < |s.clients| && k < |v.phase| && s.clients[k].index < |s.slots|
    && (v.phase[k].Removing? || v.phase[k].Gone? || (v.phase[k].Live? && s.slots[s.clients[k].index].pendingRemove))
  }

  lemma NotifyKeepsMark(s: Topic, v: View, k: nat, choice: bool)
    requires Shape(s, v) && Marked(s, v, k) && Current(s)
    ensures Marked(NotifyStep(s), ViewPublisher(s, v, choice), k)
  {
  }

  /** The stores to the slot of the entry being closed are to another slot than that of a live one. */
  lemma ClosingKeepsMark(s: Topic, v: View, k: nat, choice: bool)
    requires Shape(s, v) && Marked(s, v, k) && Closing(s.publisher).Some?
    requires v.phase[k].Live? ==> s.clients[k].index != s.publisher.sub.index && s.publisher.sub.sem != k
    ensures Marked(PublisherAction(s, choice), ViewPublisher(s, v, choice), k)
  {
  }

  lemma RemoveKeepsMark(s: Topic, v: View, k: nat, choice: bool)
    requires Shape(s, v) && Marked(s, v, k) && s.publisher.Remove?
    requires forall b | b in s.publisher.gone :: b.sem < |v.phase| && v.phase[b.sem].Live?
    ensures Marked(PublisherAction(s, choice), ViewPublisher(s, v, choice), k)
  {
  }

  lemma PublisherKeepsMark(s: Topic, v: View, k: nat, choice: bool)
    requires Inv(s, v) && Marked(s, v, k)
    ensures Marked(PublisherAction(s, choice), ViewPublisher(s, v, choice), k)
  {
    if Closing(s.publisher).Some? {
      ClosingIsApart(s, v);
      if v.phase[k].Live? { assert SubOf(s, k) in s.bag; }
      ClosingKeepsMark(s, v, k, choice);
    } else if s.publisher.Remove? {
      RemoveKeepsMark(s, v, k, choice);
    } else if Current(s) {
      NotifyKeepsMark(s, v, k, choice);
    }
  }

  lemma DispatcherKeepsMark(s: Topic, v: View, k: nat, spurious: bool)
    requires Inv(s, v) && Marked(s, v, k)
    ensures Marked(DispatcherAction(s, spurious), ViewStep(s, v, DispatcherStep(spurious)), k)
  {
    if v.phase[k].Live? { assert v.owner[s.clients[k].index] == Of(k); }
    match s.dispatcher {
      case Reset(_, _, _) => PreparingSlot(s, v);
      case Create(_, _) =>
      case Push(_) =>
      case _ =>
    }
  }

  lemma OthersKeepMark(s: Topic, v: View, k: nat, a: Action)
    requires |s.ring| > 0 && Marked(s, v, k) && !a.PublisherStep? && !a.DispatcherStep?
    ensures Marked(Step(s, a), ViewStep(s, v, a), k)
  {
    ClientsStay(s, a);
    assert Step(s, a).slots == s.slots && Step(s, a).clients[k].index == s.clients[k].index;
    assert ViewStep(s, v, a).phase == v.phase;
  }

  /** A mark is never lost. */
  lemma StepKeepsMark(s: Topic, v: View, k: nat, a: Action)
    requires Inv(s, v) && Marked(s, v, k)
    ensures Marked(Step(s, a), ViewStep(s, v, a), k)
  {
    match a {
      case PublisherStep(choice) => PublisherKeepsMark(s, v, k, choice);
      case DispatcherStep(spurious) => DispatcherKeepsMark(s, v, k, spurious);
      case _ => OthersKeepMark(s, v, k, a);
    }
  }

  /** How many of the actions are the dispatcher's. */
  function DispatcherSteps(acts: seq<Action>): nat
    decreases |acts|
  {
    if acts == [] then 0
    else DispatcherSteps(acts[..|acts| - 1]) + if acts[|acts| - 1].DispatcherStep? then 1 else 0
  }

  /** After this many steps of the dispatcher, of which none failed spuriously. */
  ghost predicate Handling(s: Topic, v: View, k: nat, steps: nat) {
    if steps == 0 then s.dispatcher == MatchPid(k)
    else if steps == 1 then s.dispatcher == SetPending(k)
    else Marked(s, v, k)
  }

  lemma OthersLeaveDispatcher(s: Topic, a: Action)
    requires |s.ring| > 0 && !a.DispatcherStep? && !s.dispatcher.Waiting?
    ensures Step(s, a).dispatcher == s.dispatcher
  {
    match a {
      case PublisherStep(choice) => PublisherLeavesDispatcher(s, choice);
      case _ =>
    }
  }

  lemma PublisherLeavesDispatcher(s: Topic, choice: bool)
    ensures PublisherAction(s, choice).dispatcher == s.dispatcher
  {
    match s.publisher {
      case Remove(_) =>
      case GiveBack(_, _, _) =>
      case _ =>
    }
  }

  /** The process of a request still under way is that of its slot. */
  lemma HandlingStep(s: Topic, v: View, k: nat, steps: nat, a: Action)
    requires Inv(s, v) && k < |s.clients| && Handling(s, v, k, steps) && a != DispatcherStep(true)
    ensures Handling(Step(s, a), ViewStep(s, v, a), k, steps + if a.DispatcherStep? then 1 else 0)
  {
    if steps >= 2 {
      StepKeepsMark(s, v, k, a);
    } else if a.DispatcherStep? {
      assert KeptOf(s, v, k);
    } else {
      OthersLeaveDispatcher(s, a);
    }
  }

  lemma {:induction false} HandlingGoesOn(s: Topic, v: View, k: nat, acts: seq<Action>)
    requires Inv(s, v) && k < |s.clients| && s.dispatcher == MatchPid(k) && DispatcherStep(true) !in acts
    ensures Inv(Run(s, acts), ViewRun(s, v, acts)) && k < |Run(s, acts).clients|
    ensures Handling(Run(s, acts), ViewRun(s, v, acts), k, DispatcherSteps(acts))
    decreases |acts|
  {
    if acts != [] {
      var before, a := acts[..|acts| - 1], acts[|acts| - 1];
      assert a in acts;
      HandlingGoesOn(s, v, k, before);
      StepKeepsInv(Run(s, before), ViewRun(s, v, before), a);
      ClientsStay(Run(s, before), a);
      HandlingStep(Run(s, before), ViewRun(s, v, before), k, DispatcherSteps(before), a);
    }
  }

  lemma {:induction false} RequestServedFrom(s: Topic, v: View, k: nat, acts: seq<Action>)
    requires Inv(s, v) && k < |s.clients| && s.dispatcher.Waiting? && s.clients[k].asked
    requires DispatcherStep(true) !in acts && DispatcherSteps(acts) >= 2
    ensures |Step(s, Unsubscribe(k)).ring| > 0
    ensures Marked(Run(Step(s, Unsubscribe(k)), acts), ViewRun(Step(s, Unsubscribe(k)), v, acts), k)
  {
    AskKeepsInv(s, v, k);
    HandlingGoesOn(Step(s, Unsubscribe(k)), v, k, acts);
  }

  /** A request to unsubscribe is served.  From every reachable state where one waits: once the dispatcher has
      taken it up and made two more steps, none failing spuriously, the subscription is marked, whatever the
      others have done between them. */
  lemma {:induction false} RequestIsServed(capacity: nat, code: Code, before: seq<Action>, k: nat, acts: seq<Action>)
    requires capacity > 0 && k < |Reached(capacity, code, before).clients|
    requires
      var s := Reached(capacity, code, before);
      s.dispatcher.Waiting? && s.clients[k].asked
    requires DispatcherStep(true) !in acts && DispatcherSteps(acts) >= 2
    ensures
      var s, v := Reached(capacity, code, before), ReachedView(capacity, code, before);
      && |Step(s, Unsubscribe(k)).ring| > 0
      && Marked(Run(Step(s, Unsubscribe(k)), acts), ViewRun(Step(s, Unsubscribe(k)), v, acts), k)
  {
    RunKeepsInv(capacity, code, before);
    RequestServedFrom(Reached(capacity, code, before), ReachedView(capacity, code, before), k, acts);
  }

  // ---- the removal pass -----------------------------------------------------------------------

  /** Where an entry marked before a round stands in it: still to be checked, in `toRemove`, being closed, or
      gone. */
  ghost predicate Doomed(s: Topic, v: View, k: nat) {
    && Marked(s, v, k)
    && (v.phase[k].Live? ==>
          || s.publisher.Begin?
          || (SubOf(s, k) in Rest(s.publisher) && !Passed(s.publisher, SubOf(s, k)))
          || SubOf(s, k) in Leavers(s.publisher))
  }

  lemma CheckKeepsDoomed(s: Topic, v: View, k: nat)
    requires Inv(s, v) && Doomed(s, v, k) && s.publisher.Check? && Current(s)
    ensures Doomed(NotifyStep(s), v, k)
  {
    var rest := s.publisher.rest;
    TailOf(rest);
    if v.phase[k].Live? && rest[0] == SubOf(s, k) { assert s.slots[rest[0].index].pendingRemove; }
  }

  lemma ReleaseKeepsDoomed(s: Topic, v: View, k: nat, choice: bool)
    requires Inv(s, v) && Doomed(s, v, k) && s.publisher.Release? && Current(s)
    ensures Doomed(NotifyStep(s), ViewPublisher(s, v, choice), k)
  {
    TailOf(s.publisher.rest);
  }

  /** Steps that move neither list, and leave the pending flags alone. */
  lemma SlotStepsKeepDoomed(s: Topic, v: View, k: nat, choice: bool)
    requires Shape(s, v) && Doomed(s, v, k) && Current(s)
    requires s.publisher.Count? || s.publisher.LoadNext? || s.publisher.StoreNext?
    ensures Doomed(NotifyStep(s), ViewPublisher(s, v, choice), k)
  {
    NotifyKeepsMark(s, v, k, choice);
  }

  /** The action is a remove that fails to find the entry of subscription `k`. */
  predicate Misses(s: Topic, k: nat, a: Action) {
    && a == PublisherStep(false) && s.publisher.Remove? && s.publisher.gone != []
    && s.publisher.gone[|s.publisher.gone| - 1].sem == k
  }

  lemma RemoveKeepsDoomed(s: Topic, v: View, k: nat, choice: bool)
    requires Inv(s, v) && Doomed(s, v, k) && s.publisher.Remove? && s.publisher.gone != []
    requires !Misses(s, k, PublisherStep(choice))
    ensures Doomed(PublisherAction(s, choice), ViewPublisher(s, v, choice), k)
  {
    var gone := s.publisher.gone;
    FrontOf(gone);
    assert gone[|gone| - 1] in gone;
  }

  lemma BeginKeepsDoomed(s: Topic, v: View, k: nat, choice: bool)
    requires Inv(s, v) && Doomed(s, v, k) && s.publisher.Begin?
    ensures Doomed(PublisherAction(s, choice), v, k)
  {
    if v.phase[k].Live? { assert SubOf(s, k) in s.bag; }
  }

  lemma ClosingKeepsDoomed(s: Topic, v: View, k: nat, choice: bool)
    requires Inv(s, v) && Doomed(s, v, k) && Closing(s.publisher).Some?
    ensures Doomed(PublisherAction(s, choice), ViewPublisher(s, v, choice), k)
  {
    PublisherKeepsMark(s, v, k, choice);
  }

  lemma PublisherKeepsDoomed(s: Topic, v: View, k: nat, choice: bool)
    requires Inv(s, v) && Doomed(s, v, k) && !Misses(s, k, PublisherStep(choice))
    ensures Doomed(PublisherAction(s, choice), ViewPublisher(s, v, choice), k)
  {
    match s.publisher {
      case Quiet =>
      case Bump =>
      case Begin => BeginKeepsDoomed(s, v, k, choice);
      case Remove(gone) => if gone != [] { RemoveKeepsDoomed(s, v, k, choice); }
      case ClearPending(_, _, _) => ClosingKeepsDoomed(s, v, k, choice);
      case ClearActive(_, _, _) => ClosingKeepsDoomed(s, v, k, choice);
      case GiveBack(_, _, _) => ClosingKeepsDoomed(s, v, k, choice);
      case Check(_, _) => if Current(s) { CheckKeepsDoomed(s, v, k); }
      case Release(_, _) => if Current(s) { ReleaseKeepsDoomed(s, v, k, choice); }
      case _ => if Current(s) { SlotStepsKeepDoomed(s, v, k, choice); }
    }
  }

  lemma OthersKeepDoomed(s: Topic, v: View, k: nat, a: Action)
    requires Inv(s, v) && Doomed(s, v, k) && !a.PublisherStep?
    ensures Doomed(Step(s, a), ViewStep(s, v, a), k)
  {
    StepKeepsMark(s, v, k, a);
    OthersLeavePublisher(s, v, k, a);
  }

  lemma DispatcherLeavesPublisher(s: Topic, v: View, k: nat, spurious: bool)
    requires Shape(s, v) && k < |s.clients| && (s.dispatcher.Push? ==> s.dispatcher.sub.sem != k)
    ensures
      var s' := DispatcherAction(s, spurious);
      && k < |s'.clients| && SubOf(s', k) == SubOf(s, k) && s'.publisher == s.publisher
      && k < |ViewStep(s, v, DispatcherStep(spurious)).phase|
      && ViewStep(s, v, DispatcherStep(spurious)).phase[k] == v.phase[k]
  {
  }

  lemma ClientsLeavePublisher(s: Topic, v: View, k: nat, a: Action)
    requires |s.ring| > 0 && k < |s.clients| && k < |v.phase| && !a.PublisherStep? && !a.DispatcherStep?
    ensures
      var s' := Step(s, a);
      && k < |s'.clients| && SubOf(s', k) == SubOf(s, k) && ViewStep(s, v, a).phase == v.phase
      && (s'.publisher == s.publisher || (s.publisher.Quiet? && s'.publisher.Bump?))
  {
    match a {
      case Publish =>
      case Unsubscribe(_) =>
      case ClientStep(_) =>
      case _ =>
    }
  }

  lemma OthersLeavePublisher(s: Topic, v: View, k: nat, a: Action)
    requires Inv(s, v) && Marked(s, v, k) && !a.PublisherStep?
    ensures
      var s' := Step(s, a);
      && k < |s'.clients| && SubOf(s', k) == SubOf(s, k)
      && ViewStep(s, v, a).phase[k] == v.phase[k]
      && (s'.publisher == s.publisher || (s.publisher.Quiet? && s'.publisher.Bump?))
  {
    if a.DispatcherStep? {
      DispatcherLeavesPublisher(s, v, k, a.spurious);
    } else {
      ClientsLeavePublisher(s, v, k, a);
    }
  }

  lemma DoomedStep(s: Topic, v: View, k: nat, a: Action)
    requires Inv(s, v) && Doomed(s, v, k) && !Misses(s, k, a)
    ensures Doomed(Step(s, a), ViewStep(s, v, a), k)
  {
    if a.PublisherStep? { PublisherKeepsDoomed(s, v, k, a.choice); } else { OthersKeepDoomed(s, v, k, a); }
  }

  /** No remove of that subscription fails in the run; those of others may. */
  predicate NeverMisses(s: Topic, k: nat, acts: seq<Action>)
    requires |s.ring| > 0
    decreases |acts|
  {
    acts == [] || (NeverMisses(s, k, acts[..|acts| - 1])
                   && !Misses(Run(s, acts[..|acts| - 1]), k, acts[|acts| - 1]))
  }

  lemma {:induction false} DoomedGoesOn(s: Topic, v: View, k: nat, acts: seq<Action>)
    requires Inv(s, v) && Doomed(s, v, k) && NeverMisses(s, k, acts)
    ensures Inv(Run(s, acts), ViewRun(s, v, acts)) && Doomed(Run(s, acts), ViewRun(s, v, acts), k)
    decreases |acts|
  {
    if acts != [] {
      var before, a := acts[..|acts| - 1], acts[|acts| - 1];
      DoomedGoesOn(s, v, k, before);
      var s1, v1 := Run(s, before), ViewRun(s, v, before);
      StepKeepsInv(s1, v1, a);
      DoomedStep(s1, v1, k, a);
    }
  }

  // ---- slots that nobody uses -----------------------------------------------------------------

  predicate Idle(d: Slot) {
    !d.active && !d.pendingRemove
  }

  /** A slot in the pool or lost is neither in use nor pending removal; nor is the one whose ID is about to be
      given back. */
  ghost predicate Dormant(s: Topic, v: View) {
    && |s.slots| == |v.owner|
    && (forall i | 0 <= i < |s.slots| && (v.owner[i].InPool? || v.owner[i].Leaked?) :: Idle(s.slots[i]))
    && (s.publisher.ClearActive? && s.publisher.sub.index < |s.slots| ==>
          !s.slots[s.publisher.sub.index].pendingRemove)
    && (s.publisher.GiveBack? && s.publisher.sub.index < |s.slots| ==> Idle(s.slots[s.publisher.sub.index]))
  }

  lemma NotifyKeepsDormant(s: Topic, v: View, choice: bool)
    requires Current(s) && Dormant(s, v)
    ensures Dormant(NotifyStep(s), ViewPublisher(s, v, choice))
  {
    assert forall i | 0 <= i < |s.slots| ::
        NotifyStep(s).slots[i].active == s.slots[i].active
        && NotifyStep(s).slots[i].pendingRemove == s.slots[i].pendingRemove;
  }

  lemma ClosingKeepsDormant(s: Topic, v: View, choice: bool)
    requires Dormant(s, v) && (s.publisher.ClearPending? || s.publisher.ClearActive? || s.publisher.GiveBack?)
    ensures Dormant(PublisherAction(s, choice), ViewPublisher(s, v, choice))
  {
  }

  lemma PublisherKeepsDormant(s: Topic, v: View, choice: bool)
    requires Dormant(s, v)
    ensures Dormant(PublisherAction(s, choice), ViewPublisher(s, v, choice))
  {
    match s.publisher {
      case ClearPending(_, _, _) => ClosingKeepsDormant(s, v, choice);
      case ClearActive(_, _, _) => ClosingKeepsDormant(s, v, choice);
      case GiveBack(_, _, _) => ClosingKeepsDormant(s, v, choice);
      case Remove(_) =>
      case _ => if Current(s) { NotifyKeepsDormant(s, v, choice); }
    }
  }

  lemma ResetKeepsDormant(s: Topic, v: View, spurious: bool)
    requires Frame(s, v) && Dormant(s, v) && s.dispatcher.Reset?
    ensures Dormant(DispatcherAction(s, spurious), v)
  {
    PreparingSlot(s, v);
    if Closing(s.publisher).Some? { ClosingIsApart(s, v); }
  }

  lemma PendingKeepsDormant(s: Topic, v: View, spurious: bool)
    requires Inv(s, v) && Dormant(s, v) && s.dispatcher.SetPending?
    ensures Dormant(DispatcherAction(s, spurious), v)
  {
    var k := s.dispatcher.sem;
    if k < |s.clients| {
      assert KeptOf(s, v, k);
      assert v.owner[s.clients[k].index] == Of(k) && SubOf(s, k) in s.bag;
      if Closing(s.publisher).Some? { ClosingIsApart(s, v); }
    }
  }

  lemma DispatcherKeepsDormant(s: Topic, v: View, spurious: bool)
    requires Inv(s, v) && Dormant(s, v)
    ensures Dormant(DispatcherAction(s, spurious), ViewStep(s, v, DispatcherStep(spurious)))
  {
    match s.dispatcher {
      case Reset(_, _, _) => ResetKeepsDormant(s, v, spurious);
      case SetPending(_) => PendingKeepsDormant(s, v, spurious);
      case _ =>
    }
  }

  lemma OthersKeepDormant(s: Topic, v: View, a: Action)
    requires Dormant(s, v) && |s.ring| > 0 && !a.PublisherStep? && !a.DispatcherStep?
    ensures Dormant(Step(s, a), ViewStep(s, v, a))
  {
    var s', v' := Step(s, a), ViewStep(s, v, a);
    assert s'.slots == s.slots && (s'.publisher == s.publisher || s'.publisher.Bump?);
    assert a.Subscribe? || v' == v;
  }

  lemma StepKeepsDormant(s: Topic, v: View, a: Action)
    requires Inv(s, v) && Dormant(s, v)
    ensures Dormant(Step(s, a), ViewStep(s, v, a))
  {
    match a {
      case PublisherStep(choice) => PublisherKeepsDormant(s, v, choice);
      case DispatcherStep(spurious) => DispatcherKeepsDormant(s, v, spurious);
      case _ => OthersKeepDormant(s, v, a);
    }
  }

  lemma {:induction false} RunKeepsDormant(capacity: nat, code: Code, acts: seq<Action>)
    requires capacity > 0
    ensures Dormant(Reached(capacity, code, acts), ReachedView(capacity, code, acts))
    decreases |acts|
  {
    if acts != [] {
      var before := acts[..|acts| - 1];
      RunKeepsDormant(capacity, code, before);
      RunKeepsInv(capacity, code, before);
      StepKeepsDormant(Reached(capacity, code, before), ReachedView(capacity, code, before), acts[|acts| - 1]);
    }
  }

  /** As intended no ID is ever lost. */
  ghost predicate NoneLeaked(s: Topic, v: View) {
    s.code.Intended? ==> forall i | 0 <= i < |v.owner| :: !v.owner[i].Leaked?
  }

  lemma StepLeaksNone(s: Topic, v: View, a: Action)
    requires Inv(s, v) && NoneLeaked(s, v)
    ensures NoneLeaked(Step(s, a), ViewStep(s, v, a))
  {
    StepKeepsRing(s, a);
    if a.PublisherStep? && s.publisher.GiveBack? { assert Closing(s.publisher) == Some(s.publisher.sub); }
  }

  lemma {:induction false} RunLeaksNone(capacity: nat, code: Code, acts: seq<Action>)
    requires capacity > 0
    ensures NoneLeaked(Reached(capacity, code, acts), ReachedView(capacity, code, acts))
    decreases |acts|
  {
    if acts != [] {
      var before := acts[..|acts| - 1];
      RunLeaksNone(capacity, code, before);
      RunKeepsInv(capacity, code, before);
      StepLeaksNone(Reached(capacity, code, before), ReachedView(capacity, code, before), acts[|acts| - 1]);
    }
  }

  /** What is left of a subscription that is gone: no entry, and a slot that is not its own; until the slot is
      rented again it is neither in use nor pending removal, and as intended its ID is free. */
  ghost predicate LeftNothing(s: Topic, v: View, k: nat) {
    && Shape(s, v) && k < |s.clients| && s.clients[k].index < SLOTS
    && (forall b | b in s.bag :: b.sem != k)
    && var i := s.clients[k].index;
       && v.owner[i] != Of(k)
       && (v.owner[i].InPool? || v.owner[i].Leaked? ==> Idle(s.slots[i]))
       && (v.owner[i].InPool? ==> i in s.free) && (s.code.Intended? ==> !v.owner[i].Leaked?)
  }

  lemma GoneLeftNothing(s: Topic, v: View, k: nat)
    requires Inv(s, v) && Dormant(s, v) && NoneLeaked(s, v) && k < |s.clients| && v.phase[k] == Gone
    ensures LeftNothing(s, v, k)
  {
  }

  /** `NotifyAll` removes what is pending.  From every reachable state in which a round begins, and whatever the
      dispatcher and the clients do meanwhile: when the publisher is quiet again nothing is left of any
      subscription that was marked when the round began, however many there are, unless the remove of that very
      subscription failed. */
  lemma {:induction false} RoundRemovesMarked(capacity: nat, code: Code, before: seq<Action>, k: nat, acts: seq<Action>)
    requires capacity > 0 && Reached(capacity, code, before).publisher.Begin?
    requires Marked(Reached(capacity, code, before), ReachedView(capacity, code, before), k)
    requires |Reached(capacity, code, before).ring| > 0 && NeverMisses(Reached(capacity, code, before), k, acts)
    requires Reached(capacity, code, before + acts).publisher.Quiet?
    ensures LeftNothing(Reached(capacity, code, before + acts), ReachedView(capacity, code, before + acts), k)
  {
    RunKeepsInv(capacity, code, before);
    var s, v := Reached(capacity, code, before), ReachedView(capacity, code, before);
    DoomedGoesOn(s, v, k, acts);
    RunConcat(Init(capacity, code), InitView(), before, acts);
    RunKeepsDormant(capacity, code, before + acts);
    RunLeaksNone(capacity, code, before + acts);
    QuietIsDone(Reached(capacity, code, before + acts), ReachedView(capacity, code, before + acts), k);
  }

  lemma QuietIsDone(s: Topic, v: View, k: nat)
    requires Inv(s, v) && Dormant(s, v) && NoneLeaked(s, v) && Doomed(s, v, k) && s.publisher.Quiet?
    ensures LeftNothing(s, v, k)
  {
    GoneLeftNothing(s, v, k);
  }

  // ---- what the iteration collects ------------------------------------------------------------

  /** The entries found pending removal at their check, in the round under way. */
  function Found(s: Topic, acts: seq<Action>): seq<Subscription>
    requires |s.ring| > 0
    decreases |acts|
  {
    if acts == [] then []
    else FoundBy(Run(s, acts[..|acts| - 1]), acts[|acts| - 1], Found(s, acts[..|acts| - 1]))
  }

  function FoundBy(s: Topic, a: Action, found: seq<Subscription>): seq<Subscription> {
    if !a.PublisherStep? then found
    else if s.publisher.Begin? then []
    else if s.publisher.Check? && Current(s) && s.slots[s.publisher.rest[0].index].pendingRemove
    then found + [s.publisher.rest[0]]
    else found
  }

  predicate Iterates(p: Publisher) {
    p.Check? || p.Count? || p.LoadNext? || p.StoreNext? || p.Release?
  }

  /** While the publisher iterates `toRemove` holds what it has found; then it takes it from the end. */
  ghost predicate Collects(p: Publisher, found: seq<Subscription>) {
    && (Iterates(p) ==> Leavers(p) == found)
    && (p.Remove? || p.ClearPending? || p.ClearActive? || p.GiveBack? ==> Leavers(p) <= found)
  }

  lemma {:induction false} NotifyCollects(s: Topic, found: seq<Subscription>)
    requires Current(s) && Collects(s.publisher, found)
    ensures Collects(NotifyStep(s).publisher, FoundBy(s, PublisherStep(true), found))
    ensures NotifyStep(s).publisher.Remove? ==>
              NotifyStep(s).publisher.gone == FoundBy(s, PublisherStep(true), found)
  {
  }

  lemma {:induction false} StepCollects(s: Topic, a: Action, found: seq<Subscription>)
    requires |s.ring| > 0 && Collects(s.publisher, found)
    ensures Collects(Step(s, a).publisher, FoundBy(s, a, found))
  {
    match a {
      case PublisherStep(choice) => PublisherCollects(s, choice, found);
      case DispatcherStep(_) =>
      case _ =>
    }
  }

  lemma {:induction false} PublisherCollects(s: Topic, choice: bool, found: seq<Subscription>)
    requires Collects(s.publisher, found)
    ensures Collects(PublisherAction(s, choice).publisher, FoundBy(s, PublisherStep(choice), found))
  {
    match s.publisher {
      case Remove(_) =>
      case ClearPending(_, _, _) =>
      case ClearActive(_, _, _) =>
      case GiveBack(_, _, _) =>
      case Begin =>
      case Quiet =>
      case Bump =>
      case _ => if Current(s) { NotifyCollects(s, found); }
    }
  }

  lemma {:induction false} RunCollects(s: Topic, acts: seq<Action>)
    requires |s.ring| > 0 && s.publisher.Quiet?
    ensures Collects(Run(s, acts).publisher, Found(s, acts))
    decreases |acts|
  {
    if acts != [] {
      RunCollects(s, acts[..|acts| - 1]);
      StepCollects(Run(s, acts[..|acts| - 1]), acts[|acts| - 1], Found(s, acts[..|acts| - 1]));
    }
  }

  /** In every run: the iteration ends with `toRemove` holding every entry found pending at its check, each in
      the order in which they were found, and no other. */
  lemma {:induction false} IterationCollectsAll(capacity: nat, code: Code, acts: seq<Action>, choice: bool)
    requires capacity > 0
    requires
      var s := Reached(capacity, code, acts);
      Iterates(s.publisher) && Step(s, PublisherStep(choice)).publisher.Remove?
    ensures
      var s := Reached(capacity, code, acts);
      Step(s, PublisherStep(choice)).publisher.gone
      == Found(Init(capacity, code), acts + [PublisherStep(choice)])
  {
    RunCollects(Init(capacity, code), acts);
    assert (acts + [PublisherStep(choice)])[..|acts|] == acts;
    var s := Reached(capacity, code, acts);
    NotifyCollects(s, Found(Init(capacity, code), acts));
  }
}
