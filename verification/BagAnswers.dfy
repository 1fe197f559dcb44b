/** What the callers of the bag are told, and what each operation does when nobody interferes. */
module BagAnswers {
  import opened Chains
  import opened ConcurrentBag
  import opened Options

  /** The items in the bag, in order. */
  function Items(s: Bag, v: View): seq<Item> {
    ItemsOf(v.items, s.value)
  }

  // ---- answers in every run -------------------------------------------------------------------

  /** Of the walk in progress: what `remove` was asked for, the items when the walk began, and the items
      that have been pushed since. */
  datatype Log = Log(asked: Option<Item>, base: seq<Item>, added: seq<Item>)

  function LogStep(s: Bag, v: View, l: Log, a: Action): Log {
    match a
    case BeginRemove(item) => if s.walker.WalkIdle? then Log(Some(item), Items(s, v), []) else l
    case BeginIterate => if s.walker.WalkIdle? then Log(None, Items(s, v), []) else l
    case _ => if Swings(s, a) then l.(added := [s.pusher.item] + l.added) else l
  }

  function LogRun(s: Bag, v: View, l: Log, acts: seq<Action>): Log
    decreases |acts|
  {
    if acts == [] then l
    else
      var before := acts[..|acts| - 1];
      LogStep(Run(s, before), ViewRun(s, v, before), LogRun(s, v, l, before), acts[|acts| - 1])
  }

  /** What the bag would hold had the walk taken nothing out. */
  function Untouched(l: Log): seq<Item> {
    l.added + l.base
  }

  predicate Removing(w: Walker) {
    w.ScanValue? || w.ScanNext? || w.ScanCas? || w.FreeHead? || w.FreeLink? || w.FreeCas?
  }

  /** A scan has taken nothing out yet; once it frees its node it has taken out one occurrence of what it
      was asked for. */
  ghost predicate Told(w: Walker, items: seq<Item>, l: Log) {
    match w
    case WalkIdle => true
    case ScanValue(item, _, _) => l.asked == Some(item) && items == Untouched(l)
    case ScanNext(item, _, _, _) => l.asked == Some(item) && items == Untouched(l)
    case ScanCas(item, _, _, _) => l.asked == Some(item) && items == Untouched(l)
    case FreeHead(item, _) => l.asked == Some(item) && OneLess(Untouched(l), items, item)
    case FreeLink(item, _, _) => l.asked == Some(item) && OneLess(Untouched(l), items, item)
    case FreeCas(item, _, _) => l.asked == Some(item) && OneLess(Untouched(l), items, item)
    case IterValue(_) => items == Untouched(l)
    case IterNext(_) => items == Untouched(l)
  }

  lemma {:induction false} OneLessInFront(bag: seq<Item>, bag': seq<Item>, item: Item, x: Item)
    requires OneLess(bag, bag', item)
    ensures OneLess([x] + bag, [x] + bag', item)
  {
    var i :| 0 <= i < |bag| && bag[i] == item && bag' == bag[..i] + bag[i + 1..];
    assert ([x] + bag)[i + 1] == item;
    assert [x] + bag' == ([x] + bag)[..i + 1] + ([x] + bag)[i + 2..];
  }

  /** Taking an item out leaves another number of items. */
  lemma {:induction false} OneLessIsShorter(bag: seq<Item>, bag': seq<Item>, item: Item)
    requires OneLess(bag, bag', item)
    ensures |bag'| == |bag| - 1 && item in bag && bag' != bag
  {
  }

  lemma {:induction false} SwingKeepsTold(w: Walker, items: seq<Item>, l: Log, x: Item)
    requires Told(w, items, l)
    ensures Told(w, [x] + items, l.(added := [x] + l.added))
  {
    assert [x] + Untouched(l) == Untouched(l.(added := [x] + l.added));
    if w.FreeHead? || w.FreeLink? || w.FreeCas? { OneLessInFront(Untouched(l), items, w.item, x); }
  }

  /** The walker after a step that leaves the items alone. */
  lemma {:induction false} WalkKeepsTold(s: Bag, spurious: bool, items: seq<Item>, l: Log)
    requires Told(s.walker, items, l) && !Unlinks(s)
    ensures Told(WalkAction(s, spurious).walker, items, l)
  {
    match s.walker {
      case ScanNext(_, _, _, _) =>
      case ScanCas(_, _, _, _) =>
      case FreeCas(_, _, _) =>
      case IterNext(_) =>
      case _ =>
    }
  }

  lemma BeginKeepsTold(s: Bag, v: View, l: Log, a: Action)
    requires Told(s.walker, Items(s, v), l) && !a.StepPush? && !a.StepWalk?
    ensures Told(Step(s, a).walker, Items(s, v), LogStep(s, v, l, a))
  {
    assert [] + Items(s, v) == Items(s, v);
  }

  lemma PushKeepsWalker(s: Bag, spurious: bool)
    ensures PushAction(s, spurious).walker == s.walker
  {
  }

  lemma StepKeepsTold(s: Bag, v: View, l: Log, a: Action)
    requires Inv(s, v) && Told(s.walker, Items(s, v), l)
    ensures Told(Step(s, a).walker, Items(Step(s, a), ViewStep(s, v, a)), LogStep(s, v, l, a))
  {
    StepIsAtomic(s, v, a);
    match a {
      case StepPush(spurious) =>
        PushKeepsWalker(s, spurious);
        if Swings(s, a) { SwingKeepsTold(s.walker, Items(s, v), l, s.pusher.item); }
      case StepWalk(spurious) => if !Unlinks(s) { WalkKeepsTold(s, spurious, Items(s, v), l); }
      case _ => BeginKeepsTold(s, v, l, a);
    }
  }

  function Reached(value: seq<Item>, acts: seq<Action>): Bag
    requires |value| > 0
  {
    Run(Init(value), acts)
  }

  function ReachedView(value: seq<Item>, acts: seq<Action>): View
    requires |value| > 0
  {
    ViewRun(Init(value), InitView(|value|), acts)
  }

  function ReachedLog(value: seq<Item>, acts: seq<Action>): Log
    requires |value| > 0
  {
    LogRun(Init(value), InitView(|value|), Log(None, [], []), acts)
  }

  lemma {:induction false} RunKeepsTold(value: seq<Item>, acts: seq<Action>)
    requires |value| > 0
    ensures
      var s, v := Reached(value, acts), ReachedView(value, acts);
      Inv(s, v) && Told(s.walker, Items(s, v), ReachedLog(value, acts))
    decreases |acts|
  {
    RunKeepsInv(value, acts);
    if acts != [] {
      var before := acts[..|acts| - 1];
      RunKeepsTold(value, before);
      StepKeepsTold(Reached(value, before), ReachedView(value, before), ReachedLog(value, before), acts[|acts| - 1]);
    }
  }

  /** The action in which a `remove` returns, which for an empty bag is the one it begins with. */
  predicate EndsRemove(s: Bag, a: Action) {
    && Step(s, a).walker.WalkIdle?
    && ((a.StepWalk? && Removing(s.walker)) || (a.BeginRemove? && s.walker.WalkIdle?))
  }

  lemma {:induction false} WalkEndsRemove(s: Bag, spurious: bool, items: seq<Item>, l: Log)
    requires Told(s.walker, items, l) && Removing(s.walker) && WalkAction(s, spurious).walker.WalkIdle?
    ensures
      var answer := WalkAction(s, spurious).removeAnswer;
      && l.asked.Some? && !Unlinks(s)
      && if s.walker.FreeCas? then answer == Answer(true) && OneLess(Untouched(l), items, l.asked.value)
         else answer == Answer(false) && items == Untouched(l)
  {
    match s.walker {
      case ScanNext(_, _, _, _) =>
      case ScanCas(_, _, _, _) =>
      case _ =>
    }
  }

  lemma EndingRemove(s: Bag, v: View, l: Log, a: Action)
    requires Inv(s, v) && Told(s.walker, Items(s, v), l) && EndsRemove(s, a)
    ensures
      var items', l', answer := Items(Step(s, a), ViewStep(s, v, a)), LogStep(s, v, l, a), Step(s, a).removeAnswer;
      && l'.asked.Some?
      && if s.walker.FreeCas? then answer == Answer(true) && OneLess(Untouched(l'), items', l'.asked.value)
         else answer == Answer(false) && items' == Untouched(l')
  {
    StepIsAtomic(s, v, a);
    if a.StepWalk? {
      WalkEndsRemove(s, a.spurious, Items(s, v), l);
    } else {
      assert [] + Items(s, v) == Items(s, v);
    }
  }

  /** In every run: the action that ends a remove answers true exactly if that remove has taken one
      occurrence of the item it was asked for out of the bag, which is otherwise as it was when the remove
      began, with what has been pushed since in front; and it answers false exactly if it has taken out
      nothing. */
  lemma {:induction false} RemoveAnswers(value: seq<Item>, acts: seq<Action>, a: Action)
    requires |value| > 0 && EndsRemove(Reached(value, acts), a)
    ensures
      var s', v', l := Step(Reached(value, acts), a), ReachedView(value, acts + [a]), ReachedLog(value, acts + [a]);
      && l.asked.Some? && (s'.removeAnswer == Answer(true) || s'.removeAnswer == Answer(false))
      && (s'.removeAnswer == Answer(true) <==> OneLess(Untouched(l), Items(s', v'), l.asked.value))
      && (s'.removeAnswer == Answer(false) <==> Items(s', v') == Untouched(l))
  {
    RunKeepsTold(value, acts);
    var s, v, l := Reached(value, acts), ReachedView(value, acts), ReachedLog(value, acts);
    EndingRemove(s, v, l, a);
    assert (acts + [a])[..|acts|] == acts;
    var l' := LogStep(s, v, l, a);
    if OneLess(Untouched(l'), Items(Step(s, a), ViewStep(s, v, a)), l'.asked.value) {
      OneLessIsShorter(Untouched(l'), Items(Step(s, a), ViewStep(s, v, a)), l'.asked.value);
    }
  }

  /** The answer stays until the next remove begins. */
  lemma AnswerStays(s: Bag, a: Action)
    requires !EndsRemove(s, a) && !(a.BeginRemove? && s.walker.WalkIdle?)
    ensures Step(s, a).removeAnswer == s.removeAnswer
  {
    match a {
      case StepWalk(_) =>
      case _ =>
    }
  }

  /** The action in which a push returns. */
  predicate EndsPush(s: Bag, a: Action) {
    && Step(s, a).pusher.PushIdle?
    && ((a.StepPush? && !s.pusher.PushIdle?) || (a.BeginPush? && s.pusher.PushIdle?))
  }

  /** In every run a push answers true exactly if its item has entered the bag in that same action, and
      false exactly if nothing has. */
  lemma {:induction false} PushAnswers(value: seq<Item>, acts: seq<Action>, a: Action)
    requires |value| > 0 && EndsPush(Reached(value, acts), a)
    ensures
      var s, v := Reached(value, acts), ReachedView(value, acts);
      var s', v' := Step(s, a), ViewStep(s, v, a);
      if s'.pushAnswer == Answer(true)
      then !s.pusher.PushIdle? && Items(s', v') == [s.pusher.item] + Items(s, v)
      else s'.pushAnswer == Answer(false) && Items(s', v') == Items(s, v)
  {
    RunKeepsInv(value, acts);
    var s, v := Reached(value, acts), ReachedView(value, acts);
    StepIsAtomic(s, v, a);
    EndingPush(s, a);
  }

  lemma EndingPush(s: Bag, a: Action)
    requires EndsPush(s, a)
    ensures Step(s, a).pushAnswer == Answer(Swings(s, a))
  {
    match a {
      case StepPush(_) =>
      case BeginPush(_) =>
    }
  }

  /** The items of the pushes that have answered true. */
  function Put(s: Bag, acts: seq<Action>): multiset<Item>
    decreases |acts|
  {
    if acts == [] then multiset{}
    else
      var r, a := Run(s, acts[..|acts| - 1]), acts[|acts| - 1];
      Put(s, acts[..|acts| - 1])
      + if EndsPush(r, a) && Step(r, a).pushAnswer == Answer(true) && !r.pusher.PushIdle?
        then multiset{r.pusher.item} else multiset{}
  }

  /** The items of the removes that have answered true. */
  function Taken(s: Bag, acts: seq<Action>): multiset<Item>
    decreases |acts|
  {
    if acts == [] then multiset{}
    else
      var r, a := Run(s, acts[..|acts| - 1]), acts[|acts| - 1];
      Taken(s, acts[..|acts| - 1])
      + if EndsRemove(r, a) && Step(r, a).removeAnswer == Answer(true) && Removing(r.walker)
        then multiset{r.walker.item} else multiset{}
  }

  lemma PushIsCounted(s: Bag, a: Action)
    ensures
      Step(s, a).pushed
      == s.pushed + if EndsPush(s, a) && Step(s, a).pushAnswer == Answer(true) && !s.pusher.PushIdle?
                    then multiset{s.pusher.item} else multiset{}
  {
    match a {
      case StepPush(_) =>
      case StepWalk(_) =>
      case _ =>
    }
  }

  lemma RemoveIsCounted(s: Bag, a: Action)
    ensures
      Step(s, a).removed
      == s.removed + if EndsRemove(s, a) && Step(s, a).removeAnswer == Answer(true) && Removing(s.walker)
                     then multiset{s.walker.item} else multiset{}
  {
    match a {
      case StepPush(_) =>
      case StepWalk(_) =>
      case _ =>
    }
  }

  lemma {:induction false} AnswersAreCounted(value: seq<Item>, acts: seq<Action>)
    requires |value| > 0
    ensures Reached(value, acts).pushed == Put(Init(value), acts)
    ensures Reached(value, acts).removed == Taken(Init(value), acts)
    decreases |acts|
  {
    if acts != [] {
      AnswersAreCounted(value, acts[..|acts| - 1]);
      PushIsCounted(Reached(value, acts[..|acts| - 1]), acts[|acts| - 1]);
      RemoveIsCounted(Reached(value, acts[..|acts| - 1]), acts[|acts| - 1]);
    }
  }

  /** The answers are the bag.  In every run, while no remove is between its unlinking and its return, the bag
      holds the items of the pushes that have answered true, less those of the removes that have. */
  lemma {:induction false} BagIsWhatWasAnswered(value: seq<Item>, acts: seq<Action>)
    requires |value| > 0
    ensures
      var s, v := Reached(value, acts), ReachedView(value, acts);
      && Taken(Init(value), acts) <= Put(Init(value), acts)
      && (WalkerNode(s.walker) == NIL ==>
            Contents(v.items, s.value) == Put(Init(value), acts) - Taken(Init(value), acts))
  {
    AnswersAreCounted(value, acts);
    BagIsAMultiset(value, acts);
  }

  // ---- an operation alone ---------------------------------------------------------------------

  lemma {:induction false} ViewConcat(s: Bag, v: View, a: seq<Action>, b: seq<Action>)
    ensures ViewRun(s, v, a + b) == ViewRun(Run(s, a), ViewRun(s, v, a), b)
    decreases |b|
  {
    if b == [] {
      assert a + b == a;
    } else {
      assert (a + b)[..|a + b| - 1] == a + b[..|b| - 1];
      ViewConcat(s, v, a, b[..|b| - 1]);
      RunConcat(s, a, b[..|b| - 1]);
    }
  }

  /** These actions, and only steps of the walking thread after the first, take the bag there. */
  ghost predicate Leads(s: Bag, v: View, acts: seq<Action>, s': Bag, v': View) {
    Run(s, acts) == s' && ViewRun(s, v, acts) == v'
  }

  predicate OnlyWalks(acts: seq<Action>) {
    forall a | a in acts :: a == StepWalk(false)
  }

  lemma {:induction false} LeadsNowhere(s: Bag, v: View)
    ensures Leads(s, v, [], s, v) && OnlyWalks([])
  {
  }

  /** One action in front of a run. */
  lemma {:induction false} LeadsFrom(s: Bag, v: View, a: Action, acts: seq<Action>, s': Bag, v': View)
    requires Leads(Step(s, a), ViewStep(s, v, a), acts, s', v')
    ensures Leads(s, v, [a] + acts, s', v')
  {
    assert [a][..0] == [];
    assert Run(s, []) == s && ViewRun(s, v, []) == v;
    assert Run(s, [a]) == Step(s, a) && ViewRun(s, v, [a]) == ViewStep(s, v, a);
    RunConcat(s, [a], acts);
    ViewConcat(s, v, [a], acts);
  }

  lemma {:induction false} WalksFrom(s: Bag, v: View, acts: seq<Action>, s': Bag, v': View)
    requires Leads(Step(s, StepWalk(false)), ViewStep(s, v, StepWalk(false)), acts, s', v') && OnlyWalks(acts)
    ensures Leads(s, v, [StepWalk(false)] + acts, s', v') && OnlyWalks([StepWalk(false)] + acts)
  {
    LeadsFrom(s, v, StepWalk(false), acts, s', v');
  }

  /** What `remove` has done when it ends. */
  ghost predicate Removed(s: Bag, v: View, item: Item, s': Bag, v': View) {
    && Inv(s', v') && s'.walker.WalkIdle? && s'.pusher == s.pusher
    && (if item in Items(s, v)
        then s'.removeAnswer == Answer(true) && OneLess(Items(s, v), Items(s', v'), item)
        else s'.removeAnswer == Answer(false) && Items(s', v') == Items(s, v))
  }

  /** Where giving back a node stands, with nobody taking one meanwhile. */
  predicate FreesAlone(s: Bag) {
    || s.walker.FreeHead? || (s.walker.FreeLink? && s.walker.top == s.freeHead)
    || (s.walker.FreeCas? && s.walker.top == s.freeHead)
  }

  function FreeLeft(w: Walker): nat {
    if w.FreeHead? then 3 else if w.FreeLink? then 2 else 1
  }

  lemma FreeStep(s: Bag, v: View)
    requires Inv(s, v) && FreesAlone(s)
    ensures
      var s', v' := Step(s, StepWalk(false)), ViewStep(s, v, StepWalk(false));
      && Inv(s', v') && s'.pusher == s.pusher && Items(s', v') == Items(s, v)
      && (if s.walker.FreeCas? then s'.walker.WalkIdle? && s'.removeAnswer == Answer(true)
          else FreesAlone(s') && FreeLeft(s'.walker) < FreeLeft(s.walker))
  {
    StepKeepsInv(s, v, StepWalk(false));
    StepIsAtomic(s, v, StepWalk(false));
  }

  /** Giving the node back, once it is unlinked. */
  lemma {:induction false} FreeAlone(s: Bag, v: View) returns (acts: seq<Action>, s': Bag, v': View)
    requires Inv(s, v) && FreesAlone(s)
    ensures Leads(s, v, acts, s', v') && OnlyWalks(acts) && Inv(s', v') && Items(s', v') == Items(s, v)
    ensures s'.walker.WalkIdle? && s'.pusher == s.pusher && s'.removeAnswer == Answer(true)
    decreases FreeLeft(s.walker)
  {
    var s1, v1 := Step(s, StepWalk(false)), ViewStep(s, v, StepWalk(false));
    FreeStep(s, v);
    if s.walker.FreeCas? {
      acts, s', v' := [], s1, v1;
      LeadsNowhere(s1, v1);
    } else {
      acts, s', v' := FreeAlone(s1, v1);
    }
    WalksFrom(s, v, acts, s', v');
    acts := [StepWalk(false)] + acts;
  }

  /** A scan that nothing has overtaken. */
  ghost predicate ScansAlone(s: Bag, v: View, item: Item) {
    && Inv(s, v) && (s.walker.ScanValue? || s.walker.ScanNext? || s.walker.ScanCas?) && s.walker.item == item
    && !v.lost && v.pushes == 0
  }

  /** How many steps it has at most to go. */
  function StepsLeft(w: Walker, v: View): nat {
    if v.at >= |v.snapshot| then 0
    else 3 * (|v.snapshot| - v.at) - if w.ScanNext? then 1 else if w.ScanCas? then 2 else 0
  }

  lemma {:induction false} NotInItems(l: seq<int>, value: seq<Item>, item: Item)
    requires forall n | n in l :: !Holds(value, n, item)
    ensures item !in ItemsOf(l, value)
    decreases |l|
  {
    if l != [] {
      assert l[0] in l && forall n | n in l[1..] :: n in l;
      NotInItems(l[1..], value, item);
    }
  }

  lemma {:induction false} InItems(l: seq<int>, value: seq<Item>, i: nat, item: Item)
    requires i < |l| && Holds(value, l[i], item)
    ensures item in ItemsOf(l, value)
    decreases |l|
  {
    if i > 0 { InItems(l[1..], value, i - 1, item); }
  }

  /** A scan alone loses no compare-exchange, and it stands in a list that is still its snapshot. */
  lemma AloneStands(s: Bag, v: View, item: Item)
    requires ScansAlone(s, v, item)
    ensures v.snapshot == v.items && v.at < |v.snapshot| && v.snapshot[v.at] == s.walker.cur
    ensures s.walker.ScanCas? ==> Unlinks(s)
  {
    assert v.items[0..] == v.items;
    if s.walker.ScanCas? { FailsIffOvertaken(s, v); }
  }

  lemma AloneUnlinks(s: Bag, v: View, item: Item)
    requires ScansAlone(s, v, item) && s.walker.ScanCas?
    ensures
      var s', v' := Step(s, StepWalk(false)), ViewStep(s, v, StepWalk(false));
      && Inv(s', v') && s'.walker.FreeHead? && s'.pusher == s.pusher
      && item in Items(s, v) && OneLess(Items(s, v), Items(s', v'), item)
  {
    AloneStands(s, v, item);
    StepKeepsInv(s, v, StepWalk(false));
    StepIsAtomic(s, v, StepWalk(false));
    InItems(v.items, s.value, v.at, item);
  }

  lemma AloneGivesUp(s: Bag, v: View, item: Item)
    requires ScansAlone(s, v, item) && Step(s, StepWalk(false)).walker.WalkIdle?
    ensures Step(s, StepWalk(false)).removeAnswer == Answer(false) && item !in Items(s, v)
  {
    AloneStands(s, v, item);
    GivingUp(s, v, StepWalk(false), item);
    forall n | n in v.items ensures !Holds(s.value, n, item) {
      var i :| 0 <= i < |v.snapshot| && v.snapshot[i] == n;
    }
    NotInItems(v.items, s.value, item);
  }

  lemma AloneReads(s: Bag, v: View, item: Item)
    requires s.walker.ScanValue? && s.walker.item == item
    ensures
      var s', v' := Step(s, StepWalk(false)), ViewStep(s, v, StepWalk(false));
      && s' == s.(walker := s'.walker) && s'.walker.ScanNext? && s'.walker.item == item && v' == v
  {
  }

  lemma AloneCompares(s: Bag, v: View, item: Item)
    requires s.walker.ScanNext? && s.walker.item == item
    ensures
      var s', v' := Step(s, StepWalk(false)), ViewStep(s, v, StepWalk(false));
      && s'.pusher == s.pusher && v' == v.(at := v'.at)
      && (s'.walker.WalkIdle?
          || (s'.walker.ScanCas? && s'.walker.item == item && v'.at == v.at)
          || (s'.walker.ScanValue? && s'.walker.item == item && v'.at == v.at + 1))
  {
  }

  /** One step of a scan alone that does not unlink. */
  lemma AloneGoesOn(s: Bag, v: View, item: Item)
    requires ScansAlone(s, v, item) && !s.walker.ScanCas?
    ensures
      var s', v' := Step(s, StepWalk(false)), ViewStep(s, v, StepWalk(false));
      && Inv(s', v') && s'.pusher == s.pusher && Items(s', v') == Items(s, v)
      && (s'.walker.WalkIdle? || (ScansAlone(s', v', item) && StepsLeft(s'.walker, v') < StepsLeft(s.walker, v)))
  {
    StepKeepsInv(s, v, StepWalk(false));
    StepIsAtomic(s, v, StepWalk(false));
    if s.walker.ScanValue? { AloneReads(s, v, item); } else { AloneCompares(s, v, item); }
  }

  lemma {:induction false} ScanAlone(s: Bag, v: View, item: Item) returns (acts: seq<Action>, s': Bag, v': View)
    requires ScansAlone(s, v, item)
    ensures Leads(s, v, acts, s', v') && OnlyWalks(acts) && Removed(s, v, item, s', v')
    decreases StepsLeft(s.walker, v)
  {
    var s1, v1 := Step(s, StepWalk(false)), ViewStep(s, v, StepWalk(false));
    AloneStands(s, v, item);
    if s.walker.ScanCas? {
      AloneUnlinks(s, v, item);
      acts, s', v' := FreeAlone(s1, v1);
    } else {
      AloneGoesOn(s, v, item);
      if s1.walker.WalkIdle? {
        AloneGivesUp(s, v, item);
        acts, s', v' := [], s1, v1;
        LeadsNowhere(s1, v1);
      } else {
        acts, s', v' := ScanAlone(s1, v1, item);
      }
    }
    WalksFrom(s, v, acts, s', v');
    acts := [StepWalk(false)] + acts;
  }

  /** `remove` alone, for any bag and wherever the item is: it ends; with the item there it answers true and
      has taken out one occurrence, without it it answers false and has changed nothing. */
  lemma RemoveAlone(s: Bag, v: View, item: Item) returns (acts: seq<Action>, s': Bag, v': View)
    requires Inv(s, v) && s.walker.WalkIdle?
    ensures Leads(s, v, [BeginRemove(item)] + acts, s', v') && OnlyWalks(acts) && Removed(s, v, item, s', v')
  {
    var begin := BeginRemove(item);
    var s1, v1 := Step(s, begin), ViewStep(s, v, begin);
    StepKeepsInv(s, v, begin);
    assert Items(s1, v1) == Items(s, v);
    if s.itemsHead == NIL {
      acts, s', v' := [], s1, v1;
      LeadsNowhere(s1, v1);
    } else {
      acts, s', v' := ScanAlone(s1, v1, item);
    }
    LeadsFrom(s, v, begin, acts, s', v');
  }

  // ---- iterating ------------------------------------------------------------------------------

  /** The steps an iteration has to go. */
  function ToYield(w: Walker, v: View): int {
    match w
    case IterValue(_) => 2 * (|v.snapshot| - v.at)
    case IterNext(_) => 2 * (|v.snapshot| - v.at) - 1
    case _ => 0
  }

  predicate Iterating(w: Walker) {
    w.IterValue? || w.IterNext?
  }

  lemma IterReads(s: Bag, v: View, spurious: bool)
    requires s.walker.IterValue? && 0 <= s.walker.cur < |s.value|
    ensures WalkAction(s, spurious)
            == s.(seen := s.seen + [s.value[s.walker.cur]], walker := IterNext(s.walker.cur))
    ensures ViewStep(s, v, StepWalk(spurious)) == v
  {
  }

  /** The step of an iteration takes it one nearer to its end. */
  ghost predicate OneNearer(s: Bag, v: View, s': Bag, v': View) {
    && s' == s.(walker := s'.walker, seen := s'.seen) && v' == v.(at := v'.at)
    && 0 <= ToYield(s'.walker, v') == ToYield(s.walker, v) - 1
    && (if s'.walker.WalkIdle? then ToYield(s'.walker, v') == 0
        else Iterating(s'.walker) && ToYield(s'.walker, v') > 0)
  }

  lemma ReadIsNearer(s: Bag, v: View, spurious: bool)
    requires s.walker.IterValue? && 0 <= s.walker.cur < |s.value| && v.at < |v.snapshot|
    ensures OneNearer(s, v, WalkAction(s, spurious), ViewStep(s, v, StepWalk(spurious)))
  {
    IterReads(s, v, spurious);
  }

  lemma MoveIsNearer(s: Bag, v: View, s': Bag, v': View)
    requires s.walker.IterNext? && v.at < |v.snapshot| && v' == v.(at := v.at + 1)
    requires s' == s.(walker := if v.at + 1 < |v.snapshot| then IterValue(v.snapshot[v.at + 1]) else WalkIdle)
    ensures OneNearer(s, v, s', v')
  {
  }

  lemma OwnStep(s: Bag, v: View, spurious: bool)
    requires Inv(s, v) && Iterating(s.walker)
    ensures OneNearer(s, v, WalkAction(s, spurious), ViewStep(s, v, StepWalk(spurious)))
  {
    CurrentNode(s, v, v.at);
    if s.walker.IterNext? {
      IterMoves(s, v, spurious);
      MoveIsNearer(s, v, WalkAction(s, spurious), ViewStep(s, v, StepWalk(spurious)));
    } else {
      ReadIsNearer(s, v, spurious);
    }
  }

  lemma PushLetsIterate(s: Bag, v: View, spurious: bool)
    requires Inv(s, v) && Iterating(s.walker)
    ensures PushAction(s, spurious).walker == s.walker
    ensures ToYield(s.walker, ViewStep(s, v, StepPush(spurious))) == ToYield(s.walker, v) > 0
  {
    PushKeepsWalker(s, spurious);
    PushIsInFront(s, v, spurious);
  }

  /** Nothing holds an iteration up: whatever the other thread does, each of its own steps brings it one
      nearer to its end. */
  lemma IterationAdvances(s: Bag, v: View, a: Action)
    requires Inv(s, v) && Iterating(s.walker)
    ensures
      var w', v' := Step(s, a).walker, ViewStep(s, v, a);
      && 0 <= ToYield(w', v') == ToYield(s.walker, v) - (if a.StepWalk? then 1 else 0)
      && (if w'.WalkIdle? then ToYield(w', v') == 0 else Iterating(w') && ToYield(w', v') > 0)
  {
    if a.StepWalk? {
      OwnStep(s, v, a.spurious);
    } else if a.StepPush? {
      PushLetsIterate(s, v, a.spurious);
    }
  }

  lemma {:induction false} ItemsAre(l: seq<int>, value: seq<Item>, seen: seq<Item>)
    requires |seen| == |l| && forall i | 0 <= i < |l| :: Holds(value, l[i], seen[i])
    ensures ItemsOf(l, value) == seen
    decreases |l|
  {
    if l != [] {
      forall i | 0 <= i < |l| - 1 ensures Holds(value, l[1..][i], seen[1..][i]) {
        assert Holds(value, l[i + 1], seen[i + 1]);
      }
      ItemsAre(l[1..], value, seen[1..]);
      assert Holds(value, l[0], seen[0]);
      assert seen == [seen[0]] + seen[1..];
    }
  }

  /** The end of the bag is what the walk loaded, as long as it takes nothing out. */
  lemma SnapshotIsBase(s: Bag, v: View, l: Log)
    requires Inv(s, v) && (Iterating(s.walker) || s.walker.ScanNext? || s.walker.ScanCas?)
    requires Told(s.walker, Items(s, v), l) && |l.base| == |v.snapshot|
    ensures ItemsOf(v.snapshot, s.value) == l.base
  {
    var n := |v.items| - |v.snapshot|;
    assert v.items == v.items[..n] + v.items[n..];
    ItemsConcat(v.items[..n], v.snapshot, s.value);
    ChainRange(s.itemsHead, s.next, v.items);
    forall x | x in v.snapshot ensures 0 <= x < |s.value| { assert x in v.items; }
    AllThere(v.snapshot, s.value);
    var front, back := ItemsOf(v.items[..n], s.value), ItemsOf(v.snapshot, s.value);
    assert front + back == l.added + l.base;
    assert (front + back)[|front|..] == back && (l.added + l.base)[|l.added|..] == l.base;
  }

  lemma {:induction false} AllThere(l: seq<int>, value: seq<Item>)
    requires forall n | n in l :: 0 <= n < |value|
    ensures |ItemsOf(l, value)| == |l|
    decreases |l|
  {
    if l != [] {
      assert l[0] in l && forall n | n in l[1..] :: n in l;
      AllThere(l[1..], value);
    }
  }

  /** The log and the view begin a walk together. */
  lemma StepKeepsLength(s: Bag, v: View, l: Log, a: Action)
    requires Inv(s, v) && (s.walker.WalkIdle? || |l.base| == |v.snapshot|)
    ensures Step(s, a).walker.WalkIdle? || |LogStep(s, v, l, a).base| == |ViewStep(s, v, a).snapshot|
  {
    ChainRange(s.itemsHead, s.next, v.items);
    AllThere(v.items, s.value);
    if a.StepPush? { PushKeepsWalker(s, a.spurious); }
  }

  lemma {:induction false} RunKeepsLength(value: seq<Item>, acts: seq<Action>)
    requires |value| > 0
    ensures Reached(value, acts).walker.WalkIdle?
            || |ReachedLog(value, acts).base| == |ReachedView(value, acts).snapshot|
    decreases |acts|
  {
    if acts != [] {
      var before := acts[..|acts| - 1];
      RunKeepsLength(value, before);
      RunKeepsInv(value, before);
      StepKeepsLength(Reached(value, before), ReachedView(value, before), ReachedLog(value, before), acts[|acts| - 1]);
    }
  }

  /** The action that ends an iteration, which for an empty bag is the one it begins with. */
  predicate EndsIteration(s: Bag, a: Action) {
    && Step(s, a).walker.WalkIdle?
    && ((a.StepWalk? && Iterating(s.walker)) || (a.BeginIterate? && s.walker.WalkIdle?))
  }

  /** In every run: an iteration that ends has yielded exactly the items that were in the bag when it began,
      in their order, whatever has been pushed meanwhile. */
  lemma {:induction false} IterationYieldsAll(value: seq<Item>, acts: seq<Action>, a: Action)
    requires |value| > 0 && EndsIteration(Reached(value, acts), a)
    ensures Step(Reached(value, acts), a).seen == ReachedLog(value, acts + [a]).base
  {
    RunKeepsTold(value, acts);
    RunKeepsLength(value, acts);
    assert (acts + [a])[..|acts|] == acts;
    var s, v, l := Reached(value, acts), ReachedView(value, acts), ReachedLog(value, acts);
    if a.StepWalk? {
      SnapshotIsBase(s, v, l);
      EndingIteration(s, v, a);
    } else {
      NilIsEmpty(s, v);
    }
  }

  lemma NilIsEmpty(s: Bag, v: View)
    requires Inv(s, v) && s.itemsHead == NIL
    ensures v.items == [] && Items(s, v) == []
  {
  }

  lemma EndingIteration(s: Bag, v: View, a: Action)
    requires Inv(s, v) && Iterating(s.walker) && a.StepWalk? && Step(s, a).walker.WalkIdle?
    ensures Step(s, a).seen == s.seen == ItemsOf(v.snapshot, s.value)
  {
    if s.walker.IterNext? {
      Yielding(s, v, a);
      ItemsAre(v.snapshot, s.value, s.seen);
    }
  }

  lemma {:induction false} IterationAlone(s: Bag, v: View) returns (acts: seq<Action>, s': Bag, v': View)
    requires Inv(s, v) && Iterating(s.walker)
    ensures Leads(s, v, acts, s', v') && OnlyWalks(acts) && |acts| == ToYield(s.walker, v)
    ensures s' == s.(walker := WalkIdle, seen := ItemsOf(v.snapshot, s.value)) && v'.items == v.items
    decreases ToYield(s.walker, v)
  {
    var s1, v1 := Step(s, StepWalk(false)), ViewStep(s, v, StepWalk(false));
    OwnStep(s, v, false);
    StepKeepsInv(s, v, StepWalk(false));
    if s1.walker.WalkIdle? {
      EndingIteration(s, v, StepWalk(false));
      acts, s', v' := [], s1, v1;
      LeadsNowhere(s1, v1);
    } else {
      acts, s', v' := IterationAlone(s1, v1);
    }
    WalksFrom(s, v, acts, s', v');
    acts := [StepWalk(false)] + acts;
  }

  /** An iteration alone yields the whole bag, in two steps for each item, and changes nothing. */
  lemma IterateAlone(s: Bag, v: View) returns (acts: seq<Action>, s': Bag, v': View)
    requires Inv(s, v) && s.walker.WalkIdle?
    ensures Leads(s, v, [BeginIterate] + acts, s', v') && OnlyWalks(acts) && |acts| == 2 * |v.items|
    ensures s' == s.(seen := Items(s, v)) && v'.items == v.items
  {
    var s1, v1 := Step(s, BeginIterate), ViewStep(s, v, BeginIterate);
    StepKeepsInv(s, v, BeginIterate);
    if s.itemsHead == NIL {
      NilIsEmpty(s, v);
      acts, s', v' := [], s1, v1;
      LeadsNowhere(s1, v1);
    } else {
      acts, s', v' := IterationAlone(s1, v1);
    }
    LeadsFrom(s, v, BeginIterate, acts, s', v');
  }

  // ---- an item that is there once -------------------------------------------------------------

  lemma {:induction false} ItemsAt(l: seq<int>, value: seq<Item>, i: nat)
    requires i < |l| && forall n | n in l :: 0 <= n < |value|
    ensures i < |ItemsOf(l, value)| && l[i] in l && ItemsOf(l, value)[i] == value[l[i]]
    decreases |l|
  {
    assert l[0] in l && forall n | n in l[1..] :: n in l;
    AllThere(l, value);
    if i > 0 { ItemsAt(l[1..], value, i - 1); }
  }

  lemma {:induction false} OneOf(bag: seq<Item>, item: Item) returns (i: nat)
    requires multiset(bag)[item] == 1
    ensures i < |bag| && bag[i] == item && forall j | 0 <= j < |bag| && bag[j] == item :: j == i
  {
    assert item in bag;
    i :| 0 <= i < |bag| && bag[i] == item;
    var rest := bag[..i] + bag[i + 1..];
    assert bag == bag[..i] + [item] + bag[i + 1..];
    assert multiset(bag) == multiset(rest) + multiset{item};
    assert item !in rest;
    forall j | 0 <= j < |bag| && j != i ensures bag[j] != item {
      assert bag[j] == rest[if j < i then j else j - 1];
    }
  }

  lemma {:induction false} OnceInList(l: seq<int>, value: seq<Item>, item: Item)
    requires (forall n | n in l :: 0 <= n < |value|) && multiset(ItemsOf(l, value))[item] == 1
    ensures Once(value, l, item)
  {
    AllThere(l, value);
    var bag := ItemsOf(l, value);
    var i := OneOf(bag, item);
    ItemsAt(l, value, i);
    forall j | 0 <= j < |l| && Holds(value, l[j], item) ensures j == i { ItemsAt(l, value, j); }
    assert Holds(value, l[i], item);
  }

  /** An item that was in the bag once is in one node of the list the scan loaded. */
  lemma OnceInBase(s: Bag, v: View, l: Log, item: Item)
    requires Inv(s, v) && (s.walker.ScanNext? || s.walker.ScanCas?)
    requires Told(s.walker, Items(s, v), l) && |l.base| == |v.snapshot| && multiset(l.base)[item] == 1
    ensures Once(s.value, v.snapshot, item)
  {
    SnapshotIsBase(s, v, l);
    ChainRange(s.itemsHead, s.next, v.items);
    forall n | n in v.snapshot ensures 0 <= n < |s.value| { assert n in v.items; }
    OnceInList(v.snapshot, s.value, item);
  }

  /** A remove that took out an item that was there once has lost no compare-exchange. */
  predicate TookUnlost(w: Walker, v: View, l: Log) {
    (w.FreeHead? || w.FreeLink? || w.FreeCas?) && l.asked.Some? && multiset(l.base)[l.asked.value] == 1 ==> !v.lost
  }

  lemma UnlinkKeepsTook(s: Bag, v: View, l: Log, spurious: bool)
    requires Inv(s, v) && Told(s.walker, Items(s, v), l) && Unlinks(s) && |l.base| == |v.snapshot|
    ensures TookUnlost(WalkAction(s, spurious).walker, ViewStep(s, v, StepWalk(spurious)), l)
  {
    if multiset(l.base)[s.walker.item] == 1 {
      OnceInBase(s, v, l, s.walker.item);
      DeletingOnce(s, v);
    }
  }

  lemma {:induction false} WalkKeepsTook(s: Bag, v: View, l: Log, spurious: bool)
    requires TookUnlost(s.walker, v, l) && !Unlinks(s)
    ensures TookUnlost(WalkAction(s, spurious).walker, ViewStep(s, v, StepWalk(spurious)), l)
  {
    match s.walker {
      case ScanNext(_, _, _, _) =>
      case ScanCas(_, _, _, _) =>
      case IterNext(_) =>
      case _ =>
    }
  }

  lemma StepKeepsTook(s: Bag, v: View, l: Log, a: Action)
    requires Inv(s, v) && Told(s.walker, Items(s, v), l) && TookUnlost(s.walker, v, l)
    requires s.walker.WalkIdle? || |l.base| == |v.snapshot|
    ensures TookUnlost(Step(s, a).walker, ViewStep(s, v, a), LogStep(s, v, l, a))
  {
    match a {
      case StepWalk(spurious) =>
        if Unlinks(s) { UnlinkKeepsTook(s, v, l, spurious); } else { WalkKeepsTook(s, v, l, spurious); }
      case StepPush(spurious) => PushKeepsWalker(s, spurious);
      case _ =>
    }
  }

  lemma {:induction false} RunKeepsTook(value: seq<Item>, acts: seq<Action>)
    requires |value| > 0
    ensures TookUnlost(Reached(value, acts).walker, ReachedView(value, acts), ReachedLog(value, acts))
    decreases |acts|
  {
    if acts != [] {
      var before := acts[..|acts| - 1];
      RunKeepsTook(value, before);
      RunKeepsTold(value, before);
      RunKeepsLength(value, before);
      StepKeepsTook(Reached(value, before), ReachedView(value, before), ReachedLog(value, before), acts[|acts| - 1]);
    }
  }

  /** In every run: a remove of an item that was in the bag once when it began answers false if and only if
      it has lost a compare-exchange; by `LostIffOvertaken`, that is one a push has overtaken at the head. */
  lemma {:induction false} AnswersFalseIffLost(value: seq<Item>, acts: seq<Action>, a: Action)
    requires |value| > 0 && a.StepWalk? && EndsRemove(Reached(value, acts), a)
    requires
      var l := ReachedLog(value, acts);
      l.asked.Some? && multiset(l.base)[l.asked.value] == 1
    ensures
      var s', v' := Step(Reached(value, acts), a), ViewStep(Reached(value, acts), ReachedView(value, acts), a);
      if v'.lost then s'.removeAnswer == Answer(false) else s'.removeAnswer == Answer(true)
  {
    RunKeepsTold(value, acts);
    RunKeepsLength(value, acts);
    RunKeepsTook(value, acts);
    var s, v, l := Reached(value, acts), ReachedView(value, acts), ReachedLog(value, acts);
    EndingRemove(s, v, l, a);
    if !s.walker.FreeCas? {
      OnceInBase(s, v, l, l.asked.value);
      GivingUpOnce(s, v, a, l.asked.value);
    }
  }

  // ---- a push alone ---------------------------------------------------------------------------

  lemma {:induction false} LeadsKeepsInv(s: Bag, v: View, acts: seq<Action>)
    requires Inv(s, v)
    ensures Inv(Run(s, acts), ViewRun(s, v, acts))
    decreases |acts|
  {
    if acts != [] {
      var before := acts[..|acts| - 1];
      LeadsKeepsInv(s, v, before);
      StepKeepsInv(Run(s, before), ViewRun(s, v, before), acts[|acts| - 1]);
    }
  }

  /** `push` alone, for any bag: with a free node it answers true and has put the item in front, without one
      it answers false at once; nothing else has changed. */
  lemma PushAlone(s: Bag, v: View, item: Item)
    requires Inv(s, v) && s.pusher.PushIdle?
    ensures
      var acts := [BeginPush(item)] + if v.free == [] then [] else Pushing();
      var s', v' := Run(s, acts), ViewRun(s, v, acts);
      && Inv(s', v') && s'.pusher.PushIdle? && s'.walker == s.walker
      && s'.pushAnswer == Answer(v.free != [])
      && Items(s', v') == (if v.free == [] then [] else [item]) + Items(s, v)
  {
    var acts := [BeginPush(item)] + if v.free == [] then [] else Pushing();
    LeadsKeepsInv(s, v, acts);
    ChainRange(s.freeHead, s.next, v.free);
    if v.free == [] {
      assert acts == [BeginPush(item)] && acts[..0] == [];
      assert [] + Items(s, v) == Items(s, v);
    } else {
      assert v.free[0] in v.free;
      UndisturbedPush(s, item);
      PushedItems(s, v, item, Run(s, acts), ViewRun(s, v, acts));
    }
  }

  /** What a push nothing interferes with makes of the items. */
  lemma PushedItems(s: Bag, v: View, item: Item, s': Bag, v': View)
    requires Inv(s, v) && s.pusher.PushIdle? && v.free != [] && 0 <= s.freeHead < |s.next|
    requires s' == Pushed(s, item) && Inv(s', v')
    ensures Items(s', v') == [item] + Items(s, v)
  {
    var top := s.freeHead;
    assert top == v.free[0] && top in v.free && top !in v.items;
    ChainRange(s.itemsHead, s.next, v.items);
    ChainFrame(s.itemsHead, s.next, s'.next, v.items);
    ChainPush(s.itemsHead, s'.next, v.items, top);
    ChainUnique(s'.itemsHead, s'.next, [top] + v.items, v'.items);
    ItemsFrame(v.items, s.value, s'.value);
    assert v'.items[1..] == v.items;
  }
}
