/** What the callers of the ID pool are given. */
module PoolAnswers {
  import opened Chains
  import opened IdPool

  /** The ID a `try_rent` looks for, from each of its program points. */
  function TargetOf(p: Point): int {
    match p
    case SeekNext(target, _, _) => target
    case HeadCas(cur, _) => cur
    case SeekReload(target) => target
    case Mark(_, cur, _) => cur
    case CheckPrev(_, cur, _) => cur
    case CheckNext(_, cur, _) => cur
    case Unmark(cur) => cur
    case Unlink(_, cur, _) => cur
    case _ => NIL
  }

  predicate Seeks(p: Point) {
    p.SeekNext? || p.HeadCas? || p.SeekReload? || p.Mark? || p.CheckPrev? || p.CheckNext? || p.Unmark? || p.Unlink?
  }

  /** The action begins a `try_rent`. */
  predicate BeginsSeek(s: Pool, renters: set<Thread>, a: Action) {
    a.TryRent? && a.t in renters && At(s, a.t).Idle? && a.target < |s.next|
  }

  /** What thread `t` last called `try_rent` with. */
  function Wanted(s: Pool, renters: set<Thread>, acts: seq<Action>, t: Thread): int
    decreases |acts|
  {
    if acts == [] then NIL
    else
      var before, a := acts[..|acts| - 1], acts[|acts| - 1];
      if BeginsSeek(Run(s, renters, before), renters, a) && a.t == t then a.target
      else Wanted(s, renters, before, t)
  }

  lemma GoKeepsTarget(s: Pool, t: Thread, spurious: bool)
    requires Seeks(At(s, t))
    ensures
      var p := At(GoStep(s, t, spurious), t);
      p.Idle? || (Seeks(p) && TargetOf(p) == TargetOf(At(s, t)))
  {
    match At(s, t) {
      case SeekNext(_, _, _) =>
      case HeadCas(_, _) =>
      case SeekReload(_) =>
      case CheckPrev(_, _, _) =>
      case CheckNext(_, _, _) =>
      case _ =>
    }
  }

  /** No other point leads into a search. */
  lemma GoBeginsNoSeek(s: Pool, t: Thread, spurious: bool)
    requires !Seeks(At(s, t))
    ensures !Seeks(At(GoStep(s, t, spurious), t))
  {
    match At(s, t) {
      case RentNext(_) =>
      case RentCas(_, _) =>
      case RentReload =>
      case RentMark(_) =>
      case _ =>
    }
  }

  lemma OthersDoNotMove(s: Pool, renters: set<Thread>, a: Action, t: Thread)
    requires a.t != t
    ensures At(Step(s, renters, a), t) == At(s, t)
  {
    if a.Go? { GoMovesOnly(s, a.t, a.spurious, t); }
  }

  lemma GoMovesOnly(s: Pool, u: Thread, spurious: bool, t: Thread)
    requires u != t
    ensures At(GoStep(s, u, spurious), t) == At(s, t)
  {
    match At(s, u) {
      case Idle =>
      case RentNext(_) =>
      case RentCas(_, _) =>
      case SeekNext(_, _, _) =>
      case HeadCas(_, _) =>
      case ReturnCas(_) =>
      case ReturnSwing(_, _) =>
      case _ =>
    }
  }

  lemma StepKeepsTarget(s: Pool, renters: set<Thread>, a: Action, t: Thread, wanted: int)
    requires Seeks(At(s, t)) ==> TargetOf(At(s, t)) == wanted
    ensures
      var wanted', p := if BeginsSeek(s, renters, a) && a.t == t then a.target else wanted, At(Step(s, renters, a), t);
      Seeks(p) ==> TargetOf(p) == wanted'
  {
    if a.t != t {
      OthersDoNotMove(s, renters, a, t);
    } else if a.Go? {
      if Seeks(At(s, t)) { GoKeepsTarget(s, t, a.spurious); } else { GoBeginsNoSeek(s, t, a.spurious); }
    }
  }

  lemma {:induction false} SeeksWanted(s: Pool, renters: set<Thread>, acts: seq<Action>, t: Thread)
    requires !Seeks(At(s, t))
    ensures
      var p := At(Run(s, renters, acts), t);
      Seeks(p) ==> TargetOf(p) == Wanted(s, renters, acts, t)
    decreases |acts|
  {
    if acts != [] {
      var before := acts[..|acts| - 1];
      SeeksWanted(s, renters, before, t);
      StepKeepsTarget(Run(s, renters, before), renters, acts[|acts| - 1], t, Wanted(s, renters, before, t));
    }
  }

  /** What one step of a search gives its caller. */
  lemma SeekGives(s: Pool, t: Thread, spurious: bool)
    requires Seeks(At(s, t))
    ensures
      var s' := GoStep(s, t, spurious);
      if !At(s', t).Idle? || At(s, t).SeekNext? || At(s, t).SeekReload? then s'.held == s.held
      else s'.held == s.held + multiset{TargetOf(At(s, t))}
  {
    match At(s, t) {
      case HeadCas(_, _) =>
      case Unlink(_, _, _) =>
      case SeekNext(_, _, _) =>
      case _ =>
    }
  }

  /** In every run, however many threads rent: `try_rent` gives its caller the ID it asked for, in its last
      action, or nothing at all.  It gives it when its exchange at the head succeeds or it unlinks the ID, and
      gives nothing only at the end of a list. */
  lemma {:induction false} TryRentGivesItsTarget(
    n: nat, renters: set<Thread>, acts: seq<Action>, t: Thread, spurious: bool)
    requires n > 0 && Seeks(At(Reached(n, renters, acts), t))
    ensures
      var s := Reached(n, renters, acts);
      var s' := Step(s, renters, Go(t, spurious));
      && (if !At(s', t).Idle? then s'.held == s.held
          else if At(s, t).SeekNext? || At(s, t).SeekReload? then s'.held == s.held
          else s'.held == s.held + multiset{Wanted(Init(n), renters, acts, t)})
  {
    SeeksWanted(Init(n), renters, acts, t);
    SeekGives(Reached(n, renters, acts), t, spurious);
  }

  /** With one renter the two links a `try_rent` checks again after marking its ID are always as it loaded
      them: returns put IDs only in front.  It therefore never takes its mark back. */
  lemma {:induction false} ChecksNeverFail(n: nat, renters: set<Thread>, acts: seq<Action>, t: Thread)
    requires n > 0 && OneRenter(renters)
    ensures
      var s := Reached(n, renters, acts);
      match At(s, t)
      case CheckPrev(prev, cur, next) => Load(s.next, prev, NIL) == cur
      case CheckNext(prev, cur, next) => Load(s.next, cur, NIL) == next
      case Unmark(_) => false
      case _ => true
  {
    RunKeepsInv(n, renters, acts);
    var s, v := Reached(n, renters, acts), ReachedView(n, renters, acts);
    if t in s.points { assert PointOk(s.points[t], s.next, v.free); }
  }

  // ---- rent and returns -----------------------------------------------------------------------

  /** With one renter `rent` ends in two ways only: it gives its caller an ID that its exchange took out of
      the free list, marked in use, in its last action, or it loads the head again and no ID is free.  A lost
      exchange does not end it. */
  lemma {:induction false} RentGivesAFreeId(n: nat, renters: set<Thread>, acts: seq<Action>, t: Thread, spurious: bool)
    requires n > 0 && OneRenter(renters) && InRent(At(Reached(n, renters, acts), t))
    ensures
      var s, v := Reached(n, renters, acts), ReachedView(n, renters, acts);
      var s' := Step(s, renters, Go(t, spurious));
      && s'.held == s.held
      && (At(s', t).Idle? ==> At(s, t).RentReload? && v.free == [])
      && (!At(s', t).Idle? && !InRent(At(s', t)) ==> At(s', t).RentMark?)
      && (At(s', t).RentMark? ==>
            var id := At(s', t).id;
            && id in v.free && 0 <= id < n
            && Step(s', renters, Go(t, spurious)).held == s.held + multiset{id}
            && Load(Step(s', renters, Go(t, spurious)).inUse, id, false)
            && At(Step(s', renters, Go(t, spurious)), t).Idle?)
  {
    RunKeepsInv(n, renters, acts);
    SizeIsFixed(n, renters, acts);
    var s, v := Reached(n, renters, acts), ReachedView(n, renters, acts);
    assert PointOk(s.points[t], s.next, v.free);
    ChainRange(s.head, s.next, v.free);
  }

  /** The action in which a return ends: it has put its ID at the head of the free list, or has thrown and
      left it with its caller. */
  ghost predicate Returned(s: Pool, v: View, s': Pool, v': View, t: Thread) {
    var id := HandOf(At(s, t));
    if !At(s', t).Idle? then s'.held == s.held && v'.free == v.free && HandOf(At(s', t)) == id
    else if At(s, t).ReturnCas? then s'.held == s.held + multiset{id} && v'.free == v.free
    else s'.held == s.held && v'.free == [id] + v.free && s'.head == id
  }

  lemma ReturnBegins(s: Pool, v: View, t: Thread, spurious: bool)
    requires At(s, t).ReturnCas? || At(s, t).ReturnHead?
    ensures Returned(s, v, GoStep(s, t, spurious), ViewGo(s, v, t, spurious), t)
  {
  }

  lemma ReturnEnds(s: Pool, v: View, t: Thread, spurious: bool)
    requires At(s, t).ReturnLink? || At(s, t).ReturnSwing?
    ensures Returned(s, v, GoStep(s, t, spurious), ViewGo(s, v, t, spurious), t)
  {
  }

  /** In every run a return gives up its ID for good when it ends, or throws with the ID still its caller's. */
  lemma {:induction false} ReturnPutsItsId(n: nat, renters: set<Thread>, acts: seq<Action>, t: Thread, spurious: bool)
    requires n > 0
    requires
      var p := At(Reached(n, renters, acts), t);
      p.ReturnCas? || p.ReturnHead? || p.ReturnLink? || p.ReturnSwing?
    ensures
      var s, v := Reached(n, renters, acts), ReachedView(n, renters, acts);
      Returned(s, v, Step(s, renters, Go(t, spurious)), ViewStep(s, v, renters, Go(t, spurious)), t)
  {
    var s, v := Reached(n, renters, acts), ReachedView(n, renters, acts);
    if At(s, t).ReturnCas? || At(s, t).ReturnHead? {
      ReturnBegins(s, v, t, spurious);
    } else {
      ReturnEnds(s, v, t, spurious);
    }
  }
}
