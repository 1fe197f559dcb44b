/** Singly linked lists threaded through an array of `next` indices.

    Both lock-free structures of the library, the subscription bag and the ID pool, keep their lists
    this way.  A list is described by its head and by the sequence of node indices it visits. */
module Chains {

  /** The null link: the value `static_cast<size_t>(-1)` of the bag and `nullptr` of the pool. */
  const NIL := -1

  function Load<T>(cells: seq<T>, i: int, default: T): T {
    if 0 <= i < |cells| then cells[i] else default
  }

  function Store<T>(cells: seq<T>, i: int, x: T): (r: seq<T>)
    ensures |r| == |cells|
  {
    if 0 <= i < |cells| then cells[i := x] else cells
  }

  /** `l` is the list that starts at `head`: following `next` visits exactly `l` and then stops. */
  ghost predicate Chain(head: int, next: seq<int>, l: seq<int>)
    decreases |l|
  {
    if l == [] then head == NIL
    else head == l[0] && 0 <= head < |next| && Chain(next[head], next, l[1..])
  }

  ghost predicate NoDuplicates(l: seq<int>) {
    forall i, j | 0 <= i < j < |l| :: l[i] != l[j]
  }

  lemma {:induction false} ChainRange(head: int, next: seq<int>, l: seq<int>)
    requires Chain(head, next, l)
    ensures forall x | x in l :: 0 <= x < |next|
    decreases |l|
  {
    if l != [] {
      ChainRange(next[head], next, l[1..]);
      assert l == [head] + l[1..];
    }
  }

  /** Stores outside a list leave it alone. */
  lemma {:induction false} ChainFrame(head: int, next: seq<int>, next': seq<int>, l: seq<int>)
    requires Chain(head, next, l) && |next| == |next'|
    requires forall x | x in l && 0 <= x < |next| :: next'[x] == next[x]
    ensures Chain(head, next', l)
    decreases |l|
  {
    if l != [] {
      assert l[0] in l;
      forall x | x in l[1..] ensures x in l { }
      ChainFrame(next[head], next, next', l[1..]);
    }
  }

  /** The list of a head is determined by the links. */
  lemma {:induction false} ChainUnique(head: int, next: seq<int>, l: seq<int>, l': seq<int>)
    requires Chain(head, next, l) && Chain(head, next, l')
    ensures l == l'
    decreases |l|
  {
    if l != [] {
      ChainUnique(next[head], next, l[1..], l'[1..]);
      assert l == [head] + l[1..] && l' == [head] + l'[1..];
    }
  }

  lemma {:induction false} ChainSuffix(head: int, next: seq<int>, l: seq<int>, i: nat)
    requires Chain(head, next, l) && i <= |l|
    ensures Chain(if i < |l| then l[i] else NIL, next, l[i..])
    decreases i
  {
    if i == 0 {
      assert l[0..] == l;
    } else {
      ChainSuffix(next[head], next, l[1..], i - 1);
      assert l[1..][i - 1..] == l[i..];
    }
  }

  /** A list that ends never visits a node twice. */
  lemma {:induction false} ChainAcyclic(head: int, next: seq<int>, l: seq<int>)
    requires Chain(head, next, l)
    ensures NoDuplicates(l)
  {
    forall i, j | 0 <= i < j < |l| ensures l[i] != l[j] {
      if l[i] == l[j] {
        ChainSuffix(head, next, l, i);
        ChainSuffix(head, next, l, j);
        assert |l[i..]| != |l[j..]|;
        ChainUnique(l[i], next, l[i..], l[j..]);
        assert false;
      }
    }
  }

  /** The link stored in a list node is the following node. */
  lemma ChainNext(head: int, next: seq<int>, l: seq<int>, i: nat)
    requires Chain(head, next, l) && i < |l|
    ensures 0 <= l[i] < |next|
    ensures next[l[i]] == if i + 1 < |l| then l[i + 1] else NIL
  {
    ChainSuffix(head, next, l, i);
    assert l[i..] != [];
    assert Chain(next[l[i]], next, l[i..][1..]);
    assert l[i..][1..] == l[i + 1..];
    if i + 1 < |l| { assert l[i + 1..][0] == l[i + 1]; }
  }

  /** A node linked to the head of a list is the head of a longer one. */
  lemma ChainPush(head: int, next: seq<int>, l: seq<int>, n: int)
    requires Chain(head, next, l)
    requires 0 <= n < |next| && next[n] == head
    ensures Chain(n, next, [n] + l)
  {
    assert ([n] + l)[1..] == l;
  }

  /** Overwriting the link of the predecessor removes exactly one node. */
  lemma {:induction false} ChainUnlink(head: int, next: seq<int>, l: seq<int>, i: nat)
    requires Chain(head, next, l) && 0 < i < |l|
    requires 0 <= l[i] < |next| && 0 <= l[i - 1] < |next|
    ensures Chain(head, next[l[i - 1] := next[l[i]]], l[..i] + l[i + 1..])
    decreases i
  {
    var next' := next[l[i - 1] := next[l[i]]];
    ChainAcyclic(head, next, l);
    if i == 1 {
      ChainSuffix(head, next, l, 2);
      ChainNext(head, next, l, 1);
      ChainFrame(next[l[1]], next, next', l[2..]);
      assert (l[..1] + l[2..])[1..] == l[2..];
    } else {
      var t := l[1..];
      assert t[i - 1] == l[i] && t[i - 2] == l[i - 1];
      ChainUnlink(next[head], next, t, i - 1);
      assert (l[..i] + l[i + 1..])[1..] == t[..i - 1] + t[i..];
      assert next'[head] == next[head];
    }
  }

  lemma TailHasNoDuplicates(l: seq<int>)
    requires NoDuplicates(l) && l != []
    ensures NoDuplicates(l[1..]) && l[0] !in l[1..]
  {
    var t := l[1..];
    forall a, b | 0 <= a < b < |t| ensures t[a] != t[b] { assert l[a + 1] != l[b + 1]; }
    forall k | 0 <= k < |t| ensures t[k] != l[0] { assert l[k + 1] != l[0]; }
  }

  lemma {:induction false} NodeCount(l: seq<int>)
    requires NoDuplicates(l)
    ensures |set x | x in l| == |l|
  {
    if l != [] {
      TailHasNoDuplicates(l);
      NodeCount(l[1..]);
      assert (set x | x in l) == (set x | x in l[1..]) + {l[0]} by { assert l == [l[0]] + l[1..]; }
    }
  }

  function Below(n: nat): (r: set<int>)
    ensures |r| == n && forall x :: x in r <==> 0 <= x < n
  {
    if n == 0 then {} else Below(n - 1) + {n - 1}
  }

  /** A list without duplicates that names every node below `n`, and nothing else, has length `n`. */
  lemma AllNodes(l: seq<int>, n: nat)
    requires NoDuplicates(l)
    requires forall x :: x in l <==> 0 <= x < n
    ensures |l| == n
  {
    NodeCount(l);
    assert (set x | x in l) == Below(n);
  }

  /** `l` without its first occurrence of `x`. */
  function Without<T(==)>(l: seq<T>, x: T): seq<T> {
    if l == [] then [] else if l[0] == x then l[1..] else [l[0]] + Without(l[1..], x)
  }

  lemma {:induction false} WithoutFirst(l: seq<int>, i: nat)
    requires i < |l| && forall j | 0 <= j < i :: l[j] != l[i]
    ensures Without(l, l[i]) == l[..i] + l[i + 1..]
  {
    if i > 0 {
      var t := l[1..];
      forall j | 0 <= j < i - 1 ensures t[j] != t[i - 1] { assert l[j + 1] != l[i]; }
      WithoutFirst(t, i - 1);
      assert [l[0]] + (t[..i - 1] + t[i..]) == l[..i] + l[i + 1..];
    }
  }

  lemma OnlyHere(l: seq<int>, i: nat)
    requires NoDuplicates(l) && i < |l|
    ensures l[i] !in l[..i] && l[i] !in l[i + 1..]
  {
    forall k | i + 1 <= k < |l| ensures l[k] != l[i] { }
  }

  lemma SplitAround(l: seq<int>, i: nat)
    requires i < |l|
    ensures l == l[..i] + [l[i]] + l[i + 1..]
  {
  }

  lemma AllButOne(before: seq<int>, x: int, after: seq<int>)
    requires x !in before && x !in after
    ensures Without(before + [x] + after, x) == before + after
    ensures forall n :: n in before + after <==> n in before + [x] + after && n != x
  {
    var l := before + [x] + after;
    forall j | 0 <= j < |before| ensures l[j] != x { assert l[j] == before[j]; }
    WithoutFirst(l, |before|);
    assert l[..|before|] == before && l[|before| + 1..] == after;
  }

  /** Unlinking a node takes out exactly that node. */
  lemma WithoutNode(l: seq<int>, i: nat)
    requires NoDuplicates(l) && i < |l|
    ensures Without(l, l[i]) == l[..i] + l[i + 1..]
    ensures forall n :: n in Without(l, l[i]) <==> n in l && n != l[i]
  {
    OnlyHere(l, i);
    SplitAround(l, i);
    AllButOne(l[..i], l[i], l[i + 1..]);
  }

  /** A node whose link is another node stands right before it. */
  lemma Neighbours(head: int, next: seq<int>, l: seq<int>, prev: int, cur: int) returns (i: nat)
    requires Chain(head, next, l) && prev in l && cur != NIL && Load(next, prev, NIL) == cur
    ensures i + 1 < |l| && l[i] == prev && l[i + 1] == cur
    ensures 0 <= prev < |next| && 0 <= cur < |next|
  {
    i :| 0 <= i < |l| && l[i] == prev;
    ChainNext(head, next, l, i);
    ChainNext(head, next, l, i + 1);
  }

  /** Overwriting the link of the predecessor of a node takes that node out of the list. */
  lemma UnlinkNode(head: int, next: seq<int>, l: seq<int>, i: nat)
    requires Chain(head, next, l) && 0 < i < |l|
    requires 0 <= l[i] < |next| && 0 <= l[i - 1] < |next|
    ensures Chain(head, next[l[i - 1] := next[l[i]]], Without(l, l[i]))
    ensures forall n :: n in Without(l, l[i]) <==> n in l && n != l[i]
  {
    ChainAcyclic(head, next, l);
    WithoutNode(l, i);
    ChainUnlink(head, next, l, i);
  }

  /** Every node linked to the one after it: how both constructors lay out their free list. */
  lemma {:induction false} InitialChain(next: seq<int>, from: nat)
    requires from <= |next|
    requires forall i | 0 <= i < |next| :: next[i] == if i + 1 < |next| then i + 1 else NIL
    ensures Chain(if from < |next| then from else NIL, next, seq(|next| - from, i => from + i))
    decreases |next| - from
  {
    if from < |next| {
      InitialChain(next, from + 1);
      var l := seq(|next| - from, i => from + i);
      assert l[1..] == seq(|next| - (from + 1), i => from + 1 + i);
    }
  }

  lemma SubsetSize(a: set<int>, b: set<int>)
    requires a <= b
    ensures |a| <= |b|
  {
    assert b == a + (b - a);
  }
}
