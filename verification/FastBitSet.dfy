/** A set of bits with a heap-shaped tree of ANDs above it, so that completeness is one comparison. */
module BitSet {

  /** A 64-bit block, as the set of the positions of its ones: `|`, `&` and `~` of the source are
      union, intersection and complement below WIDTH. */
  type Block = set<nat>

  const WIDTH := 64

  /** The bits from `lo` up to but not including `hi`; `~0` is all of them. */
  function Ones(lo: nat, hi: nat): (r: Block)
    ensures forall i :: i in r <==> lo <= i < hi
  {
    if hi <= lo then {} else Ones(lo, hi - 1) + {hi - 1}
  }

  function All(): Block {
    Ones(0, WIDTH)
  }

  /** Every number below `n` is in `s`. */
  predicate Full(s: set<nat>, n: nat) {
    forall i: nat | i < n :: i in s
  }

  /** Nodes 0 .. first - 1 are internal, nodes first .. 2 * first are the leaves. */
  ghost predicate AndTree(t: seq<Block>, first: nat) {
    |t| == 2 * first + 1 && forall i | 0 <= i < first :: Joined(t, i)
  }

  /** Node `i` is the AND of its two children. */
  ghost predicate Joined(t: seq<Block>, i: nat) {
    2 * i + 2 < |t| && t[i] == t[2 * i + 1] * t[2 * i + 2]
  }

  ghost predicate Words(t: seq<Block>) {
    forall x | x in t :: x <= All()
  }

  predicate BitAt(t: seq<Block>, first: nat, b: nat) {
    first + b / WIDTH < |t| && b % WIDTH in t[first + b / WIDTH]
  }

  lemma {:induction false} FullDownwards(t: seq<Block>, first: nat, i: nat)
    requires AndTree(t, first) && All() <= t[0] && i < |t|
    ensures All() <= t[i]
  {
    if i > 0 {
      var parent := (i - 1) / 2;
      FullDownwards(t, first, parent);
      assert Joined(t, parent);
    }
  }

  lemma {:induction false} FullUpwards(t: seq<Block>, first: nat, i: nat)
    requires AndTree(t, first) && i < |t| && forall l | first <= l < |t| :: All() <= t[l]
    ensures All() <= t[i]
    decreases |t| - i
  {
    if i < first {
      assert Joined(t, i);
      FullUpwards(t, first, 2 * i + 1);
      FullUpwards(t, first, 2 * i + 2);
    }
  }

  /** The root is all ones exactly when every bit of every leaf is set. */
  lemma RootIsFull(t: seq<Block>, first: nat)
    requires AndTree(t, first) && Words(t)
    ensures t[0] == All() <==> forall b: nat | b < WIDTH * (first + 1) :: BitAt(t, first, b)
  {
    assert t[0] in t;
    if t[0] == All() {
      forall b: nat | b < WIDTH * (first + 1) ensures BitAt(t, first, b) {
        FullDownwards(t, first, first + b / WIDTH);
      }
    } else if forall b: nat | b < WIDTH * (first + 1) :: BitAt(t, first, b) {
      forall l | first <= l < |t| ensures All() <= t[l] {
        forall j | 0 <= j < WIDTH ensures j in t[l] {
          var b := WIDTH * (l - first) + j;
          assert b / WIDTH == l - first && b % WIDTH == j;
          assert BitAt(t, first, b);
        }
      }
      FullUpwards(t, first, 0);
    }
  }

  class FastBitSet {
    const numBits: nat
    const numLeafNodes: nat
    const firstLeafIndex: nat
    const tree: array<Block>

    ghost predicate Valid()
      reads this, tree
    {
      && numBits > 0 && numLeafNodes == (numBits + WIDTH - 1) / WIDTH
      && firstLeafIndex == numLeafNodes - 1
      && AndTree(tree[..], firstLeafIndex) && Words(tree[..])
      && forall b: nat | numBits <= b < WIDTH * numLeafNodes :: BitAt(tree[..], firstLeafIndex, b)
    }

    /** The abstract value: the bits that have been set. */
    ghost function Bits(): set<nat>
      reads this, tree
    {
      set b: nat | b < numBits && BitAt(tree[..], firstLeafIndex, b)
    }

    /** The padding of the last leaf starts out set, everything else clear. */
    constructor (bits: nat)
      requires bits > 0
      ensures Valid() && numBits == bits && Bits() == {} && fresh(tree)
    {
      numBits := bits;
      numLeafNodes := (bits + WIDTH - 1) / WIDTH;
      firstLeafIndex := (bits + WIDTH - 1) / WIDTH - 1;
      tree := new Block[2 * ((bits + WIDTH - 1) / WIDTH) - 1](i => {});
      new;
      var last := tree.Length - 1;
      if bits % WIDTH != 0 {
        tree[last] := tree[last] + Ones(bits % WIDTH, WIDTH);
      }
      InitialTree(tree[..], firstLeafIndex, bits);
    }

    /** A set of no bits throws: `null`. */
    static method Create(bits: nat) returns (s: FastBitSet?)
      ensures s == null <==> bits == 0
      ensures s != null ==> s.Valid() && s.numBits == bits && s.Bits() == {} && fresh(s) && fresh(s.tree)
    {
      if bits == 0 { return null; }
      s := new FastBitSet(bits);
    }

    /** Sets the bit and brings the tree up to date; false is the source's `out_of_range`. */
    method SetBit(index: nat) returns (ok: bool)
      requires Valid()
      modifies tree
      ensures Valid() && ok == (index < numBits)
      ensures Bits() == if ok then old(Bits()) + {index} else old(Bits())
    {
      if index >= numBits { return false; }
      var leafIndex := firstLeafIndex + index / WIDTH;
      ghost var before := tree[..];
      tree[leafIndex] := tree[leafIndex] + {index % WIDTH};
      OneMoreBit(before, tree[..], firstLeafIndex, index);
      ghost var after := tree[..];
      UpdateParents(leafIndex);
      SameLeaves(after, tree[..], firstLeafIndex);
      return true;
    }

    /** Recomputes the ancestors of a leaf, stopping at the first that does not change. */
    method UpdateParents(leafIndex: nat)
      requires tree.Length == 2 * firstLeafIndex + 1 && firstLeafIndex <= leafIndex < tree.Length
      requires Words(tree[..])
      requires forall i | 0 <= i < firstLeafIndex && 2 * i + 1 != leafIndex && 2 * i + 2 != leafIndex ::
                 Joined(tree[..], i)
      modifies tree
      ensures AndTree(tree[..], firstLeafIndex) && Words(tree[..])
      ensures forall l | firstLeafIndex <= l < tree.Length :: tree[l] == old(tree[l])
    {
      var current := leafIndex;
      while current > 0
        invariant 0 <= current < tree.Length && Words(tree[..])
        invariant forall i | 0 <= i < firstLeafIndex && 2 * i + 1 != current && 2 * i + 2 != current ::
                    Joined(tree[..], i)
        invariant forall l | firstLeafIndex <= l < tree.Length :: tree[l] == old(tree[l])
      {
        var parent := (current - 1) / 2;
        var leftChild, rightChild := 2 * parent + 1, 2 * parent + 2;
        ghost var before := tree[..];
        var oldValue := tree[parent];
        tree[parent] := tree[leftChild] * tree[rightChild];
        Rejoined(before, tree[..], firstLeafIndex, current, parent);
        if oldValue == tree[parent] {
          assert tree[..] == before;
          break;
        }
        current := parent;
      }
    }

    /** `None` is the source's `out_of_range`. */
    method GetBit(index: nat) returns (ok: bool, bit: bool)
      requires Valid()
      ensures ok == (index < numBits) && bit == (index in Bits())
    {
      if index >= numBits { return false, false; }
      var leafIndex := firstLeafIndex + index / WIDTH;
      return true, index % WIDTH in tree[leafIndex];
    }

    method IsComplete() returns (complete: bool)
      requires Valid()
      ensures complete == Full(Bits(), numBits)
    {
      RootIsFull(tree[..], firstLeafIndex);
      assert forall b: nat :: b in Bits() <==> b < numBits && BitAt(tree[..], firstLeafIndex, b);
      complete := tree[0] == All();
    }
  }

  /** Where the padding of the last leaf begins. */
  lemma LastLeaf(first: nat, bits: nat, b: nat)
    requires bits > 0 && first + 1 == (bits + WIDTH - 1) / WIDTH && b < WIDTH * (first + 1)
    ensures b >= bits ==> b / WIDTH == first && bits % WIDTH != 0 && bits % WIDTH <= b % WIDTH
    ensures b < bits && b / WIDTH == first && bits % WIDTH != 0 ==> b % WIDTH < bits % WIDTH
    ensures b < bits ==> b / WIDTH <= first
  {
  }

  lemma InitialTree(t: seq<Block>, first: nat, bits: nat)
    requires bits > 0 && first + 1 == (bits + WIDTH - 1) / WIDTH && |t| == 2 * first + 1
    requires forall i | 0 <= i < 2 * first :: t[i] == {}
    requires t[2 * first] == if bits % WIDTH == 0 then {} else Ones(bits % WIDTH, WIDTH)
    ensures AndTree(t, first) && Words(t)
    ensures forall b: nat | b < bits :: !BitAt(t, first, b)
    ensures forall b: nat | bits <= b < WIDTH * (first + 1) :: BitAt(t, first, b)
  {
    forall i | 0 <= i < first ensures Joined(t, i) { }
    assert t[2 * first] <= All();
    forall x | x in t ensures x <= All() {
      var i :| 0 <= i < |t| && t[i] == x;
      assert i < 2 * first || i == 2 * first;
    }
    forall b: nat | bits <= b < WIDTH * (first + 1) ensures BitAt(t, first, b) {
      LastLeaf(first, bits, b);
    }
    forall b: nat | b < bits ensures !BitAt(t, first, b) {
      LastLeaf(first, bits, b);
    }
  }

  /** The bits are those of the leaves. */
  lemma SameLeaves(t: seq<Block>, t': seq<Block>, first: nat)
    requires |t'| == |t| && forall l | first <= l < |t| :: t'[l] == t[l]
    ensures forall b: nat :: BitAt(t', first, b) <==> BitAt(t, first, b)
  {
  }

  /** One block gains one bit: one bit of the set is gained, and only its parent may now be wrong. */
  lemma OneMoreBit(t: seq<Block>, t': seq<Block>, first: nat, index: nat)
    requires |t'| == |t| == 2 * first + 1 && first + index / WIDTH < |t| && Words(t)
    requires t' == t[first + index / WIDTH := t[first + index / WIDTH] + {index % WIDTH}]
    ensures Words(t') && forall b: nat :: BitAt(t', first, b) <==> BitAt(t, first, b) || b == index
    ensures forall i | 0 <= i < first && Joined(t, i) && 2 * i + 1 != first + index / WIDTH
                       && 2 * i + 2 != first + index / WIDTH :: Joined(t', i)
  {
    forall x | x in t' ensures x <= All() {
      var k :| 0 <= k < |t'| && t'[k] == x;
      assert t[k] in t;
    }
    forall b: nat ensures BitAt(t', first, b) <==> BitAt(t, first, b) || b == index {
      assert b == index <==> b / WIDTH == index / WIDTH && b % WIDTH == index % WIDTH;
    }
  }

  /** Recomputing the parent of `current` repairs it; its own parent is the only one that may break. */
  lemma Rejoined(t: seq<Block>, t': seq<Block>, first: nat, current: nat, parent: nat)
    requires |t'| == |t| == 2 * first + 1 && 0 < current < |t| && parent == (current - 1) / 2 && Words(t)
    requires t' == t[parent := t[2 * parent + 1] * t[2 * parent + 2]]
    requires forall i | 0 <= i < first && 2 * i + 1 != current && 2 * i + 2 != current :: Joined(t, i)
    ensures Words(t') && Joined(t', parent)
    ensures forall i | 0 <= i < first && 2 * i + 1 != parent && 2 * i + 2 != parent :: Joined(t', i)
    ensures t' == t ==> AndTree(t, first)
  {
    forall x | x in t' ensures x <= All() {
      var k :| 0 <= k < |t'| && t'[k] == x;
      assert t[k] in t && t[2 * parent + 1] in t;
    }
    forall i | 0 <= i < first && 2 * i + 1 != parent && 2 * i + 2 != parent ensures Joined(t', i) {
      if i != parent { assert Joined(t, i); }
    }
    if t' == t {
      forall i | 0 <= i < first ensures Joined(t, i) {
        if i != parent { assert 2 * i + 1 != current && 2 * i + 2 != current; }
      }
    }
  }
}
