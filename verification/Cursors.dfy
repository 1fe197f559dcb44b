/** The reader's arithmetic: a cursor stands on the index it read last, in unsigned 64-bit words, so a
    cursor opened at 0 starts at 2^64 - 1. */
module Cursors {

  const WORD := 0x1_0000_0000_0000_0000

  /** Unsigned 64-bit subtraction. */
  function Minus(a: int, b: int): (r: nat)
    ensures r < WORD
  {
    (a - b) % WORD
  }

  /** `OpenCursor(at)`: the index before `at`. */
  function Open(at: nat): nat {
    Minus(at, 1)
  }

  /** `Remaining()` against a writer that has published `next` messages. */
  function Remaining(index: nat, next: nat): nat {
    Minus(Minus(next, index), 1)
  }

  /** The test of `TryRead`. */
  predicate CanRead(index: nat, next: nat) {
    Minus(next, index) > 1
  }

  /** The index after a successful `TryRead`. */
  function Advance(index: nat): nat {
    (index + 1) % WORD
  }

  lemma MinusSmall(a: int, b: int)
    ensures 0 <= a - b < WORD ==> Minus(a, b) == a - b
    ensures -WORD <= a - b < 0 ==> Minus(a, b) == a - b + WORD
  {
  }

  /** A cursor opened at `at` that has read `k` messages stands on `at + k - 1`, modulo 2^64. */
  function Standing(at: nat, k: nat): nat {
    Minus(at + k, 1)
  }

  /** For every start and every number of reads below overflow, with `next` messages published:
      `Remaining` is the number of messages not yet read, `TryRead` succeeds exactly when there is one,
      and then the cursor stands on the index of that message. */
  lemma CursorCounts(at: nat, k: nat, next: nat)
    requires at + k <= next < WORD - 1
    ensures Standing(at, 0) == Open(at)
    ensures Remaining(Standing(at, k), next) == next - (at + k)
    ensures CanRead(Standing(at, k), next) <==> next > at + k
    ensures Advance(Standing(at, k)) == at + k == Standing(at, k + 1)
  {
    var c := at + k;
    MinusSmall(c, 1);
    MinusSmall(next, Standing(at, k));
    MinusSmall(Minus(next, Standing(at, k)), 1);
  }

  /** The same for every cursor, also one that stands ahead of the writer: before it reads the message
      `c`, with `next` published. */
  lemma StandingCounts(c: nat, next: nat)
    requires c < WORD && next + 1 < WORD
    ensures c <= next ==> Remaining(Minus(c, 1), next) == next - c
    ensures c > next ==> Remaining(Minus(c, 1), next) == WORD - (c - next)
    ensures CanRead(Minus(c, 1), next) <==> next > c || c > next + 1
    ensures Advance(Minus(c, 1)) == c
  {
    MinusSmall(c, 1);
    MinusSmall(next, Minus(c, 1));
    MinusSmall(Minus(next, Minus(c, 1)), 1);
  }

  /** A cursor opened ahead of the writer only waits for it when it is at most one message ahead; any
      further ahead, `TryRead` succeeds at once on an index nothing has been published at. */
  lemma OpenedAhead(at: nat, next: nat)
    requires next < at < WORD
    ensures CanRead(Open(at), next) <==> at > next + 1
  {
    MinusSmall(at, 1);
    MinusSmall(next, at - 1);
  }

  lemma MultiplesApart(c: nat, a: nat, b: nat)
    ensures if b <= a then c * b <= c * a else c * b >= c * a + c
  {
    if b <= a {
      assert c * (a - b) >= 0;
    } else {
      assert c * (b - a - 1) >= 0;
    }
  }

  /** Indices less than `capacity` apart have different slots in a ring of that many. */
  lemma DistinctSlots(i: nat, j: nat, capacity: nat)
    requires i < j < i + capacity
    ensures i % capacity != j % capacity
  {
    var a, b := i / capacity, j / capacity;
    assert i == capacity * a + i % capacity && j == capacity * b + j % capacity;
    if i % capacity == j % capacity {
      MultiplesApart(capacity, a, b);
    }
  }
}
