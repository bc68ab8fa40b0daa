/** Index arithmetic of the EMAC rings. */
module EmacRing {

  /** The remainder of C: it has the sign of the dividend. */
  function CRem(a: int, n: nat): (r: int)
    requires n > 0
    ensures r < n && 0 < r + n
  {
    var b: int := n;
    if a >= 0 then a % b else -((-a) % b)
  }

  function CircCnt(head: nat, tail: nat, size: nat): int
    requires size > 0
  {
    CRem(head - tail, size)
  }

  function CircSpace(head: nat, tail: nat, size: nat): int
    requires size > 0
  {
    CircCnt(tail, head + 1, size)
  }

  function CircInc(i: nat, size: nat): nat
  {
    if i + 1 >= size then 0 else i + 1
  }

  /** Where the head is, or is about to be put: it is stored past the end before it is stored as 0. */
  function Settled(head: nat, size: nat): nat
  {
    if head >= size then 0 else head
  }

  /** The index `k` steps after `r`, for `k` up to a whole turn. */
  function Wrapped(r: nat, k: nat, n: nat): (i: nat)
    requires r < n && k <= n
    ensures i < n
  {
    if r + k < n then r + k else r + k - n
  }

  /** How many entries lie between tail and head. */
  function Between(head: nat, tail: nat, size: nat): (k: nat)
    requires head < size && tail < size
    ensures k < size && Wrapped(tail, k, size) == head
  {
    if tail <= head then head - tail else head + size - tail
  }

  lemma SmallMod(a: nat, n: nat)
    requires 0 < n && a < 2 * n
    ensures a % n == if a < n then a else a - n
  {
    if a >= n {
      assert a == n + (a - n);
      assert (a - n) % n == a - n;
      assert a % n == (a - n) % n;
    }
  }

  /** The two tests are exact although the remainder may be negative: no room exactly when
      `size - 1` entries are queued, something to drain exactly when at least one is. */
  lemma CircTests(head: nat, tail: nat, size: nat)
    requires head < size && tail < size
    ensures CircSpace(head, tail, size) == 0 <==> Between(head, tail, size) == size - 1
    ensures CircCnt(head, tail, size) != 0 <==> Between(head, tail, size) > 0
  {
    if tail >= head + 1 {
      SmallMod(tail - head - 1, size);
    } else {
      SmallMod(head + 1 - tail, size);
    }
    CircCntTest(head, tail, size);
  }

  /** The test for something to drain is exact even between the two stores of an increment. */
  lemma CircCntTest(head: nat, tail: nat, size: nat)
    requires head <= size && tail < size
    ensures CircCnt(head, tail, size) != 0 <==> Between(Settled(head, size), tail, size) > 0
  {
    if head >= tail {
      SmallMod(head - tail, size);
    } else {
      SmallMod(tail - head, size);
    }
  }

  /** As numbers they are right only while the head has not wrapped past the tail, and for the
      space, when it has or when the ring is full. */
  lemma CircCountsIff(head: nat, tail: nat, size: nat)
    requires head < size && tail < size
    ensures CircCnt(head, tail, size) == Between(head, tail, size) <==> tail <= head
    ensures CircSpace(head, tail, size) == size - 1 - Between(head, tail, size)
       <==> head < tail || (tail == 0 && head == size - 1)
  {
    if head >= tail {
      SmallMod(head - tail, size);
    } else {
      SmallMod(tail - head, size);
    }
    if tail >= head + 1 {
      SmallMod(tail - head - 1, size);
    } else {
      SmallMod(head + 1 - tail, size);
    }
  }

  lemma WrappedInjective(r: nat, j: nat, k: nat, n: nat)
    requires r < n && j < n && k < n
    ensures Wrapped(r, j, n) == Wrapped(r, k, n) <==> j == k
  {
  }

  /** Seen from one place further on, everything is one place nearer. */
  lemma FromNext(r: nat, k: nat, n: nat)
    requires r < n && k < n
    ensures CircInc(r, n) < n && Wrapped(CircInc(r, n), k, n) == if k + 1 < n then Wrapped(r, k + 1, n) else r
    ensures Wrapped(r, 0, n) == r
  {
  }

  lemma NoTurn(r: nat, n: nat)
    requires r < n
    ensures Wrapped(r, 0, n) == Wrapped(r, n, n) == r
  {
  }

  /** A place further on is the same place only after a whole turn. */
  lemma WholeTurn(r: nat, b: nat, k: nat, n: nat)
    requires r < n && b <= k < n
    ensures Wrapped(r, k + 1, n) == Wrapped(r, b, n) <==> b == 0 && k + 1 == n
  {
  }

  lemma BetweenUnique(tail: nat, k: nat, size: nat)
    requires tail < size && k < size
    ensures Between(Wrapped(tail, k, size), tail, size) == k
  {
  }

  /** The two stores of an increment, taken together. */
  lemma SettledIncrement(i: nat, size: nat)
    requires i < size
    ensures Settled(i + 1, size) == CircInc(i, size)
  {
  }

  /** An increment is a step round the ring. */
  lemma CircIncWraps(r: nat, k: nat, n: nat)
    requires r < n && k < n
    ensures CircInc(Wrapped(r, k, n), n) == Wrapped(r, k + 1, n)
    ensures CircInc(r, n) == (r + 1) % n
  {
    SmallMod(r + 1, n);
  }
}
