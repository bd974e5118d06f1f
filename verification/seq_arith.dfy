/**
 * Sequence-number arithmetic of the selective-repeat protocol: the ring of
 * sequence numbers 0..MAX_SEQ, the circular window test `between` and the
 * cyclic successor `inc`.
 */
module SeqArith {

  /** Largest sequence number; the ring has MAX_SEQ + 1 = 8 elements. */
  const MAX_SEQ: int := 7
  const RING: int := MAX_SEQ + 1
  /** Number of buffer slots per direction: half the ring. */
  const NR_BUFS: int := RING / 2

  predicate InRing(n: int) {
    0 <= n <= MAX_SEQ
  }

  /**
   * Java's `%` on `int`: the remainder carries the sign of the dividend.
   * Dafny's `%` is Euclidean; the two agree on non-negative dividends.
   */
  function JavaRem(x: int, m: int): (r: int)
    requires m > 0
    ensures 0 <= x ==> 0 <= r < m
    ensures x < 0 ==> -m < r <= 0
    ensures x >= 0 ==> r == x % m
  {
    if x >= 0 then x % m else -((-x) % m)
  }

  /** On one or two turns of the ring, `%` is a single subtraction. */
  lemma SmallMod(x: int)
    requires -RING <= x < 2 * RING
    ensures x % RING == if x < 0 then x + RING else if x < RING then x else x - RING
  {
  }

  /** Number of forward steps from `a` to `b` around the ring. */
  function Dist(a: int, b: int): (d: int)
    ensures 0 <= d < RING
    ensures InRing(a) && InRing(b) ==> d == if a <= b then b - a else b - a + RING
  {
    if InRing(a) && InRing(b) then SmallMod(b - a); (b - a) % RING else (b - a) % RING
  }

  /**
   * `between(a, b, c)`: the three linear cases of "b lies in the circular
   * half-open interval [a, c)". For ring values this is exactly "b is fewer
   * steps from a than c is", and the interval [a, a) is empty.
   */
  function Between(a: int, b: int, c: int): (r: bool)
    ensures InRing(a) && InRing(b) && InRing(c) ==> (r <==> Dist(a, b) < Dist(a, c))
    ensures a == c ==> !r
  {
    (a <= b && b < c) || (c < a && a <= b) || (b < c && c < a)
  }

  /** `inc(n)`: the cyclic successor, computed with Java's `%`. */
  function Inc(n: int): (r: int)
    ensures InRing(n) ==> InRing(r) && Dist(n, r) == 1
    ensures n == MAX_SEQ ==> r == 0
    ensures 0 <= n < MAX_SEQ ==> r == n + 1
  {
    if InRing(n) then SmallMod(n + 1); JavaRem(n + 1, RING) else JavaRem(n + 1, RING)
  }

  /** The sequence number `n` steps after `x` on the ring. */
  function Forward(x: int, n: int): int {
    (x + n) % RING
  }

  /** The buffer slot a sequence number maps to. */
  function Slot(n: int): int {
    n % NR_BUFS
  }

  /**
   * Whether Java's `n % NR_BUFS` is a valid array index: `n` is
   * non-negative or a negative multiple of NR_BUFS. Any other negative `n`
   * gives a negative remainder, and the array access throws.
   */
  predicate SlotIndexable(n: int) {
    JavaRem(n, NR_BUFS) >= 0
  }

  /**
   * Java's `n % NR_BUFS` is a valid index exactly for the non-negative `n`
   * and the multiples of NR_BUFS, and then it is the slot of `n`.
   */
  lemma JavaSlot(n: int)
    ensures SlotIndexable(n) <==> 0 <= n || Slot(n) == 0
    ensures SlotIndexable(n) ==> JavaRem(n, NR_BUFS) == Slot(n)
  {
    if n < 0 {
      var q, r := (-n) / NR_BUFS, (-n) % NR_BUFS;
      assert -n == NR_BUFS * q + r;
      assert n == NR_BUFS * (-q - 1) + (NR_BUFS - r);
      if r == 0 {
        assert n == NR_BUFS * (-q);
      }
    }
  }

  /** `inc` applied `k` times. */
  function IncIter(n: int, k: nat): int
  {
    if k == 0 then n else Inc(IncIter(n, k - 1))
  }

  /** One more step adds one modulo the ring. */
  lemma ModSucc(x: int)
    requires 0 <= x
    ensures (x + 1) % RING == if x % RING == MAX_SEQ then 0 else x % RING + 1
  {
    var q, r := x / RING, x % RING;
    assert x == RING * q + r;
    assert x + 1 == RING * q + (r + 1);
    if r == MAX_SEQ {
      assert x + 1 == RING * (q + 1);
    }
  }

  /** Advancing `k` times lands `k` steps further round the ring. */
  lemma {:induction false} IncIterMod(n: int, k: nat)
    requires InRing(n)
    ensures IncIter(n, k) == (n + k) % RING
  {
    if k > 0 {
      IncIterMod(n, k - 1);
      ModSucc(n + k - 1);
    }
  }

  /** Applying `inc` RING times returns the starting value. */
  lemma {:induction false} IncFullCircle(n: int)
    requires InRing(n)
    ensures IncIter(n, RING) == n
  {
    IncIterMod(n, RING);
    SmallMod(n + RING);
  }

  /** Moving the target one step on lengthens the distance by one, round the ring. */
  lemma DistToInc(a: int, x: int)
    requires InRing(a) && InRing(x)
    ensures Dist(a, Inc(x)) == if Dist(a, x) == MAX_SEQ then 0 else Dist(a, x) + 1
  {
  }

  /** On a few turns of the slot ring, `%` is a subtraction. */
  lemma SlotSmall(x: int)
    requires -2 * NR_BUFS <= x < 3 * NR_BUFS
    ensures x % NR_BUFS == if x < -NR_BUFS then x + 2 * NR_BUFS else if x < 0 then x + NR_BUFS
                           else if x < NR_BUFS then x else if x < 2 * NR_BUFS then x - NR_BUFS else x - 2 * NR_BUFS
  {
  }

  /** Going `n` steps forward lands on the ring, `n` steps away. */
  lemma DistForward(a: int, n: int)
    requires InRing(a) && 0 <= n < RING
    ensures InRing(Forward(a, n)) && Dist(a, Forward(a, n)) == n
  {
    SmallMod(a + n);
  }

  /** A ring value is determined by its distance from a fixed start. */
  lemma DistInverse(a: int, x: int)
    requires InRing(a) && InRing(x)
    ensures x == Forward(a, Dist(a, x))
  {
    SmallMod(a + Dist(a, x));
  }

  /** Starting `k` steps later shortens the distance to `x` by `k`. */
  lemma DistShift(a: int, x: int, k: int)
    requires InRing(a) && InRing(x) && 0 <= k <= Dist(a, x)
    ensures Dist(Forward(a, k), x) == Dist(a, x) - k
  {
    SmallMod(a + k);
  }

  /** How many steps after `start` the slot `q` comes, round the slot ring. */
  function SlotOffset(start: int, q: int): int {
    (q - start) % NR_BUFS
  }

  /**
   * Within a window of NR_BUFS sequence numbers from `start`, the slot of a
   * number is as far after `start`'s slot as the number is after `start`.
   */
  lemma SlotOffsetIsDist(start: int, x: int)
    requires InRing(start) && InRing(x) && Dist(start, x) < NR_BUFS
    ensures SlotOffset(start, Slot(x)) == Dist(start, x)
  {
    SlotSmall(x);
    SlotSmall(Slot(x) - start);
  }

  /**
   * Two sequence numbers of the same window of NR_BUFS never share a slot:
   * the reason a window of half the ring fits NR_BUFS buffers.
   */
  lemma SlotInjective(start: int, x: int, y: int)
    requires InRing(start) && InRing(x) && InRing(y)
    requires Dist(start, x) < NR_BUFS && Dist(start, y) < NR_BUFS && Slot(x) == Slot(y)
    ensures x == y
  {
    SlotOffsetIsDist(start, x);
    SlotOffsetIsDist(start, y);
    DistInverse(start, x);
    DistInverse(start, y);
  }

  /** Starting `k` steps past `x` puts `x` behind the start, round the ring. */
  lemma DistShiftPast(a: int, x: int, k: int)
    requires InRing(a) && InRing(x) && Dist(a, x) < k <= RING
    ensures Dist(Forward(a, k), x) == Dist(a, x) - k + RING
  {
    SmallMod(a + k);
  }

  /** One more step forward is one application of `inc`. */
  lemma ForwardSucc(a: int, n: int)
    requires InRing(a) && 0 <= n < RING
    ensures Inc(Forward(a, n)) == Forward(a, n + 1)
  {
    SmallMod(a + n);
    SmallMod(a + n + 1);
  }

  /** Only whole turns of the ring are lost by reducing a count first. */
  lemma ModAddLeft(x: int, n: int)
    requires 0 <= x && 0 <= n
    ensures Forward(x % RING, n) == Forward(x, n)
  {
    var q := x / RING;
    assert x == RING * q + x % RING;
    var q2, r2 := (x % RING + n) / RING, (x % RING + n) % RING;
    assert x % RING + n == RING * q2 + r2;
    assert x + n == RING * (q + q2) + r2;
  }

  /** Going `a` steps and then `b` steps is going `a + b` steps. */
  lemma ForwardAdd(x: int, a: int, b: int)
    requires InRing(x) && 0 <= a && 0 <= b
    ensures Forward(Forward(x, a), b) == Forward(x, a + b)
  {
    ModAddLeft(x + a, b);
  }

  /** The slot `SlotOffset(start, q)` steps after `start` is `q` itself. */
  lemma SlotOfOffset(start: int, q: int)
    requires InRing(start) && 0 <= q < NR_BUFS
    ensures 0 <= SlotOffset(start, q) < NR_BUFS
    ensures Slot(Forward(start, SlotOffset(start, q))) == q
  {
    SlotSmall(q - start);
    SmallMod(start + SlotOffset(start, q));
    SlotSmall(Forward(start, SlotOffset(start, q)));
  }
}
