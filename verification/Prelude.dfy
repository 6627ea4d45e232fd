/** Shared vocabulary: optional and fallible values, machine-width numbers and
    the division facts the resampler and the capacity plan rest on. */
module Prelude {

  datatype Option<+T> = None | Some(value: T)

  datatype Result<+T, +E> = Ok(value: T) | Err(error: E)

  /** The `NonZero` integers of the program. */
  type Positive = n: nat | n > 0 witness 1

  const U64_MAX: nat := 0xFFFF_FFFF_FFFF_FFFF

  type u64 = n: nat | n <= U64_MAX

  /** `saturating_add` and friends: an exact value clamped into 64 bits. */
  function Sat(n: nat): u64 {
    if n <= U64_MAX then n else U64_MAX
  }

  lemma SatTwice(a: nat, b: nat)
    ensures Sat(Sat(a) + b) == Sat(a + b)
  {
  }

  function Min(a: nat, b: nat): nat {
    if a <= b then a else b
  }

  function CeilDiv(a: nat, b: Positive): nat {
    (a + b - 1) / b
  }

  lemma MulMonotone(a: nat, b: nat, c: nat)
    requires a <= b
    ensures a * c <= b * c
  {
  }

  lemma FloorAtLeast(k: nat, a: nat, b: Positive)
    ensures k * b <= a <==> k <= a / b
  {
    var q := a / b;
    assert q * b <= a < (q + 1) * b;
    if k <= q {
      MulMonotone(k, q, b);
    } else {
      MulMonotone(q + 1, k, b);
    }
  }

  lemma CeilAtMost(a: nat, b: Positive, i: nat)
    ensures CeilDiv(a, b) <= i <==> a <= i * b
  {
    var c := CeilDiv(a, b);
    assert c * b <= a + b - 1 < (c + 1) * b;
    assert (c + 1) * b == c * b + b;
    if c <= i {
      MulMonotone(c, i, b);
    } else {
      MulMonotone(i + 1, c, b);
      assert (i + 1) * b == i * b + b;
    }
  }

  lemma Distribute(a: int, b: int, c: int)
    ensures (a - b) * c == a * c - b * c
    ensures (a + b) * c == a * c + b * c
  {
  }

  /** Two cursors less than a ring apart that fall on one slot are one cursor. */
  lemma SameSlot(a: nat, b: nat, n: Positive)
    requires a <= b < a + n
    requires a % n == b % n
    ensures a == b
  {
    var qa, qb := a / n, b / n;
    Distribute(qb, qa, n);
    var t := qb - qa;
    assert b - a == t * n;
    if t >= 1 {
      MulMonotone(1, t, n);
    } else if t <= -1 {
      MulMonotone(1, -t, n);
      Distribute(0, t, n);
    }
  }

  lemma Regroup<T>(a: seq<T>, b: seq<T>, c: seq<T>)
    ensures (a + b) + c == a + (b + c)
  {
  }

  lemma SamePrefix<T>(a: seq<T>, b: seq<T>, n: nat)
    requires a <= b && n <= |a|
    ensures a[..n] == b[..n]
  {
  }
}
