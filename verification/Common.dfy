/** Results, the machine's size limits and the checked size arithmetic every component uses. */
module Common {
  datatype Option<+T> = None | Some(value: T)

  /** The exception classes the modelled code throws. */
  datatype Error =
    | InvalidArgument
    | OutOfRange
    | OverflowError
    | LogicError
    | BadAlloc
    | ArtifactError

  datatype Result<+T> = Ok(value: T) | Err(error: Error) {
    predicate IsFailure() { Err? }

    function PropagateFailure<U>(): Result<U>
      requires Err?
    {
      Err(error)
    }

    function Extract(): T
      requires Ok?
    {
      value
    }
  }

  /** std::numeric_limits<std::size_t>::max(), which is also the u64 limit. */
  const SIZE_MAX: nat := 0xFFFF_FFFF_FFFF_FFFF
  const UINT32_MAX: nat := 0xFFFF_FFFF
  const INT32_MAX: nat := 0x7FFF_FFFF

  function CheckedAdd(a: nat, b: nat): Result<nat> {
    if a + b > SIZE_MAX then Err(OverflowError) else Ok(a + b)
  }

  function CheckedMul(a: nat, b: nat): Result<nat> {
    if a * b > SIZE_MAX then Err(OverflowError) else Ok(a * b)
  }

  function AlignUp(value: nat, alignment: nat): nat
    requires alignment > 0
  {
    (value + alignment - 1) / alignment * alignment
  }

  /** The least multiple of the alignment that is not below the value. */
  lemma AlignUpIsLeast(value: nat, alignment: nat)
    requires alignment > 0
    ensures value <= AlignUp(value, alignment) < value + alignment
    ensures AlignUp(value, alignment) % alignment == 0
    ensures value % alignment == 0 ==> AlignUp(value, alignment) == value
  {
    var q := (value + alignment - 1) / alignment;
    MultipleMod(q, alignment);
    if value % alignment == 0 {
      MultipleDiv(value / alignment, alignment, alignment - 1);
      assert value + alignment - 1 == (value / alignment) * alignment + (alignment - 1);
    }
  }

  lemma MulAtLeast(k: int, n: int)
    requires k >= 1 && n > 0
    ensures k * n >= n
  {
    assert k * n == (k - 1) * n + n;
  }

  /** A multiple of n strictly between -n and n is zero. */
  lemma SmallMultiple(k: int, n: int)
    requires -n < k * n < n
    ensures k == 0
  {
    assert (-k) * n == -(k * n);
    if k >= 1 { MulAtLeast(k, n); } else if k <= -1 { MulAtLeast(-k, n); }
  }

  /** q * n + r divides back into q and r. */
  lemma MultipleDiv(q: nat, n: nat, r: nat)
    requires r < n
    ensures (q * n + r) / n == q && (q * n + r) % n == r
  {
    DivisionUnique(q * n + r, n, q, r, (q * n + r) / n, (q * n + r) % n);
  }

  lemma DivisionUnique(x: nat, n: nat, q: int, r: int, p: int, s: int)
    requires 0 <= r < n && 0 <= s < n && x == q * n + r && x == p * n + s
    ensures q == p && r == s
  {
    assert (q - p) * n == s - r;
    SmallMultiple(q - p, n);
  }

  lemma MultipleMod(q: nat, n: nat)
    requires n > 0
    ensures (q * n) % n == 0
  {
    MultipleDiv(q, n, 0);
  }

  lemma MulMonotone(a: nat, b: nat, n: nat)
    requires a <= b
    ensures a * n <= b * n
  {
  }

  lemma MulSum(a: nat, b: nat, n: nat)
    ensures (a + b) * n == a * n + b * n
  {
  }

  /** Multiples of an alignment add up to one. */
  lemma AlignedSum(a: nat, b: nat, alignment: nat)
    requires alignment > 0 && a % alignment == 0 && b % alignment == 0
    ensures (a + b) % alignment == 0
  {
    var p, q := a / alignment, b / alignment;
    assert a == p * alignment && b == q * alignment;
    MulSum(p, q, alignment);
    MultipleMod(p + q, alignment);
  }

  /** The overflow guard the code writes with a division. */
  lemma DivisionGuard(a: nat, b: nat, max: nat)
    requires b > 0
    ensures a <= max / b <==> a * b <= max
  {
    var q := max / b;
    assert max == q * b + max % b;
    if a <= q {
      MulMonotone(a, q, b);
    } else {
      MulMonotone(q + 1, a, b);
      assert (q + 1) * b == q * b + b;
    }
  }

  /** A product that passed the division guard neither overflows nor shrinks. */
  lemma GuardedProduct(a: nat, b: nat, max: nat)
    requires b > 0 && a <= max / b
    ensures a <= a * b <= max
  {
    DivisionGuard(a, b, max);
    MulMonotone(1, b, a);
  }

  /** std::upper_bound: the first item whose key is greater, in a list sorted by key. */
  function UpperBound<T>(key: T -> int, items: seq<T>, x: int): (k: nat)
    ensures k <= |items|
    ensures forall i :: 0 <= i < k ==> key(items[i]) <= x
    ensures k < |items| ==> key(items[k]) > x
  {
    if items == [] || key(items[0]) > x then 0 else 1 + UpperBound(key, items[1..], x)
  }

  function Min(a: int, b: int): int { if a <= b then a else b }

  function Max(a: int, b: int): int { if a >= b then a else b }
}
