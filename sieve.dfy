/** `eratosthenes(limit)` from the split-benchmark function A: a list holding
    2..limit is sieved in place by zeroing the multiples of each surviving
    entry up to the square root of the limit, and the entries left non-zero
    are the primes. */
module Sieve {

  /** `int(math.sqrt(n))`, taken as the exact integer square root. */
  function ISqrt(n: nat): (r: nat)
    ensures r * r <= n < (r + 1) * (r + 1)
  {
    if n == 0 then 0
    else
      var s := ISqrt(n - 1);
      if (s + 1) * (s + 1) <= n then
        assert (s + 1) * (s + 1) == n;
        assert (s + 2) * (s + 2) == (s + 1) * (s + 1) + 2 * s + 3;
        s + 1
      else s
  }

  predicate IsPrime(n: int)
  {
    n >= 2 && forall d :: 2 <= d < n ==> n % d != 0
  }

  /** `n` has a divisor `d` with 2 <= d < bound and d * d <= n: the sieve has
      zeroed the slot of `n` once every p below `bound` has been processed. */
  ghost predicate Struck(n: int, bound: int)
  {
    exists d :: 2 <= d < bound && d * d <= n && n % d == 0
  }

  /** Quotient and remainder are unique. */
  lemma DivModUnique(a: int, p: int, q: int, r: int)
    requires p > 0 && 0 <= r < p && a == q * p + r
    ensures a / p == q && a % p == r
  {
    var q0, r0 := a / p, a % p;
    assert a == q0 * p + r0;
    assert (q - q0) * p == r0 - r;
    if q > q0 {
      MulAtLeast(q - q0, p);
    } else if q < q0 {
      MulAtLeast(q0 - q, p);
    }
  }

  lemma MulAtLeast(m: int, p: int)
    requires m >= 1 && p > 0
    ensures m * p >= p
  {
    assert m * p == (m - 1) * p + p;
  }

  /** Stepping from one multiple of p to the next skips no multiple. */
  lemma ModStep(a: int, p: int)
    requires p > 0 && a % p == 0
    ensures (a + p) % p == 0
  {
    var q := a / p;
    DivModUnique(a, p, q, 0);
    assert a + p == (q + 1) * p + 0;
    DivModUnique(a + p, p, q + 1, 0);
  }

  lemma ModBetween(a: int, p: int, t: int)
    requires p > 0 && a % p == 0 && 0 < t < p
    ensures (a + t) % p != 0
  {
    var q := a / p;
    DivModUnique(a, p, q, 0);
    assert a + t == q * p + t;
    DivModUnique(a + t, p, q, t);
  }

  /** Divisibility is transitive. */
  lemma DividesTrans(d: int, p: int, n: int)
    requires d > 0 && p > 0 && p % d == 0 && n % p == 0
    ensures n % d == 0
  {
    var a := p / d;
    var b := n / p;
    assert p == a * d;
    assert n == b * p;
    assert n == (b * a) * d + 0;
    DivModUnique(n, d, b * a, 0);
  }

  /** A multiple n >= p * p of a struck p is struck already: the sieve may skip
      entries that are already zero. */
  lemma StruckThroughFactor(p: int, n: int, bound: int)
    requires p >= 2 && Struck(p, bound) && p * p <= n && n % p == 0
    ensures Struck(n, bound)
  {
    var d :| 2 <= d < bound && d * d <= p && p % d == 0;
    DividesTrans(d, p, n);
    assert p <= p * p;
  }

  /** A divisor d of n with 2 <= d < n yields a divisor m >= 2 with m*m <= n. */
  lemma SmallDivisor(n: int, d: int) returns (m: int)
    requires 2 <= d < n && n % d == 0
    ensures 2 <= m && m * m <= n && n % m == 0
  {
    var e := n / d;
    DivModUnique(n, d, e, n % d);
    assert n == e * d;
    if d * d <= n {
      m := d;
    } else {
      m := e;
      assert e * e <= e * d;
      assert n == d * e + 0;
      DivModUnique(n, e, d, 0);
    }
  }

  lemma SquareBelow(m: int, s: int)
    requires 0 <= s && s < m
    ensures (s + 1) * (s + 1) <= m * m
  {
    assert s + 1 <= m;
    assert (s + 1) * (s + 1) <= (s + 1) * m;
    assert (s + 1) * m <= m * m;
  }

  lemma StruckIsComposite(n: int, bound: int)
    requires n >= 2 && Struck(n, bound)
    ensures !IsPrime(n)
  {
    var d :| 2 <= d < bound && d * d <= n && n % d == 0;
    MulAtLeast(d, d);
    assert d < n;
  }

  lemma CompositeIsStruck(n: int, limit: nat)
    requires 2 <= n <= limit && !IsPrime(n)
    ensures Struck(n, ISqrt(limit) + 1)
  {
    var s := ISqrt(limit);
    var d :| 2 <= d < n && n % d == 0;
    var m := SmallDivisor(n, d);
    if m > s { SquareBelow(m, s); }
    assert 2 <= m < s + 1 && m * m <= n && n % m == 0;
  }

  /** Within [2, limit] the entries the sieve strikes are exactly the
      composites. */
  lemma StruckIffComposite(n: int, limit: nat)
    requires 2 <= n <= limit
    ensures Struck(n, ISqrt(limit) + 1) <==> !IsPrime(n)
  {
    if Struck(n, ISqrt(limit) + 1) { StruckIsComposite(n, ISqrt(limit) + 1); }
    if !IsPrime(n) { CompositeIsStruck(n, limit); }
  }

  /** Slot k holds a multiple of p no smaller than p * p: the run for p zeroes it. */
  predicate Multiple(k: int, p: int)
    requires p > 0
  {
    p * p <= k + 2 && (k + 2) % p == 0
  }

  /** Slot k was zeroed by the run for p that has stepped up to index j. */
  predicate Hit(k: int, j: int, p: int)
    requires p > 0
  {
    k < j && Multiple(k, p)
  }

  /** The in-place part: zero the multiples j >= p*p of every surviving p up to
      `int(sqrt(limit))`. Slots are only ever set to zero, and a slot ends up zero
      exactly when its number has a divisor d >= 2 with d*d at most the number. */
  method StrikeMultiples(nums: array<int>)
    requires forall k :: 0 <= k < nums.Length ==> nums[k] == k + 2
    modifies nums
    ensures forall k :: 0 <= k < nums.Length ==> nums[k] == 0 || nums[k] == old(nums[k])
    ensures forall k :: 0 <= k < nums.Length ==>
              (nums[k] == 0 <==> Struck(k + 2, ISqrt(nums.Length + 1) + 1))
  {
    var limit := nums.Length + 1;
    var sqrtlmt := ISqrt(limit) - 2;
    assert sqrtlmt < nums.Length by {
      var r := ISqrt(limit);
      if r >= 1 { assert r <= r * r; }
    }
    var i := 0;
    while i < sqrtlmt + 1
      invariant 0 <= i
      invariant sqrtlmt + 1 >= 0 ==> i <= sqrtlmt + 1
      invariant forall k :: 0 <= k < nums.Length ==> nums[k] == 0 || nums[k] == k + 2
      invariant forall k :: 0 <= k < nums.Length ==> (nums[k] == 0 <==> Struck(k + 2, i + 2))
    {
      var p := nums[i];
      if p != 0 {
        assert p == i + 2;
        ZeroMultiples(nums, p);
      } else {
        var q := i + 2;
        forall k | 0 <= k < nums.Length && Multiple(k, q)
          ensures Struck(k + 2, i + 2)
        {
          StruckThroughFactor(q, k + 2, q);
        }
      }
      forall k | 0 <= k < nums.Length
        ensures nums[k] == 0 <==> Struck(k + 2, i + 3)
      {
        NextBound(k, i);
      }
      i := i + 1;
    }
  }

  /** `for j in range(p * p - 2, len(nums), p): nums[j] = 0` */
  method ZeroMultiples(nums: array<int>, p: int)
    requires p >= 2
    modifies nums
    ensures forall k :: 0 <= k < nums.Length ==>
              nums[k] == (if Multiple(k, p) then 0 else old(nums[k]))
  {
    var j := p * p - 2;
    assert (j + 2) % p == 0 by { DivModUnique(p * p, p, p, 0); }
    while j < nums.Length
      invariant p * p - 2 <= j
      invariant (j + 2) % p == 0
      invariant forall k :: 0 <= k < nums.Length ==> nums[k] == (if Hit(k, j, p) then 0 else old(nums[k]))
    {
      forall k | 0 <= k < nums.Length
        ensures Hit(k, j + p, p) <==> Hit(k, j, p) || k == j
      {
        if j < k < j + p { ModBetween(j + 2, p, k - j); }
      }
      ModStep(j + 2, p);
      nums[j] := 0;
      j := j + p;
    }
  }

  /** Raising the bound by one adds the multiples n >= p*p of p = i + 2. */
  lemma NextBound(k: int, i: int)
    requires i >= 0
    ensures Struck(k + 2, i + 3) <==> Struck(k + 2, i + 2) || Multiple(k, i + 2)
  {
    var n := k + 2;
    if Struck(n, i + 3) && !Struck(n, i + 2) {
      var d :| 2 <= d < i + 3 && d * d <= n && n % d == 0;
      assert d == i + 2;
    }
  }

  /** `eratosthenes(limit)`: [] below 2, otherwise exactly the primes in
      [2, limit], in ascending order. */
  method Eratosthenes(limit: int) returns (primes: seq<int>)
    ensures limit < 2 ==> primes == []
    ensures forall x :: x in primes <==> 2 <= x <= limit && IsPrime(x)
    ensures forall a, b :: 0 <= a < b < |primes| ==> primes[a] < primes[b]
  {
    primes := [];
    if limit >= 2 {
      var nums := new int[limit - 1](k => k + 2);
      StrikeMultiples(nums);
      var sieved := nums[..];
      var k := 0;
      while k < |sieved|
        invariant 0 <= k <= |sieved|
        invariant forall x :: x in primes <==> 2 <= x < k + 2 && IsPrime(x)
        invariant forall a, b :: 0 <= a < b < |primes| ==> primes[a] < primes[b]
        invariant forall a :: 0 <= a < |primes| ==> primes[a] < k + 2
      {
        StruckIffComposite(k + 2, limit);
        if sieved[k] != 0 {
          primes := primes + [sieved[k]];
        }
        k := k + 1;
      }
    }
  }
}
