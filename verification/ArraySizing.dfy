/** How a rehash splits keys between array and hash part (internal/crescent/rawtable.go:294-381). */
module ArraySizing {
  import opened Values

  const MAX_ARRAY_BITS: nat := 24
  const MAX_ARRAY_SIZE: nat := 0x100_0000
  const MAX_KEY: nat := 0xFFFF_FFFF

  function Pow2(b: nat): (p: nat)
    ensures p >= 1 && IsPow2(p)
  {
    if b == 0 then 1 else 2 * Pow2(b - 1)
  }

  lemma {:induction false} Pow2Monotone(a: nat, b: nat)
    requires a < b
    ensures 2 * Pow2(a) <= Pow2(b)
  {
    if a < b - 1 { Pow2Monotone(a, b - 1); }
  }

  lemma {:induction false} Pow2Add(a: nat, b: nat)
    ensures Pow2(a + b) == Pow2(a) * Pow2(b)
  {
    if b > 0 {
      Pow2Add(a, b - 1);
      assert Pow2(a + b) == 2 * Pow2(a + (b - 1));
    }
  }

  lemma Pow2Values(b: nat)
    ensures b == 8 ==> Pow2(b) == 0x100
    ensures b == 24 ==> Pow2(b) == MAX_ARRAY_SIZE
    ensures b == 30 ==> Pow2(b) == 0x4000_0000
  {
    assert Pow2(2) == 4 && Pow2(4) == 16;
    Pow2Add(4, 4);
    if b == 24 || b == 30 {
      Pow2Add(8, 8);
      Pow2Add(8, 16);
      Pow2Add(4, 2);
      Pow2Add(24, 6);
    }
  }

  /** A key the array part could hold: a number that is an unsigned 32-bit integer of at least 1. */
  predicate IsIndex(k: Value) {
    InArray(k, MAX_KEY)
  }

  /** How many of the keys lie in 1..n. */
  function CountUpTo(ks: seq<Value>, n: nat): (c: nat)
    ensures c <= |ks|
  {
    if ks == [] then 0 else CountUpTo(ks[..|ks| - 1], n) + if InArray(ks[|ks| - 1], n) then 1 else 0
  }

  predicate Distinct(ks: seq<Value>) {
    forall i, j :: 0 <= i < j < |ks| ==> ks[i] != ks[j]
  }

  /** The array size wanted: the largest power of two, up to 2^24, of which more than half the
      slots would be used; 0 when there is none. */
  ghost predicate IsBestArraySize(ks: seq<Value>, size: nat) {
    && (size == 0 || (IsPow2(size) && size <= MAX_ARRAY_SIZE && 2 * CountUpTo(ks, size) > size))
    && (forall b: nat :: b <= MAX_ARRAY_BITS && Pow2(b) > size ==> 2 * CountUpTo(ks, Pow2(b)) <= Pow2(b))
  }

  /** The powers of two an array part can have as its size. */
  const SIZES: set<nat> := {1, 2, 4, 8, 16, 32, 64, 128, 256, 512, 1024, 2048, 4096, 8192, 16384, 32768, 65536, 131072,
                            262144, 524288, 1048576, 2097152, 4194304, 8388608, 16777216}

  /** More than half of the indices up to n are among the keys. */
  ghost predicate HalfUsed(ks: seq<Value>, n: nat) {
    2 * |set i | 1 <= i <= n && Int(i) in ks| > n
  }

  lemma {:induction false} SizesAre(n: nat)
    ensures n in SIZES <==> IsPow2(n) && n <= 16777216
    decreases n
  {
    if n > 1 && n % 2 == 0 { SizesAre(n / 2); }
  }

  lemma {:induction false} SizeBits(n: nat) returns (b: nat)
    requires n in SIZES
    ensures Pow2(b) == n
    decreases n
  {
    b := 0;
    if n > 1 {
      b := SizeBits(n / 2);
      b := b + 1;
    }
  }

  /** The size wanted, among the sizes there are. */
  lemma BestIs(ks: seq<Value>, size: nat)
    requires Distinct(ks) && IsBestArraySize(ks, size)
    ensures size == 0 || (size in SIZES && HalfUsed(ks, size))
    ensures forall n :: n in SIZES && n > size ==> !HalfUsed(ks, n)
  {
    Pow2Values(24);
    SizesAre(size);
    CountIsUsed(ks, size);
    forall n | n in SIZES && n > size ensures !HalfUsed(ks, n) {
      SizesAre(n);
      var b := SizeBits(n);
      SizeWithinBits(b);
      CountIsUsed(ks, n);
    }
  }

  lemma CountIsUsed(ks: seq<Value>, n: nat)
    requires Distinct(ks)
    ensures CountUpTo(ks, n) == |set i | 1 <= i <= n && Int(i) in ks|
  {
    CountIsSize(ks, n);
    assert Indices(ks, n) == set i | 1 <= i <= n && Int(i) in ks;
  }

  // ---- distinct keys fill no more slots than there are ----

  ghost function Indices(ks: seq<Value>, n: nat): (s: set<int>)
    ensures forall u :: u in s <==> 1 <= u <= n && Int(u) in ks
  {
    set k | k in ks && InArray(k, n) :: k.n
  }

  ghost function OneTo(n: nat): (s: set<int>)
    ensures |s| == n && forall i :: i in s <==> 1 <= i <= n
  {
    if n == 0 then {} else OneTo(n - 1) + {n}
  }

  lemma {:induction false} CountIsSize(ks: seq<Value>, n: nat)
    requires Distinct(ks)
    ensures CountUpTo(ks, n) == |Indices(ks, n)|
  {
    if ks == [] {
      assert Indices(ks, n) == {};
    } else {
      var init, last := ks[..|ks| - 1], ks[|ks| - 1];
      CountIsSize(init, n);
      assert ks == init + [last];
      IndicesStep(init, last, n);
    }
  }

  lemma IndicesStep(init: seq<Value>, last: Value, n: nat)
    requires last !in init
    ensures |Indices(init + [last], n)| == |Indices(init, n)| + if InArray(last, n) then 1 else 0
  {
    var ks := init + [last];
    assert forall k :: k in ks <==> k in init || k == last;
    if InArray(last, n) {
      assert last == Int(last.n) && last.n !in Indices(init, n);
      assert Indices(ks, n) == Indices(init, n) + {last.n};
    } else {
      assert Indices(ks, n) == Indices(init, n);
    }
  }

  lemma CountAtMostSize(ks: seq<Value>, n: nat)
    requires Distinct(ks)
    ensures CountUpTo(ks, n) <= n
  {
    CountIsSize(ks, n);
    assert OneTo(n) == Indices(ks, n) + (OneTo(n) - Indices(ks, n));
  }

  lemma {:induction false} CountMonotone(ks: seq<Value>, m: nat, n: nat)
    requires m <= n
    ensures CountUpTo(ks, m) <= CountUpTo(ks, n)
  {
    if ks != [] { CountMonotone(ks[..|ks| - 1], m, n); }
  }

  /** Beyond the largest index the count stops growing. */
  lemma {:induction false} CountSaturates(ks: seq<Value>, m: nat, n: nat)
    requires m <= n
    requires forall k :: k in ks && InArray(k, n) ==> InArray(k, m)
    ensures CountUpTo(ks, m) == CountUpTo(ks, n)
  {
    if ks != [] {
      var init := ks[..|ks| - 1];
      assert forall k :: k in init ==> k in ks;
      CountSaturates(init, m, n);
    }
  }

  // ---- the bucket count ----

  /** Bucket of an index: the least b with u <= 2^b, stopping at 31. */
  method BucketOf(u: nat) returns (b: nat)
    requires 1 <= u <= MAX_KEY
    ensures b <= 31
    ensures b < 31 ==> u <= Pow2(b)
    ensures forall a: nat :: a < b ==> Pow2(a) < u
  {
    b := 0;
    while b < 31 && Pow2(b) < u
      invariant b <= 31
      invariant forall a: nat :: a < b ==> Pow2(a) < u
    {
      b := b + 1;
    }
  }

  ghost function SumTo(count: seq<nat>, b: nat): nat
    requires b < |count|
  {
    count[b] + if b == 0 then 0 else SumTo(count, b - 1)
  }

  /** Buckets 0..b hold exactly the keys in 1..2^b. */
  ghost predicate Tallied(ks: seq<Value>, count: seq<nat>) {
    |count| == 32 && forall b: nat :: b < 31 ==> SumTo(count, b) == CountUpTo(ks, Pow2(b))
  }

  lemma {:induction false} SumAfterBump(count: seq<nat>, at: nat, b: nat)
    requires at < |count| && b < |count|
    ensures SumTo(count[at := count[at] + 1], b) == SumTo(count, b) + if at <= b then 1 else 0
  {
    if b > 0 { SumAfterBump(count, at, b - 1); }
  }

  lemma BumpTallies(ks: seq<Value>, k: Value, count: seq<nat>, at: nat)
    requires Tallied(ks, count) && IsIndex(k) && at <= 31
    requires at < 31 ==> k.n <= Pow2(at)
    requires forall a: nat :: a < at ==> Pow2(a) < k.n
    ensures Tallied(ks + [k], count[at := count[at] + 1])
  {
    assert (ks + [k])[..|ks|] == ks;
    forall b: nat | b < 31
      ensures SumTo(count[at := count[at] + 1], b) == CountUpTo(ks + [k], Pow2(b))
    {
      SumAfterBump(count, at, b);
      if at < b { Pow2Monotone(at, b); }
    }
  }

  lemma Below31(b: nat)
    requires b < 31
    ensures Pow2(b) <= MAX_KEY
  {
    var top := 30;
    Pow2Values(top);
    if b < top { Pow2Monotone(b, top); }
  }

  /** 2^30 is below 2^32, so a key that is no index is in no bucket's range. */
  lemma OtherTallies(ks: seq<Value>, k: Value, count: seq<nat>)
    requires Tallied(ks, count) && !IsIndex(k)
    ensures Tallied(ks + [k], count)
  {
    assert (ks + [k])[..|ks|] == ks;
    forall b: nat | b < 31
      ensures Pow2(b) <= MAX_KEY
    {
      Below31(b);
    }
  }

  /** The keys' tally by power-of-two bucket, and the largest index seen. */
  method TallyKeys(ks: seq<Value>) returns (count: seq<nat>, maxKey: nat)
    ensures Tallied(ks, count)
    ensures forall k :: k in ks && IsIndex(k) ==> k.n <= maxKey
    ensures maxKey <= MAX_KEY
  {
    count, maxKey := seq(32, i => 0), 0;
    assert Tallied(ks[..0], count) by {
      ZeroSum(count);
    }
    for i := 0 to |ks|
      invariant Tallied(ks[..i], count)
      invariant forall k :: k in ks[..i] && IsIndex(k) ==> k.n <= maxKey
      invariant maxKey <= MAX_KEY
    {
      var k := ks[i];
      assert ks[..i + 1] == ks[..i] + [k];
      if IsIndex(k) {
        if k.n > maxKey {
          maxKey := k.n;
        }
        var b := BucketOf(k.n);
        BumpTallies(ks[..i], k, count, b);
        count := count[b := count[b] + 1];
      } else {
        OtherTallies(ks[..i], k, count);
      }
    }
    assert ks[..|ks|] == ks;
  }

  lemma ZeroSum(count: seq<nat>)
    requires |count| == 32 && forall i :: 0 <= i < 32 ==> count[i] == 0
    ensures forall b: nat :: b < 31 ==> SumTo(count, b) == 0
  {
    forall b: nat | b < 31 ensures SumTo(count, b) == 0 { ZeroSumAt(count, b); }
  }

  lemma {:induction false} ZeroSumAt(count: seq<nat>, b: nat)
    requires b < |count| && forall i :: 0 <= i < |count| ==> count[i] == 0
    ensures SumTo(count, b) == 0
  {
    if b > 0 { ZeroSumAt(count, b - 1); }
  }

  /** Once a size covers the largest index, no larger one can be more than half full. */
  lemma NothingLarger(ks: seq<Value>, size: nat, maxKey: nat, b: nat)
    requires Distinct(ks) && b <= MAX_ARRAY_BITS && 2 * size <= Pow2(b)
    requires size >= maxKey && forall k :: k in ks && IsIndex(k) ==> k.n <= maxKey
    requires Pow2(b) <= MAX_KEY
    ensures 2 * CountUpTo(ks, Pow2(b)) <= Pow2(b)
  {
    CountSaturates(ks, size, Pow2(b));
    CountAtMostSize(ks, size);
  }

  /** The sizes the walk may pick are those of at most 24 doublings. */
  lemma SizeWithinBits(b: nat)
    ensures Pow2(b) <= MAX_ARRAY_SIZE <==> b <= MAX_ARRAY_BITS
    ensures b <= MAX_ARRAY_BITS ==> Pow2(b) <= MAX_KEY
  {
    var top := MAX_ARRAY_BITS;
    Pow2Values(top);
    if b < top { Pow2Monotone(b, top); } else if top < b { Pow2Monotone(top, b); }
  }

  /** Above b no larger power of two up to 2^24 than `best` is more than half used. */
  ghost predicate NoneBetterBelow(ks: seq<Value>, best: nat, b: nat) {
    forall a: nat :: a < b && Pow2(a) > best ==> 2 * CountUpTo(ks, Pow2(a)) <= Pow2(a)
  }

  lemma StepBest(ks: seq<Value>, best: nat, b: nat)
    requires NoneBetterBelow(ks, best, b) && best < Pow2(b)
    ensures 2 * CountUpTo(ks, Pow2(b)) > Pow2(b) ==> NoneBetterBelow(ks, Pow2(b), b + 1)
    ensures 2 * CountUpTo(ks, Pow2(b)) <= Pow2(b) ==> NoneBetterBelow(ks, best, b + 1)
  {
    forall a: nat | a < b ensures Pow2(a) < Pow2(b) { Pow2Monotone(a, b); }
  }

  /** Stopping the walk at a size that covers the largest index loses nothing. */
  lemma StopBest(ks: seq<Value>, best: nat, b: nat, maxKey: nat)
    requires Distinct(ks) && b <= MAX_ARRAY_BITS && NoneBetterBelow(ks, best, b + 1)
    requires Pow2(b) >= maxKey && forall k :: k in ks && IsIndex(k) ==> k.n <= maxKey
    ensures NoneBetterBelow(ks, best, MAX_ARRAY_BITS + 1)
  {
    forall a: nat | b < a <= MAX_ARRAY_BITS
      ensures 2 * CountUpTo(ks, Pow2(a)) <= Pow2(a)
    {
      SizeWithinBits(a);
      Pow2Monotone(b, a);
      NothingLarger(ks, Pow2(b), maxKey, a);
    }
  }

  /** Comparing with half the size, rounded down, is exact: sizes are 1 or even. */
  lemma HalfFull(b: nat, acc: nat)
    ensures acc > Pow2(b) / 2 <==> 2 * acc > Pow2(b)
  {
    if b > 0 { assert Pow2(b) == 2 * Pow2(b - 1); }
  }

  lemma WalkStart(ks: seq<Value>)
    ensures Pow2(0) == 1 && NoneBetterBelow(ks, 0, 0)
  {
  }

  lemma WalkEnd(ks: seq<Value>, best: nat)
    requires best == 0 || (IsPow2(best) && best <= MAX_ARRAY_SIZE && 2 * CountUpTo(ks, best) > best)
    requires NoneBetterBelow(ks, best, MAX_ARRAY_BITS + 1)
    ensures IsBestArraySize(ks, best)
  {
  }

  lemma WalkStep(ks: seq<Value>, count: seq<nat>, b: nat)
    requires Tallied(ks, count) && b <= 24
    ensures Pow2(b + 1) == 2 * Pow2(b) && IsPow2(Pow2(b))
    ensures count[b] + (if b == 0 then 0 else SumTo(count, b - 1)) == SumTo(count, b) == CountUpTo(ks, Pow2(b))
  {
  }

  /** The size the bucket walk settles on. `ks` is every key in the table plus the incoming one. */
  method ChooseArraySize(ks: seq<Value>) returns (best: nat)
    requires Distinct(ks)
    ensures IsBestArraySize(ks, best)
  {
    hide CountUpTo, Pow2, IsPow2, SumTo, Distinct, NoneBetterBelow;
    var count, maxKey := TallyKeys(ks);
    best := 0;
    var acc, size := 0, 1;
    var b := 0;
    WalkStart(ks);
    while b <= 31
      invariant b <= MAX_ARRAY_BITS + 1
      invariant size == Pow2(b) && best < size
      invariant acc == if b == 0 then 0 else SumTo(count, b - 1)
      invariant best == 0 || (IsPow2(best) && best <= MAX_ARRAY_SIZE && 2 * CountUpTo(ks, best) > best)
      invariant NoneBetterBelow(ks, best, b)
    {
      SizeWithinBits(b);
      acc := acc + count[b];
      if size > MAX_ARRAY_SIZE {
        break;
      }
      WalkStep(ks, count, b);
      HalfFull(b, acc);
      StepBest(ks, best, b);
      if acc > size / 2 {
        best := size;
      }
      if size >= maxKey {
        StopBest(ks, best, b, maxKey);
        break;
      }
      b := b + 1;
      size := 2 * size;
    }
    WalkEnd(ks, best);
  }

  /** The hash part wanted for n keys: the least power of two above n, or none for no keys. */
  method ChooseHashSize(n: nat) returns (size: nat)
    ensures n == 0 ==> size == 0
    ensures n > 0 ==> IsPow2(size) && n < size <= 2 * n
  {
    size := 1;
    while size < n + 1
      invariant IsPow2(size)
      invariant size == 1 || size <= 2 * n
    {
      size := 2 * size;
    }
    if n == 0 {
      size := 0;
    }
  }
}
