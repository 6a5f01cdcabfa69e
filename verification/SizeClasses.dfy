/** The allocator's size classes, in words (internal/arena/freelist.go:29-84, 317-331). */
module SizeClasses {

  const NUM_CLASSES: nat := 20
  const LARGE_THRESHOLD: nat := 64
  const NUM_LARGE: nat := 24

  /** Bucket of a request of 1..64 words. */
  function SizeClass(words: nat): nat
    requires 1 <= words <= LARGE_THRESHOLD
  {
    if words <= 8 then words - 1
    else if words <= 16 then 8 + (words - 9) / 2
    else if words <= 32 then 12 + (words - 17) / 4
    else 16 + (words - 33) / 8
  }

  /** Words every block of a bucket has. */
  function ClassWords(c: nat): nat
    requires c < NUM_CLASSES
  {
    if c < 8 then c + 1
    else if c < 12 then 10 + 2 * (c - 8)
    else if c < 16 then 20 + 4 * (c - 12)
    else 40 + 8 * (c - 16)
  }

  /** A request gets the least bucket that holds it, at most 7 words larger, and a block of a
      bucket goes back to that bucket. */
  lemma SizeClassTight(words: nat)
    requires 1 <= words <= LARGE_THRESHOLD
    ensures SizeClass(words) < NUM_CLASSES
    ensures words <= ClassWords(SizeClass(words)) <= words + 7
    ensures forall c: nat :: c < NUM_CLASSES && words <= ClassWords(c) ==> SizeClass(words) <= c
    ensures SizeClass(ClassWords(SizeClass(words))) == SizeClass(words)
  {
  }

  lemma ClassRoundTrip(c: nat)
    requires c < NUM_CLASSES
    ensures 1 <= ClassWords(c) <= LARGE_THRESHOLD && SizeClass(ClassWords(c)) == c
  {
  }

  /** Bits needed to write n: bits.Len32. */
  function BitLen(n: nat): nat {
    if n == 0 then 0 else 1 + BitLen(n / 2)
  }

  lemma {:induction false} BitLenMonotone(m: nat, n: nat)
    requires m <= n
    ensures BitLen(m) <= BitLen(n)
  {
    if m > 0 { BitLenMonotone(m / 2, n / 2); }
  }

  lemma BitLenAtLeast7(n: nat)
    requires n >= LARGE_THRESHOLD
    ensures BitLen(n) >= 7
  {
    assert BitLen(2) == 2 && BitLen(8) == 1 + BitLen(4) && BitLen(64) == 1 + BitLen(32);
    assert BitLen(64) == 7;
    BitLenMonotone(64, n);
  }

  /** Bucket of a block of more than 64 words: by power of two, the last one open-ended. */
  function LargeClass(words: nat): (c: nat)
    requires words > LARGE_THRESHOLD
    ensures c < NUM_LARGE
  {
    BitLenAtLeast7(words - 1);
    var c := BitLen(words - 1) - 7;
    if c >= NUM_LARGE then NUM_LARGE - 1 else c
  }

  lemma LargeClassMonotone(m: nat, n: nat)
    requires LARGE_THRESHOLD < m <= n
    ensures LargeClass(m) <= LargeClass(n)
  {
    BitLenAtLeast7(m - 1);
    BitLenMonotone(m - 1, n - 1);
  }

  /** The largest bucket whose blocks fit in 1..64 words. */
  function Floor(words: nat): (c: nat)
    requires 1 <= words <= LARGE_THRESHOLD
    ensures c < NUM_CLASSES && ClassWords(c) <= words <= ClassWords(c) + 7
    ensures forall d: nat :: c < d < NUM_CLASSES ==> ClassWords(d) > words
  {
    SizeClassTight(words);
    var c := SizeClass(words);
    if ClassWords(c) <= words then c else c - 1
  }

  /** The largest bucket whose blocks fit in `words`; -1 for none. */
  method FloorClass(words: nat) returns (c: int)
    ensures words == 0 ==> c == -1
    ensures words > 0 ==> 0 <= c < NUM_CLASSES && ClassWords(c) <= words
    ensures words > 0 ==> forall d: nat :: c < d < NUM_CLASSES ==> ClassWords(d) > words
    ensures 0 < words <= LARGE_THRESHOLD ==> c == Floor(words) && words - ClassWords(c) <= 7
  {
    if words == 0 {
      return -1;
    }
    var w := if words > LARGE_THRESHOLD then LARGE_THRESHOLD else words;
    SizeClassTight(w);
    c := SizeClass(w);
    while c >= 0 && ClassWords(c) > w
      invariant 0 <= c <= SizeClass(w)
      invariant forall d: nat :: c < d < NUM_CLASSES ==> ClassWords(d) > words
    {
      c := c - 1;
    }
    if c < SizeClass(w) {
      assert ClassWords(c + 1) > words;
    }
  }

  /** Words actually set aside for a request of nbytes: enough for it, and at most 63 bytes more. */
  function BlockWords(nbytes: nat): (n: nat)
    ensures n > 0 && 8 * n >= nbytes && (nbytes > 0 ==> 8 * n <= nbytes + 63) && (nbytes == 0 ==> n == 1)
  {
    var words := if nbytes == 0 then 1 else (nbytes + 7) / 8;
    if words <= LARGE_THRESHOLD then
      SizeClassTight(words);
      ClassWords(SizeClass(words))
    else words
  }

  /** The sizes blocks are carved in: those of the buckets, and any number of words past 64. */
  predicate Carved(n: nat) {
    n > LARGE_THRESHOLD || exists c: nat :: c < NUM_CLASSES && ClassWords(c) == n
  }

  /** No smaller block that is ever carved would do. */
  lemma BlockWordsLeast(nbytes: nat, n: nat)
    requires Carved(n) && 8 * n >= nbytes
    ensures Carved(BlockWords(nbytes)) && BlockWords(nbytes) <= n
  {
    var words := if nbytes == 0 then 1 else (nbytes + 7) / 8;
    if words <= LARGE_THRESHOLD {
      SizeClassTight(words);
      if n <= LARGE_THRESHOLD {
        var c: nat :| c < NUM_CLASSES && ClassWords(c) == n;
        assert ClassWords(SizeClass(words)) <= ClassWords(c);
      } else {
        ClassRoundTrip(SizeClass(words));
      }
    }
  }

  /** A block that has exactly the words of a bucket is returned to that bucket. */
  lemma ClassReturned(c: nat)
    requires c < NUM_CLASSES
    ensures 1 <= ClassWords(c) <= LARGE_THRESHOLD && BlockWords(8 * ClassWords(c)) == ClassWords(c)
    ensures SizeClass(BlockWords(8 * ClassWords(c))) == c
  {
    ClassRoundTrip(c);
    assert (8 * ClassWords(c) + 7) / 8 == ClassWords(c);
  }
}
