/** The string intern table: buckets of string objects by hash (internal/gc/intern.go:31-113).

    `texts` gives each string object's bytes. The hash is any function of the bytes; a bucket is
    picked by the hash's low bits, which for the power-of-two sizes used is the remainder. */
module Intern {
  import opened Values

  type Bytes = seq<nat>
  type Texts = map<nat, Bytes>
  type Buckets = seq<seq<nat>>

  function BucketOf(hash: Bytes -> nat, b: Bytes, n: nat): (k: nat)
    requires n > 0
    ensures k < n
  {
    hash(b) % n
  }

  ghost predicate NoRepeats(s: seq<nat>) {
    forall i, j :: 0 <= i < j < |s| ==> s[i] != s[j]
  }

  /** What one bucket holds. */
  ghost predicate BucketOk(chain: seq<nat>, k: nat, n: nat, texts: Texts, hash: Bytes -> nat) {
    && n > 0
    && NoRepeats(chain)
    && (forall r :: r in chain <==> r in texts && BucketOf(hash, texts[r], n) == k)
  }

  ghost predicate BucketsOk(bs: Buckets, texts: Texts, hash: Bytes -> nat) {
    && |bs| > 0 && IsPow2(|bs|)
    && forall k: nat {:trigger BucketOk(bs[k], k, |bs|, texts, hash)} :: k < |bs| ==>
      BucketOk(bs[k], k, |bs|, texts, hash)
  }

  /** No two string objects have the same bytes. */
  ghost predicate Unique(texts: Texts) {
    forall r, s :: r in texts && s in texts && texts[r] == texts[s] ==> r == s
  }

  ghost predicate InternOk(bs: Buckets, count: nat, texts: Texts, hash: Bytes -> nat) {
    BucketsOk(bs, texts, hash) && Unique(texts) && count == |texts|
  }

  /** Whether an object's bytes are b: by hash, length, then byte by byte. */
  method StringMatches(got: Bytes, gotHash: nat, h: nat, b: Bytes) returns (same: bool)
    requires got == b ==> gotHash == h
    ensures same <==> gotHash == h && got == b
  {
    if gotHash != h || |got| != |b| {
      return false;
    }
    var i := 0;
    while i < |got|
      invariant 0 <= i <= |got|
      invariant got[..i] == b[..i]
    {
      if got[i] != b[i] {
        return false;
      }
      i := i + 1;
    }
    return true;
  }

  /** The object with bytes b, 0 when there is none. */
  method Find(bs: Buckets, texts: Texts, hash: Bytes -> nat, b: Bytes) returns (ref: nat)
    requires BucketsOk(bs, texts, hash) && 0 !in texts
    ensures ref != 0 ==> ref in texts && texts[ref] == b
    ensures ref == 0 ==> forall r :: r in texts ==> texts[r] != b
  {
    var h := hash(b);
    var k := h % |bs|;
    var chain := bs[k];
    assert BucketOk(bs[k], k, |bs|, texts, hash);
    var i := 0;
    while i < |chain|
      invariant 0 <= i <= |chain|
      invariant forall j :: 0 <= j < i ==> texts[chain[j]] != b
    {
      assert chain[i] in chain;
      var same := StringMatches(texts[chain[i]], hash(texts[chain[i]]), h, b);
      if same {
        return chain[i];
      }
      i := i + 1;
    }
    assert forall r :: r in chain ==> texts[r] != b;
    return 0;
  }

  lemma AddOk(bs: Buckets, count: nat, texts: Texts, hash: Bytes -> nat, r: nat, b: Bytes)
    requires InternOk(bs, count, texts, hash) && r !in texts && forall s :: s in texts ==> texts[s] != b
    ensures var k := BucketOf(hash, b, |bs|); InternOk(bs[k := bs[k] + [r]], count + 1, texts[r := b], hash)
  {
    var k := BucketOf(hash, b, |bs|);
    var bs', texts' := bs[k := bs[k] + [r]], texts[r := b];
    forall j: nat | j < |bs'| ensures BucketOk(bs'[j], j, |bs'|, texts', hash) {
      assert BucketOk(bs[j], j, |bs|, texts, hash);
    }
    assert texts'.Keys == texts.Keys + {r};
    assert |texts'| == |texts'.Keys| && |texts| == |texts.Keys|;
  }

  /** A bucket without r: the last entry takes its place. */
  method RemoveFrom(chain: seq<nat>, r: nat) returns (rest: seq<nat>)
    requires r in chain && NoRepeats(chain)
    ensures NoRepeats(rest)
    ensures forall s :: s in rest <==> s in chain && s != r
  {
    var i := 0;
    while chain[i] != r
      invariant 0 <= i < |chain| && r !in chain[..i]
      decreases |chain| - i
    {
      assert r in chain[i..];
      i := i + 1;
    }
    var n := |chain| - 1;
    rest := chain[i := chain[n]][..n];
    forall s | s in chain && s != r ensures s in rest {
      var j :| 0 <= j < |chain| && chain[j] == s;
      assert if j == n then rest[i] == s else rest[j] == s;
    }
  }

  lemma RemoveOk(bs: Buckets, count: nat, texts: Texts, hash: Bytes -> nat, r: nat, rest: seq<nat>)
    requires InternOk(bs, count, texts, hash) && r in texts
    requires NoRepeats(rest) && forall s :: s in rest <==> s in bs[BucketOf(hash, texts[r], |bs|)] && s != r
    ensures InternOk(bs[BucketOf(hash, texts[r], |bs|) := rest], count - 1, texts - {r}, hash)
  {
    var k := BucketOf(hash, texts[r], |bs|);
    var bs', texts' := bs[k := rest], texts - {r};
    forall j: nat | j < |bs'| ensures BucketOk(bs'[j], j, |bs'|, texts', hash) {
      assert BucketOk(bs[j], j, |bs|, texts, hash);
    }
    assert texts'.Keys == texts.Keys - {r};
    assert |texts'| == |texts'.Keys| && |texts| == |texts.Keys|;
  }

  // ---- doubling ----

  /** The entries before position c of bucket k. */
  ghost predicate Moved(bs: Buckets, k: nat, c: nat, r: nat) {
    (exists j: nat :: j < k && j < |bs| && r in bs[j]) || (k < |bs| && c <= |bs[k]| && r in bs[k][..c])
  }

  /** Buckets holding what was moved so far. */
  ghost predicate Refilled(bs: Buckets, nbs: Buckets, k: nat, c: nat, texts: Texts, hash: Bytes -> nat) {
    forall j: nat {:trigger nbs[j]} :: j < |nbs| ==>
      && NoRepeats(nbs[j])
      && forall r :: r in nbs[j] <==> Moved(bs, k, c, r) && r in texts && BucketOf(hash, texts[r], |nbs|) == j
  }

  lemma MoveOne(bs: Buckets, nbs: Buckets, k: nat, c: nat, texts: Texts, hash: Bytes -> nat)
    requires BucketsOk(bs, texts, hash) && k < |bs| && c < |bs[k]| && |nbs| > 0
    requires Refilled(bs, nbs, k, c, texts, hash)
    ensures bs[k][c] in texts
    ensures var b := BucketOf(hash, texts[bs[k][c]], |nbs|);
      Refilled(bs, nbs[b := nbs[b] + [bs[k][c]]], k, c + 1, texts, hash)
  {
    var r := bs[k][c];
    assert BucketOk(bs[k], k, |bs|, texts, hash) && r in bs[k];
    var b := BucketOf(hash, texts[r], |nbs|);
    forall j: nat | j < k ensures r !in bs[j] {
      assert BucketOk(bs[j], j, |bs|, texts, hash);
    }
    assert !Moved(bs, k, c, r);
    assert bs[k][..c + 1] == bs[k][..c] + [r];
    assert forall s :: Moved(bs, k, c + 1, s) <==> Moved(bs, k, c, s) || s == r;
  }

  lemma MoveBucket(bs: Buckets, nbs: Buckets, k: nat, texts: Texts, hash: Bytes -> nat)
    requires k < |bs| && Refilled(bs, nbs, k, |bs[k]|, texts, hash)
    ensures Refilled(bs, nbs, k + 1, 0, texts, hash)
  {
    assert bs[k][..|bs[k]|] == bs[k];
    forall s ensures Moved(bs, k + 1, 0, s) <==> Moved(bs, k, |bs[k]|, s) {
      if s in bs[k] { assert k < k + 1 && k < |bs| && s in bs[k]; }
    }
  }

  /** Twice as many buckets with the same strings. */
  method Doubled(bs: Buckets, texts: Texts, hash: Bytes -> nat) returns (nbs: Buckets)
    requires BucketsOk(bs, texts, hash)
    ensures |nbs| == 2 * |bs| && BucketsOk(nbs, texts, hash)
  {
    var n := 2 * |bs|;
    nbs := seq(n, _ => []);
    var k := 0;
    while k < |bs|
      invariant 0 <= k <= |bs| && |nbs| == n
      invariant Refilled(bs, nbs, k, 0, texts, hash)
    {
      var chain := bs[k];
      var c := 0;
      while c < |chain|
        invariant 0 <= c <= |chain| && |nbs| == n
        invariant Refilled(bs, nbs, k, c, texts, hash)
      {
        MoveOne(bs, nbs, k, c, texts, hash);
        var b := BucketOf(hash, texts[chain[c]], n);
        nbs := nbs[b := nbs[b] + [chain[c]]];
        c := c + 1;
      }
      MoveBucket(bs, nbs, k, texts, hash);
      k := k + 1;
    }
    forall j: nat | j < n ensures BucketOk(nbs[j], j, n, texts, hash) {
      forall r | r in texts ensures Moved(bs, |bs|, 0, r) {
        var o := BucketOf(hash, texts[r], |bs|);
        assert BucketOk(bs[o], o, |bs|, texts, hash) && r in bs[o];
      }
    }
  }
}
