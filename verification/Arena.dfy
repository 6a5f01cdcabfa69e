/** The arena allocator (internal/arena/arena.go:97-361, internal/arena/freelist.go:105-330), with
    addresses and sizes in 8-byte words. Requests and returns are in bytes, as the source has them. */
module ArenaAllocator {
  import opened SizeClasses
  import opened ArenaLayout
  import opened ArenaMoves
  import opened FreeLists
  import opened ArenaState
  import opened ArenaContents

  /** A block's address, or the panic of a request past the maximum. */
  datatype Allocation = At(ref: nat) | Refused

  const MIN_WORDS: nat := 8192

  /** Takes a block between prev and next out of a doubly linked list. */
  method UnhookWords(a: array<nat>, prev: nat, next: nat)
    requires prev + 2 < a.Length && next + 2 < a.Length
    modifies a
    ensures a[..] == Unhooked(old(a[..]), prev, next)
  {
    if prev != 0 {
      a[prev] := next;
    }
    if next != 0 {
      a[next + 2] := prev;
    }
  }

  /** Writes a block's links and size in front of head. */
  method HookWords(a: array<nat>, ref: nat, n: nat, head: nat)
    requires ref + 2 < a.Length && head + 2 < a.Length
    modifies a
    ensures a[..] == Hooked(old(a[..]), ref, n, head)
  {
    a[ref] := head;
    a[ref + 1] := n;
    a[ref + 2] := 0;
    if head != 0 {
      a[head + 2] := ref;
    }
  }

  lemma TailsKept(m: Blocks, s: nat, n: nat)
    requires s in m && m[s] == Large(n)
    ensures Sum(m[s := Out(n)], TailLen) == Sum(m, TailLen)
  {
    SumUpdate(m, TailLen, s, Out(n));
  }

  function Max(a: nat, b: nat): nat { if a < b then b else a }

  /** Doubling until minWords fit, the maximum at the latest. */
  function GrownCap(cap: nat, minWords: nat, maxCap: nat): nat
    requires 0 < cap <= maxCap
    decreases maxCap - cap
  {
    if cap >= minWords then cap else if cap > maxCap / 2 then maxCap else GrownCap(2 * cap, minWords, maxCap)
  }

  /** It is enough, it at least doubles what there was, and short of the maximum it is less than twice
      what is asked. */
  lemma {:induction false} GrownEnough(cap: nat, minWords: nat, maxCap: nat)
    requires 0 < cap <= maxCap && minWords <= maxCap
    ensures var c := GrownCap(cap, minWords, maxCap);
      && minWords <= c <= maxCap && (cap >= minWords ==> c == cap)
      && (cap < minWords ==> c == maxCap || 2 * cap <= c < 2 * minWords)
    decreases maxCap - cap
  {
    if cap < minWords && cap <= maxCap / 2 {
      GrownEnough(2 * cap, minWords, maxCap);
    }
  }

  /** The capacity after shrinking towards `target` bytes: only when at least half of it goes. */
  function ShrunkCap(cap: nat, bump: nat, target: nat, maxCap: nat): nat {
    var want := Min(Max((target + 7) / 8, Max(bump, MIN_WORDS)), maxCap);
    if cap <= 2 * want then cap else want
  }

  /** It goes down exactly when it is more than twice what `target` takes, what is in use and 64 KiB, and
      then to the largest of the three. */
  ghost predicate ShrunkAs(cap: nat, bump: nat, target: nat, cap': nat) {
    if cap > 2 * bump && cap > 2 * 8192 && cap > 2 * ((target + 7) / 8) then
      cap' >= bump && cap' >= 8192 && 8 * cap' >= target && (cap' == bump || cap' == 8192 || 8 * cap' < target + 8)
    else cap' == cap
  }

  lemma ShrunkSo(cap: nat, bump: nat, target: nat, maxCap: nat)
    requires bump <= cap <= maxCap
    ensures ShrunkAs(cap, bump, target, ShrunkCap(cap, bump, target, maxCap))
  {
  }

  class Arena {
    const maxCap: nat
    var words: array<nat>
    var bump: nat
    var freeHeads: seq<nat>
    var largeFreeHeads: seq<nat>
    var largeByStart: map<nat, nat>
    var largeByEnd: map<nat, nat>
    var freeBytes: nat
    ghost var m: Blocks
    ghost var smallAfter: After
    ghost var largeAfter: After

    ghost function St(): State
      reads this, words
    {
      State(words[..], bump, freeHeads, largeFreeHeads, largeByStart, largeByEnd, freeBytes, m, smallAfter, largeAfter)
    }

    ghost predicate Valid()
      reads this, words
    {
      ArenaOk(St()) && words.Length <= maxCap
    }

    /** The outstanding blocks and their words. */
    ghost function Contents(): map<nat, seq<nat>>
      reads this, words
    {
      Held(words[..], m)
    }

    /** Words lost to the tails of splits. */
    ghost function Dropped(): nat
      reads this
    {
      Sum(m, TailLen)
    }

    constructor (initialWords: nat, maxWords: nat)
      requires 1 <= initialWords <= maxWords
      ensures Valid() && fresh(words) && maxCap == maxWords && words.Length == initialWords
      ensures Contents() == map[] && m == map[] && Dropped() == 0 && bump == 1
    {
      maxCap := maxWords;
      words := new nat[initialWords](_ => 0);
      bump := 1;
      freeHeads := seq(NUM_CLASSES, _ => 0);
      largeFreeHeads := seq(NUM_LARGE, _ => 0);
      largeByStart, largeByEnd := map[], map[];
      freeBytes := 0;
      m, smallAfter, largeAfter := map[], map[], map[];
    }

    // ---- LARGE blocks ----

    /** Takes a free LARGE block off its bucket and out of the address index. */
    method UnlinkLarge(ref: nat, n: nat)
      requires Valid() && ref in m && m[ref] == Large(n)
      modifies this, words
      ensures Valid() && words == old(words) && bump == old(bump)
      ensures m == old(m)[ref := Out(n)] && Dropped() == old(Dropped())
      ensures KeepsContents(old(words[..]), words[..], old(m))
      ensures freeBytes == old(freeBytes) - 8 * n && ref !in largeByStart
    {
      hide ArenaOk, KeepsContents, Sum, Unhooked, LargeClass, TailLen, Without;
      ghost var st := St();
      UnlinkReady(st, ref);
      UnlinkStep(st, ref);
      TailsKept(m, ref, n);
      var next, prev := words[ref], words[ref + 2];
      if prev == 0 {
        largeFreeHeads := largeFreeHeads[LargeClass(n) := next];
      }
      UnhookWords(words, prev, next);
      largeByStart, largeByEnd := largeByStart - {ref}, largeByEnd - {ref + n};
      freeBytes := freeBytes - 8 * n;
      m := m[ref := Out(n)];
      largeAfter := Without(largeAfter, ref);
      assert St() == Unlinked(st, ref);
    }

    /** Hooks a block in front of its bucket and records it in the address index. */
    method InsertLarge(ref: nat, n: nat)
      requires Valid() && Insertable(St(), ref, n)
      modifies this, words
      ensures Valid() && words == old(words) && bump == old(bump)
      ensures m == old(m)[ref := Large(n)] && Dropped() == old(Dropped())
      ensures KeepsContents(old(words[..]), words[..], old(m) - {ref})
      ensures freeBytes == old(freeBytes) + 8 * n
    {
      hide ArenaOk, KeepsContents, Sum, Hooked;
      ghost var st := St();
      InsertReady(st, ref, n);
      InsertStep(st, ref, n);
      SumUpdate(m, TailLen, ref, Large(n));
      var c := LargeClass(n);
      var head := largeFreeHeads[c];
      HookWords(words, ref, n, head);
      largeFreeHeads := largeFreeHeads[c := ref];
      largeByStart, largeByEnd := largeByStart[ref := n], largeByEnd[ref + n := ref];
      freeBytes := freeBytes + 8 * n;
      m := m[ref := Large(n)];
      largeAfter := largeAfter[ref := {ref} + Behind(largeAfter, head)];
      assert St() == Inserted(st, ref, n);
    }

    /** Merges the block in hand with a free LARGE block that ends where it starts. */
    method AbsorbLeft(start: nat, end: nat) returns (s: nat)
      requires Valid() && start < end && start in m && m[start] == Out(end - start)
      modifies this, words
      ensures Valid() && words == old(words) && bump == old(bump) && Dropped() == old(Dropped())
      ensures s <= start && InHand(old(m), m, start, s, end - s) && NoLargeBefore(m, s)
      ensures s == LeftEdge(old(m), start)
      ensures m == if s == start then old(m) else (old(m) - {start})[s := Out(end - s)]
      ensures KeepsContents(old(words[..]), words[..], old(m) - {start})
    {
      hide ArenaOk, KeepsContents, Sum, NoLargeBefore, NoLargeAt, InHand, LeftEdge, RightEdge;
      ghost var st := St();
      LeftNeighbour(st, start);
      InHandAlready(st, start, end - start);
      s := start;
      if start in largeByEnd {
        var prev := largeByEnd[start];
        var n := largeByStart[prev];
        UnlinkLarge(prev, n);
        KeepsContentsLess(st.ws, words[..], st.m, st.m - {start});
        MergeStep(St(), prev, start);
        SumMerge(m, TailLen, prev, start, Out(end - prev));
        InHandMerge(st.m, m, start, prev, prev, start);
        NoLargeMerged(st.m, m, prev, start, prev, n, end - prev, start);
        assert (m - {start})[prev := Out(end - prev)] == (st.m - {start})[prev := Out(end - prev)];
        m := (m - {start})[prev := Out(end - prev)];
        s := prev;
      }
    }

    /** Merges the block in hand with a free LARGE block that starts where it ends. */
    method AbsorbRight(start: nat, end: nat) returns (e: nat)
      requires Valid() && start < end && start in m && m[start] == Out(end - start) && NoLargeBefore(m, start)
      modifies this, words
      ensures Valid() && words == old(words) && bump == old(bump) && Dropped() == old(Dropped())
      ensures end <= e && InHand(old(m), m, start, start, e - start) && NoLargeBefore(m, start) && NoLargeAt(m, e)
      ensures e == RightEdge(old(m), end)
      ensures m == if e == end then old(m) else (old(m) - {end})[start := Out(e - start)]
      ensures KeepsContents(old(words[..]), words[..], old(m) - {start})
    {
      hide ArenaOk, KeepsContents, Sum, NoLargeBefore, NoLargeAt, InHand, LeftEdge, RightEdge;
      ghost var st := St();
      RightNeighbour(st, end);
      InHandAlready(st, start, end - start);
      e := end;
      if end in largeByStart {
        var n := largeByStart[end];
        UnlinkLarge(end, n);
        KeepsContentsLess(st.ws, words[..], st.m, st.m - {start});
        MergeStep(St(), start, end);
        SumMerge(m, TailLen, start, end, Out(end + n - start));
        InHandMerge(st.m, m, start, end, start, end);
        NoLargeMerged(st.m, m, start, end, end, n, end + n - start, end + n);
        assert m - {end} == st.m - {end};
        m := (m - {end})[start := Out(end + n - start)];
        e := end + n;
      }
    }

    /** Returns a block of more than 64 words: merged with its free neighbours, it goes to its
        bucket, or lowers the bump pointer when it ends there. */
    method FreeLarge(ref: nat, n: nat)
      requires Valid() && ref in m && m[ref] == Out(n) && n > LARGE_THRESHOLD
      modifies this, words
      ensures Valid() && words == old(words) && Dropped() == old(Dropped())
      ensures Contents() == old(Contents()) - {ref}
      ensures bump <= old(bump) && (m, bump) == Freed(old(m), old(bump), ref, n)
    {
      hide ArenaOk, KeepsContents, Sum, NoLargeBefore, NoLargeAt, InHand, Held, Insertable, Cleared;
      hide LeftEdge, RightEdge, Around;
      ghost var st := St();
      var start := AbsorbLeft(ref, ref + n);
      ghost var st1 := St();
      InHandHolds(st.m, st1.m, ref, start, ref + n - start);
      var end := AbsorbRight(start, ref + n);
      ghost var st2 := St();
      InHandHolds(st1.m, st2.m, start, start, end - start);
      InHandTwice(st.m, st1.m, st2.m, ref, start, ref + n - start, start, end - start);
      InHandKeeps(st.ws, st1.ws, st2.ws, st.m, st1.m, ref, start, ref + n - start);
      JoinedBoth(st.m, st1.m, st2.m, ref, n, start, end);
      PutBack(start, end);
      InHandKeeps(st.ws, st2.ws, words[..], st.m, st2.m, ref, start, end - start);
      InHandGone(st.ws, words[..], st.m, st2.m, m, ref, start, end - start);
    }

    /** A merged block goes to its bucket, or is cleared and lowers the bump pointer. */
    method PutBack(start: nat, end: nat)
      requires Valid() && start + LARGE_THRESHOLD < end && start in m && m[start] == Out(end - start)
      requires NoLargeBefore(m, start) && NoLargeAt(m, end)
      modifies this, words
      ensures Valid() && words == old(words) && Dropped() == old(Dropped())
      ensures m == if end == old(bump) then old(m) - {start} else old(m)[start := Large(end - start)]
      ensures bump == if end == old(bump) then start else old(bump)
      ensures KeepsContents(old(words[..]), words[..], old(m) - {start})
    {
      hide ArenaOk, KeepsContents, Sum, NoLargeBefore, NoLargeAt, Insertable, Cleared;
      ghost var st := St();
      HandReady(st, start, end - start);
      if end == bump {
        BumpBound(st);
        Clear(start, end);
        RetreatStep(st, start, words[..]);
        SumRemove(m, TailLen, start);
        bump := start;
        m := m - {start};
      } else {
        InsertLarge(start, end - start);
      }
    }

    method Clear(lo: nat, hi: nat)
      requires lo <= hi <= words.Length
      modifies words
      ensures Cleared(old(words[..]), words[..], lo, hi)
    {
      var i := lo;
      while i < hi
        invariant lo <= i <= hi
        invariant Cleared(old(words[..]), words[..], lo, i)
      {
        words[i] := 0;
        i := i + 1;
      }
    }

    // ---- small buckets ----

    /** Pushes a block onto the front of its bucket. */
    method PushSizeClass(ref: nat, c: nat)
      requires Valid() && c < NUM_CLASSES && ref in m && m[ref] == Out(ClassWords(c))
      modifies this, words
      ensures Valid() && words == old(words) && bump == old(bump) && Dropped() == old(Dropped())
      ensures m == old(m)[ref := Small(c)] && largeByStart == old(largeByStart)
      ensures KeepsContents(old(words[..]), words[..], old(m) - {ref})
    {
      hide ArenaOk, KeepsContents, Sum;
      ghost var st := St();
      PushStep(st, ref, c);
      SumUpdate(m, TailLen, ref, Small(c));
      words[ref] := freeHeads[c];
      smallAfter := smallAfter[ref := {ref} + Behind(smallAfter, freeHeads[c])];
      freeHeads := freeHeads[c := ref];
      freeBytes := freeBytes + 8 * ClassWords(c);
      m := m[ref := Small(c)];
      assert words[..] == st.ws[ref := st.smallHeads[c]];
      assert St() == Pushed(st, ref, c);
    }

    /** Takes the front block of a bucket, 0 when there is none. */
    method PopSizeClass(c: nat) returns (ref: nat)
      requires Valid() && c < NUM_CLASSES
      modifies this
      ensures Valid() && words == old(words) && words[..] == old(words[..]) && bump == old(bump)
      ensures Dropped() == old(Dropped())
      ensures ref == 0 ==> St() == old(St()) && forall s :: s in m ==> m[s] != Small(c)
      ensures ref != 0 ==> ref in old(m) && old(m)[ref] == Small(c) && m == old(m)[ref := Out(ClassWords(c))]
    {
      hide ArenaOk, Sum;
      ghost var st := St();
      PopStep(st, c);
      ref := freeHeads[c];
      if ref == 0 {
        NoneInBucket(st, c);
        return;
      }
      SumUpdate(m, TailLen, ref, Out(ClassWords(c)));
      smallAfter := Without(smallAfter, ref);
      freeHeads := freeHeads[c := words[ref]];
      freeBytes := freeBytes - 8 * ClassWords(c);
      m := m[ref := Out(ClassWords(c))];
      assert St() == Popped(st, c);
    }

    /** Returns a block to the free lists; nbytes is what was asked for. */
    method Free(ref: nat, nbytes: nat)
      requires Valid()
      requires ref != 0 ==> ref in m && m[ref] == Out(BlockWords(nbytes))
      modifies this, words
      ensures Valid() && words == old(words) && Dropped() == old(Dropped())
      ensures Contents() == if ref == 0 then old(Contents()) else old(Contents()) - {ref}
      ensures bump <= old(bump)
      ensures (m, bump) == if ref == 0 then old((m, bump)) else Freed(old(m), old(bump), ref, BlockWords(nbytes))
      ensures ref != 0 && BlockWords(nbytes) <= LARGE_THRESHOLD ==>
        KeepsContents(old(words[..]), words[..], old(m) - {ref})
    {
      hide ArenaOk, KeepsContents, Sum, Held, LeftEdge, RightEdge, Around;
      if ref == 0 {
        return;
      }
      var n := if nbytes == 0 then 1 else (nbytes + 7) / 8;
      if n <= LARGE_THRESHOLD {
        SizeClassTight(n);
        PushSizeClass(ref, SizeClass(n));
        HeldWithout(old(words[..]), words[..], old(m), m, ref);
      } else {
        FreeLarge(ref, n);
      }
    }

    // ---- first fit ----

    ghost method CutBlock(s: nat, a: nat)
      requires Valid() && s in m && m[s].Out? && 0 < a < m[s].n
      modifies `m
      ensures Valid() && Dropped() == old(Dropped())
      ensures s + a !in old(m) && m == old(m)[s := Out(a)][s + a := Out(old(m)[s].n - a)]
    {
      hide ArenaOk, Sum;
      var n := m[s].n;
      SplitStep(St(), s, a);
      SumUpdate(m, TailLen, s, Out(a));
      m := m[s := Out(a)];
      assert m - {s + a} == m;
      SumInsert(m, TailLen, s + a, Out(n - a));
      m := m[s + a := Out(n - a)];
    }

    ghost method DropTail(s: nat)
      requires Valid() && s in m && m[s].Out? && m[s].n <= MAX_TAIL
      modifies `m
      ensures Valid() && Dropped() == old(Dropped()) + old(m)[s].n
      ensures m == old(m)[s := Tail(old(m)[s].n)]
    {
      hide ArenaOk, Sum;
      TailStep(St(), s);
      SumUpdate(m, TailLen, s, Tail(m[s].n));
      m := m[s := Tail(m[s].n)];
    }

    /** Returns up to 64 words that follow a block in hand: the largest bucket that fits takes
        them, but for a tail of at most 7 words. */
    method ReturnSmall(r: nat, rem: nat) returns (ghost t: nat)
      requires Valid() && r in m && m[r] == Out(rem) && 0 < rem <= LARGE_THRESHOLD
      modifies this, words
      ensures Valid() && words == old(words) && bump == old(bump)
      ensures r in m && !m[r].Out? && (forall t :: t in old(m) && t != r ==> t in m && m[t] == old(m)[t])
      ensures t !in old(m) && forall u :: u in m && u !in old(m) ==> u == t && m[u].Tail?
      ensures m == Returned(old(m), r, rem)
      ensures KeepsContents(old(words[..]), words[..], old(m) - {r})
      ensures old(Dropped()) <= Dropped() <= old(Dropped()) + MAX_TAIL
    {
      hide ArenaOk, KeepsContents, Sum, Held, SizeClass, ClassWords, BlockWords;
      var c := FloorClass(rem);
      if c >= 0 {
        ClassReturned(c);
        ghost var cw := ClassWords(c);
        ghost var ws := words[..];
        HandRoom(St(), r);
        t := bump;
        if cw < rem {
          t := r + cw;
          CutBlock(r, cw);
          DropTail(r + cw);
        }
        ghost var m1 := m;
        Free(r, 8 * ClassWords(c));
        KeepsContentsLess(ws, words[..], m1 - {r}, old(m) - {r});
      }
    }

    /** Divides a LARGE block just unlinked: its first `need` words go to the caller, the rest back
        to the free lists. */
    method SplitLarge(ref: nat, bw: nat, need: nat)
      requires Valid() && ref in m && m[ref] == Out(bw) && LARGE_THRESHOLD < need <= bw
      requires NoLargeAt(m, ref + bw) && ref + bw != bump
      modifies this, words
      ensures Valid() && words == old(words) && bump == old(bump)
      ensures InHand(old(m), m, ref, ref, need) && m == Divided(old(m), ref, bw, need)
      ensures KeepsContents(old(words[..]), words[..], old(m) - {ref})
      ensures old(Dropped()) <= Dropped() <= old(Dropped()) + MAX_TAIL
    {
      hide ArenaOk, KeepsContents, Sum, InHand, Insertable, NoLargeBefore, Returned, Divided;
      ghost var st := St();
      InHandAlready(st, ref, bw);
      DividedWhole(m, ref, bw);
      var rem := bw - need;
      if rem > 0 {
        var r := ref + need;
        DividedCut(m, ref, bw, need);
        CutBlock(ref, need);
        ghost var st1 := St();
        if rem > LARGE_THRESHOLD {
          NothingBefore(st1, ref, need);
          HandReady(st1, r, rem);
          InsertLarge(r, rem);
          InHandSplit(st.m, m, ref, need, r, r);
        } else {
          ghost var t := ReturnSmall(r, rem);
          InHandSplit(st.m, m, ref, need, r, t);
        }
        KeepsContentsLess(st.ws, words[..], st1.m - {r}, st.m - {ref});
      }
    }

    /** First fit over the LARGE buckets, from the one the request belongs to. 0 means that no free
        LARGE block has `need` words. */
    method PopLarge(need: nat) returns (ref: nat)
      requires Valid() && need > LARGE_THRESHOLD
      modifies this, words
      ensures Valid() && words == old(words) && bump == old(bump)
      ensures ref == 0 ==> St() == old(St())
      ensures ref == 0 ==> forall s :: s in m && m[s].Large? ==> m[s].n < need
      ensures ref != 0 ==> ref in old(m) && old(m)[ref].Large? && old(m)[ref].n >= need
      ensures ref != 0 ==> InHand(old(m)[ref := Out(need)], m, ref, ref, need)
      ensures ref != 0 ==> m == Divided(old(m), ref, old(m)[ref].n, need)
      ensures ref != 0 ==> KeepsContents(old(words[..]), words[..], old(m))
      ensures old(Dropped()) <= Dropped() <= old(Dropped()) + MAX_TAIL
    {
      hide ArenaOk, KeepsContents, Sum, InHand, LargeClass, InBucket, Divided;
      ghost var st := St();
      var cc := LargeClass(need);
      while cc < NUM_LARGE
        invariant LargeClass(need) <= cc <= NUM_LARGE && St() == st && words == old(words) && unchanged(words)
        invariant forall s: nat, c: nat :: LargeClass(need) <= c < cc && InBucket(m, s, c) ==> TooSmall(m, s, need)
      {
        BucketStart(st, cc);
        ref := largeFreeHeads[cc];
        while ref != 0
          invariant St() == st && words == old(words) && unchanged(words)
          invariant ref != 0 ==> InBucket(m, ref, cc) && ref in largeAfter
          invariant forall s: nat :: InBucket(m, s, cc) ==> s in Behind(largeAfter, ref) || TooSmall(m, s, need)
          decreases Behind(largeAfter, ref)
        {
          NextInBucket(st, ref, cc);
          BucketSizes(m, ref, cc);
          var bw := words[ref + 1];
          if bw < need {
            ref := words[ref];
            continue;
          }
          RightOfLarge(st, ref);
          UnlinkLarge(ref, bw);
          ghost var st1 := St();
          SplitLarge(ref, bw, need);
          InHandFrom(st.m, st1.m, m, ref, bw, need);
          DividedAnew(st.m, ref, bw, need);
          KeepsContentsTwice(st.ws, st1.ws, words[..], st.m, st1.m, ref, bw);
          return;
        }
        cc := cc + 1;
      }
      ref := 0;
      NothingFits(st, need);
    }

    /** Clears a block about to be handed out. */
    method ZeroFill(ref: nat, n: nat)
      requires Valid() && ref in m && m[ref] == Out(n)
      modifies words
      ensures Valid() && ref + n <= words.Length
      ensures words[ref..ref + n] == Zeros(n)
      ensures KeepsContents(old(words[..]), words[..], m - {ref})
    {
      hide ArenaOk, KeepsContents, Sum;
      HandRoom(St(), ref);
      InHandAlready(St(), ref, n);
      var i := 0;
      while i < n
        invariant 0 <= i <= n && Valid()
        invariant forall j :: ref <= j < ref + i ==> words[j] == 0
        invariant KeepsContents(old(words[..]), words[..], m - {ref})
      {
        ghost var ws := words[..];
        WriteStep(St(), ref, ref + i, 0);
        words[ref + i] := 0;
        assert words[..] == ws[ref + i := 0];
        KeepsContentsTransitive(old(words[..]), ws, words[..], m - {ref}, m - {ref});
        i := i + 1;
      }
    }

    // ---- the backing ----

    /** Replaces the backing by one of newCap words holding the words below `keep`. */
    method SetBacking(newCap: nat, keep: nat)
      requires Valid() && bump <= newCap <= maxCap && bump <= keep <= words.Length && keep <= newCap
      modifies this`words
      ensures Valid() && fresh(words) && words.Length == newCap
      ensures Contents() == old(Contents())
      ensures words[..bump] == old(words[..bump])
    {
      hide ArenaOk, KeepsContents, Sum, Held, ZeroFrom;
      ghost var st := St();
      var newWords := new nat[newCap](_ => 0);
      var i := 0;
      while i < keep
        invariant 0 <= i <= keep && St() == st && words == old(words)
        invariant forall j :: 0 <= j < i ==> newWords[j] == words[j]
        invariant forall j :: i <= j < newCap ==> newWords[j] == 0
      {
        newWords[i] := words[i];
        i := i + 1;
      }
      ZeroAbove(st, newWords[..], keep);
      ResizeStep(st, newWords[..]);
      HeldSame(st.ws, newWords[..], m, m);
      words := newWords;
    }

    /** Doubles the capacity until minWords fit; false for the panic past the maximum. */
    method Grow64(minWords: nat) returns (ok: bool)
      requires Valid()
      modifies this`words
      ensures Valid() && Contents() == old(Contents())
      ensures ok <==> minWords <= maxCap
      ensures !ok ==> words == old(words)
      ensures ok ==>
        fresh(words) && 0 < old(words.Length) && words.Length == GrownCap(old(words.Length), minWords, maxCap)
      ensures ok ==> minWords <= words.Length && old(words.Length) <= words.Length
    {
      hide ArenaOk, Sum, Held;
      if minWords > maxCap {
        return false;
      }
      BumpBound(St());
      var newCap := words.Length;
      if newCap == 0 {
        newCap := 1;
      }
      while newCap < minWords
        invariant words.Length <= newCap <= maxCap && newCap >= 1
        invariant GrownCap(newCap, minWords, maxCap) == GrownCap(words.Length, minWords, maxCap)
        decreases maxCap - newCap
      {
        if newCap > maxCap / 2 {
          newCap := maxCap;
          break;
        }
        newCap := 2 * newCap;
      }
      GrownEnough(words.Length, minWords, maxCap);
      SetBacking(newCap, words.Length);
      return true;
    }

    /** Swaps in a smaller backing when the present one is more than twice what is expected. */
    method Compact(target: nat)
      requires Valid()
      modifies this`words
      ensures Valid() && Contents() == old(Contents())
      ensures words.Length == ShrunkCap(old(words.Length), bump, target, maxCap)
      ensures ShrunkAs(old(words.Length), bump, target, words.Length)
      ensures if words.Length == old(words.Length) then words == old(words) else fresh(words)
      ensures bump <= words.Length <= old(words.Length)
      ensures words.Length < old(words.Length) ==>
        2 * words.Length < old(words.Length) && 8 * words.Length >= Min(target, 8 * maxCap)
    {
      hide ArenaOk, Sum, Held, ShrunkAs;
      BumpBound(St());
      ShrunkSo(words.Length, bump, target, maxCap);
      var newCap := (target + 7) / 8;
      if newCap < bump {
        newCap := bump;
      }
      if newCap < MIN_WORDS {
        newCap := MIN_WORDS;
      }
      if newCap > maxCap {
        newCap := maxCap;
      }
      if words.Length <= 2 * newCap {
        return;
      }
      SetBacking(newCap, bump);
    }

    // ---- what callers use ----

    /** Carves n words at the bump pointer, where everything is still zero. */
    method Carve(n: nat) returns (r: Allocation)
      requires Valid() && n > 0
      modifies this
      ensures Valid() && (words == old(words) || fresh(words))
      ensures r.Refused? <==> old(bump) + n > maxCap
      ensures r.Refused? ==> St() == old(St())
      ensures 0 < old(words.Length) <= maxCap && words.Length == GrownCap(old(words.Length), bump, maxCap)
      ensures r.At? ==> r.ref !in old(Contents()) && Contents() == old(Contents())[r.ref := Zeros(n)]
      ensures r.At? ==> r.ref == old(bump) && m == old(m)[old(bump) := Out(n)] && bump == old(bump) + n
      ensures Dropped() == old(Dropped())
    {
      hide ArenaOk, KeepsContents, Sum, Held;
      BumpBound(St());
      if bump + n > words.Length {
        var ok := Grow64(bump + n);
        if !ok {
          return Refused;
        }
      }
      ghost var st := St();
      AppendStep(st, n);
      CarvedContents(st, n);
      assert m - {bump} == m;
      SumInsert(m, TailLen, bump, Out(n));
      r := At(bump);
      m := m[bump := Out(n)];
      bump := bump + n;
    }

    /** A zeroed block of at least nbytes, disjoint from everything outstanding; refused only past
        the maximum capacity. */
    method AllocBytes(nbytes: nat) returns (r: Allocation)
      requires Valid()
      modifies this, words
      ensures Valid() && (words == old(words) || fresh(words))
      ensures r.At? ==> r.ref !in old(Contents())
      ensures r.At? ==> Contents() == old(Contents())[r.ref := Zeros(BlockWords(nbytes))]
      ensures r.At? ==> nbytes <= 8 * |Contents()[r.ref]| && (nbytes > 0 ==> 8 * |Contents()[r.ref]| <= nbytes + 63)
      ensures r.At? ==> old(Dropped()) <= Dropped() <= old(Dropped()) + MAX_TAIL
      ensures r.At? ==> Granted(old(m), old(bump), BlockWords(nbytes), r.ref, m, bump)
      ensures 0 < old(words.Length) <= maxCap && words.Length == GrownCap(old(words.Length), bump, maxCap)
      ensures r.Refused? ==> St() == old(St())
      ensures r.Refused? <==>
        nbytes > 8 * maxCap || (NoneFits(old(m), BlockWords(nbytes)) && old(bump) + BlockWords(nbytes) > maxCap)
    {
      hide ArenaOk, KeepsContents, Sum, Held, InHand, Divided, GrownCap;
      BumpBound(St());
      GrownEnough(words.Length, bump, maxCap);
      if nbytes > 8 * maxCap {
        return Refused;
      }
      var n := if nbytes == 0 then 1 else (nbytes + 7) / 8;
      if n <= LARGE_THRESHOLD {
        SizeClassTight(n);
        var c := SizeClass(n);
        var ref := PopSizeClass(c);
        if ref != 0 {
          ZeroFill(ref, ClassWords(c));
          PoppedContents(old(words[..]), words[..], old(m), m, ref, ClassWords(c));
          return At(ref);
        }
        n := ClassWords(c);
      } else {
        var ref := PopLarge(n);
        if ref != 0 {
          ghost var st1 := St();
          InHandHolds(old(m)[ref := Out(n)], m, ref, ref, n);
          ZeroFill(ref, n);
          FitContents(old(words[..]), st1.ws, words[..], old(m), m, ref, n);
          return At(ref);
        }
      }
      assert NoneFits(m, n);
      r := Carve(n);
    }

    /** A caller's write into a block it holds. */
    method SetWordAt(ref: nat, i: nat, v: nat)
      requires Valid() && ref in Contents() && i < |Contents()[ref]|
      modifies words
      ensures Valid() && Contents() == old(Contents())[ref := Put(old(Contents())[ref], i, v)]
    {
      hide ArenaOk, Sum, Held;
      ghost var st := St();
      HeldWritten(st, ref, i, v);
      words[ref + i] := v;
      assert words[..] == st.ws[ref + i := v];
    }

    /** A caller's read from a block it holds. */
    method WordAt(ref: nat, i: nat) returns (v: nat)
      requires Valid() && ref in Contents() && i < |Contents()[ref]|
      ensures v == Contents()[ref][i]
    {
      HandRoom(St(), ref);
      v := words[ref + i];
    }
  }
}
