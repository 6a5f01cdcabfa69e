/** Whole runs of the arena: what any sequence of requests leaves. */
module ArenaRuns {
  import opened SizeClasses
  import opened ArenaLayout
  import opened ArenaMoves
  import opened ArenaState
  import opened FreeLists
  import opened ArenaContents
  import opened ArenaAllocator

  datatype Request =
    | Alloc(nbytes: nat)
    | Release(ref: nat)
    | Write(ref: nat, i: nat, v: nat)
    | Read(ref: nat, i: nat)
    | Shrink(target: nat)

  /** What a request did. */
  datatype Effect =
    | Gave(at: nat, n: nat)
    | Took(at: nat)
    | Wrote(at: nat, i: nat, v: nat)
    | Saw(at: nat, i: nat, v: nat)
    | Nothing

  ghost function Outcome(c: map<nat, seq<nat>>, e: Effect): map<nat, seq<nat>> {
    if e.Gave? then c[e.at := Zeros(e.n)]
    else if e.Took? then c - {e.at}
    else if e.Wrote? && e.at in c && e.i < |c[e.at]| then c[e.at := Put(c[e.at], e.i, e.v)]
    else c
  }

  /** A store of separate blocks, each created zeroed: what the arena is to stand for. */
  ghost function Replay(log: seq<Effect>): map<nat, seq<nat>> {
    if log == [] then map[]
    else
      Outcome(Replay(log[..|log| - 1]), log[|log| - 1])
  }

  /** No block is given out while it is still held. */
  ghost predicate GivesFresh(log: seq<Effect>) {
    forall k :: 0 <= k < |log| && log[k].Gave? ==> log[k].at !in Replay(log[..k])
  }

  lemma GivesFreshStep(log: seq<Effect>, e: Effect)
    requires GivesFresh(log) && (e.Gave? ==> e.at !in Replay(log))
    ensures GivesFresh(log + [e])
  {
    var l := log + [e];
    forall k | 0 <= k < |l| && l[k].Gave? ensures l[k].at !in Replay(l[..k]) {
      assert l[..k] == log[..k];
      assert k == |log| ==> log[..k] == log;
    }
  }

  lemma ReplayStep(log: seq<Effect>, e: Effect)
    ensures Replay(log + [e]) == Outcome(Replay(log), e)
  {
    assert (log + [e])[..|log|] == log;
  }

  /** What a caller remembers of its blocks: the bytes it asked for. */
  ghost predicate Remembers(held: map<nat, nat>, c: map<nat, seq<nat>>) {
    held.Keys == c.Keys && forall r :: r in held ==> r > 0 && |c[r]| == BlockWords(held[r])
  }

  /** The only reason to refuse: past the maximum by itself, or no free block fits and bump cannot move
      so far. */
  ghost predicate Full(st: State, maxCap: nat, nbytes: nat) {
    nbytes > 8 * maxCap || (NoneFits(st.m, BlockWords(nbytes)) && st.bump + BlockWords(nbytes) > maxCap)
  }

  /** The caller holds a block with that word. */
  predicate Holds(held: map<nat, nat>, ref: nat, i: nat) {
    ref in held && i < BlockWords(held[ref])
  }

  function WordIn(c: map<nat, seq<nat>>, ref: nat, i: nat): nat {
    if ref in c && i < |c[ref]| then c[ref][i] else 0
  }

  /** How each request must be answered: a block of at least the bytes asked for unless the arena is full; what is
      held and only that is taken back, written and read; what is read is what the blocks contain. */
  ghost predicate Answers(st: State, maxCap: nat, held: map<nat, nat>, q: Request, e: Effect)
  {
    var c := Held(st.ws, st.m);
    match q
    case Alloc(nbytes) =>
      if Full(st, maxCap, nbytes) then e == Nothing
      else e.Gave? && e.at > 0 && e.at !in c && e.n == BlockWords(nbytes) && 8 * e.n >= nbytes
    case Release(ref) => e == if ref in held then Took(ref) else Nothing
    case Write(ref, i, v) => e == if Holds(held, ref, i) then Wrote(ref, i, v) else Nothing
    case Read(ref, i) => e == if Holds(held, ref, i) then Saw(ref, i, WordIn(c, ref, i)) else Nothing
    case Shrink(_) => e == Nothing
  }

  /** What the caller holds afterwards. */
  function HeldAfter(held: map<nat, nat>, q: Request, e: Effect): map<nat, nat> {
    if e.Gave? && q.Alloc? then held[e.at := q.nbytes] else if e.Took? then held - {e.at} else held
  }

  /** One moment of a run: the arena's state and what its caller holds. */
  datatype Moment = Moment(st: State, held: map<nat, nat>)

  /** No free LARGE block lies next to another one or to the bump pointer. */
  ghost predicate Joined(st: State) {
    forall s :: s in st.m && st.m[s].Large? ==>
      var e := s + st.m[s].n;
      e != st.bump && (e in st.m ==> !st.m[e].Large?)
  }

  lemma AllJoined(st: State)
    requires ArenaOk(st)
    ensures Joined(st)
  {
  }

  /** The state is sound, free neighbours are joined, and the contents are what the log makes of an empty
      store. */
  ghost predicate Stands(w: Moment, log: seq<Effect>) {
    && ArenaOk(w.st) && Joined(w.st) && Held(w.st.ws, w.st.m) == Replay(log)
    && Remembers(w.held, Held(w.st.ws, w.st.m))
  }

  /** What each request does to the division into blocks, the bump pointer and the capacity: a block
      granted is a free one where one fits, and only else taken at the bump pointer; a block taken back
      is joined with its free neighbours; shrinking changes the capacity alone, and all else nothing. */
  ghost predicate Rearranged(w: State, maxCap: nat, held: map<nat, nat>, q: Request, e: Effect, w': State) {
    if e.Gave? then
      && Granted(w.m, w.bump, e.n, e.at, w'.m, w'.bump)
      && 0 < |w.ws| <= maxCap && |w'.ws| == GrownCap(|w.ws|, w'.bump, maxCap)
    else if e.Took? && e.at in held then
      (w'.m, w'.bump) == Freed(w.m, w.bump, e.at, BlockWords(held[e.at])) && |w'.ws| == |w.ws|
    else
      && w'.m == w.m && w'.bump == w.bump
      && if q.Shrink? then ShrunkAs(|w.ws|, w.bump, q.target, |w'.ws|) else |w'.ws| == |w.ws|
  }

  ghost predicate Served(w: Moment, maxCap: nat, q: Request, e: Effect, w': Moment) {
    && Answers(w.st, maxCap, w.held, q, e) && w'.held == HeldAfter(w.held, q, e)
    && Rearranged(w.st, maxCap, w.held, q, e, w'.st)
  }

  /** An arena nobody has asked for anything. */
  ghost predicate Unused(w: Moment, words: nat) {
    w.st.m == map[] && w.st.bump == 1 && |w.st.ws| == words && w.held == map[]
  }

  /** Any sequence of requests has the effect it would have on a store of separate blocks: from an unused
      arena, through sound states, every request is answered as it must be at its moment and changes the
      blocks as it must; a block is given unless the arena is full, blocks given are not held by anybody,
      and at every moment the contents are what the log makes of an empty store. The tails of splits take
      at most 7 words per request. */
  method Run(initialWords: nat, maxWords: nat, requests: seq<Request>)
    returns (a: Arena, log: seq<Effect>, ghost moments: seq<Moment>)
    requires 1 <= initialWords <= maxWords
    ensures fresh(a) && a.Valid() && a.maxCap == maxWords
    ensures |log| == |requests| && |moments| == |requests| + 1 && moments[|requests|].st == a.St()
    ensures Unused(moments[0], initialWords)
    ensures forall k :: 0 <= k <= |requests| ==> Stands(moments[k], log[..k])
    ensures forall k :: 0 <= k < |requests| ==> Served(moments[k], maxWords, requests[k], log[k], moments[k + 1])
    ensures GivesFresh(log) && a.Dropped() <= MAX_TAIL * |requests|
  {
    hide ArenaOk, Joined, Held, Sum, Replay, GivesFresh, Remembers, Answers, Rearranged;
    a := new Arena(initialWords, maxWords);
    var held: map<nat, nat> := map[];
    log := [];
    EmptyReplay();
    moments := [Moment(a.St(), held)];
    NothingHeld();
    AllJoined(a.St());
    var k := 0;
    while k < |requests|
      invariant 0 <= k <= |requests| && |log| == k && |moments| == k + 1
      invariant fresh(a) && fresh(a.words) && a.Valid() && a.maxCap == maxWords
      invariant moments[k] == Moment(a.St(), held) && Unused(moments[0], initialWords)
      invariant forall j :: 0 <= j <= k ==> Stands(moments[j], log[..j])
      invariant forall j :: 0 <= j < k ==> Served(moments[j], maxWords, requests[j], log[j], moments[j + 1])
      invariant GivesFresh(log) && a.Dropped() <= MAX_TAIL * k
    {
      assert log[..k] == log;
      ghost var before := log;
      var e;
      held, e := Serve(a, held, requests[k]);
      FreshIfGiven(moments[k].st, maxWords, moments[k].held, requests[k], e);
      GivesFreshStep(log, e);
      ReplayStep(log, e);
      AllJoined(a.St());
      log, moments := log + [e], moments + [Moment(a.St(), held)];
      assert forall j :: 0 <= j <= k ==> log[..j] == before[..j];
      assert log[..k + 1] == log;
      k := k + 1;
    }
  }

  lemma NothingHeld()
    ensures Remembers(map[], map[])
  {
  }

  lemma FreshIfGiven(st: State, maxCap: nat, held: map<nat, nat>, q: Request, e: Effect)
    requires Answers(st, maxCap, held, q, e)
    ensures e.Gave? ==> e.at !in Held(st.ws, st.m)
  {
  }

  lemma EmptyReplay()
    ensures Replay([]) == map[] && GivesFresh([])
  {
  }

  method Serve(a: Arena, held: map<nat, nat>, q: Request) returns (held': map<nat, nat>, e: Effect)
    requires a.Valid() && Remembers(held, a.Contents())
    modifies a, a.words
    ensures a.Valid() && (a.words == old(a.words) || fresh(a.words))
    ensures Answers(old(a.St()), a.maxCap, held, q, e) && Rearranged(old(a.St()), a.maxCap, held, q, e, a.St())
    ensures held' == HeldAfter(held, q, e) && Remembers(held', a.Contents())
    ensures old(a.Dropped()) <= a.Dropped() <= old(a.Dropped()) + MAX_TAIL
    ensures a.Contents() == Outcome(old(a.Contents()), e)
  {
    hide ArenaOk, Sum, Held, NoneFits, Granted, Freed, GrownCap, ShrunkAs, BlockWords;
    held', e := held, Nothing;
    match q
    case Alloc(nbytes) =>
      var r := a.AllocBytes(nbytes);
      if r.At? {
        held', e := held[r.ref := nbytes], Gave(r.ref, BlockWords(nbytes));
        HeldPositive(a.St(), r.ref);
      }
    case Release(ref) =>
      if ref in held {
        HeldBlock(a.St(), ref);
        a.Free(ref, held[ref]);
        held', e := held - {ref}, Took(ref);
      }
    case Write(ref, i, v) =>
      if Holds(held, ref, i) {
        a.SetWordAt(ref, i, v);
        e := Wrote(ref, i, v);
      }
    case Read(ref, i) =>
      if Holds(held, ref, i) {
        var v := a.WordAt(ref, i);
        e := Saw(ref, i, v);
      }
    case Shrink(target) =>
      a.Compact(target);
  }

  lemma HeldPositive(st: State, s: nat)
    requires ArenaOk(st) && s in Held(st.ws, st.m)
    ensures s > 0
  {
    HandRoom(st, s);
  }

  lemma HeldBlock(st: State, s: nat)
    requires ArenaOk(st) && s in Held(st.ws, st.m)
    ensures s in st.m && st.m[s] == Out(|Held(st.ws, st.m)[s]|)
  {
    HandRoom(st, s);
  }
}
