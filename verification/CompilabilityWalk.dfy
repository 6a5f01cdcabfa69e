/** The compilability visitor (internal/bridge/analyzer.go:198-696): it walks a function's body and,
    at calls of known local functions, theirs, expanding each at most once along any path of nested
    visitors. */
module CompilabilityWalk {
  import opened LuaSyntax
  import opened WalkTraces
  import TierMachine

  /** Signals that may depend on what a called name is bound to. */
  const BOUND: set<Signal> := {UsesDebug, UnknownCall}

  /** What a walk adds to, and what it knows of names. */
  datatype View = View(signals: set<Signal>, depth: nat, maxDepth: nat, inlined: set<nat>,
                       funcs: map<string, Expr>, aliases: set<string>, scopes: seq<ScopeFrame>)

  function NamesIn(v: View): Names {
    Names(v.funcs, v.aliases, v.scopes, v.inlined)
  }

  /** What the functions expanded in between show. */
  ghost function Expanded(d: Defs, before: set<nat>, after: set<nat>): set<Signal> {
    set f, s | f in after - before && f in d && s in OfBlock(d[f]).signals :: s
  }

  /** The names they give other meanings anywhere. */
  ghost function Touched(d: Defs, before: set<nat>, after: set<nat>): set<string> {
    set f, n | f in after - before && f in d && n in OfBlock(d[f]).touches + OfBlock(d[f]).rebinds :: n
  }

  /** The names they call as they found them. */
  ghost function Called(d: Defs, before: set<nat>, after: set<nat>): set<string> {
    set f, n | f in after - before && f in d && n in OfBlock(d[f]).calls :: n
  }

  /** The name stands for a known local function. */
  ghost predicate Known(v: View, n: string) {
    n in v.funcs && v.funcs[n].Func? && n !in v.aliases
  }

  /** Names known before, neither touched nor rebound, mean the same afterwards. */
  ghost predicate Keeps(v: View, w: View, touched: set<string>, rebinds: set<string>) {
    forall n :: Known(v, n) && n !in touched && n !in rebinds ==> Known(w, n) && w.funcs[n] == v.funcs[n]
  }

  /** Names known before, called and not touched, have their functions expanded. */
  ghost predicate Reaches(v: View, w: View, touched: set<string>, calls: set<string>) {
    forall n :: Known(v, n) && n !in touched && n in calls ==> v.funcs[n].id in w.inlined
  }

  /** Names bound and not touched mean what they were bound to. */
  ghost predicate Means(w: View, touched: set<string>, binds: map<string, nat>) {
    forall n :: n in binds && n !in touched ==> Known(w, n) && w.funcs[n].id == binds[n]
  }

  ghost predicate Ran(w: View, touched: set<string>, certain: set<(string, nat)>) {
    forall p :: p in certain && p.0 !in touched ==> p.1 in w.inlined
  }

  /** Which functions a walk must have expanded. An expanded body is walked in the caller's tables and
      may give a name another meaning, so all of this is about names no expanded function touches: what
      the syntax does not rebind is known as before; what it calls under its old meaning is expanded; if
      it does not touch a name at all, its expansions' calls of that name are expanded too; and what it
      bound itself is known so, and expanded where it was called. */
  ghost predicate Follows(d: Defs, v: View, w: View, s: Shows) {
    var touched := Touched(d, v.inlined, w.inlined);
    && Keeps(v, w, touched, s.rebinds)
    && Reaches(v, w, touched, s.calls)
    && Reaches(v, w, touched + (s.touches + s.rebinds), Called(d, v.inlined, w.inlined))
    && Means(w, touched, s.binds)
    && Ran(w, touched, s.certain)
  }

  // ---- no more than is called ----

  /** The known names with what they stand for. */
  ghost function Pairs(v: View): set<(string, nat)> {
    set n | n in v.funcs && Known(v, n) :: (n, v.funcs[n].id)
  }

  /** What the bodies of these functions bind. */
  ghost function Offered(d: Defs, fs: set<nat>): set<(string, nat)> {
    set f, p | f in fs && f in d && p in OfBlock(d[f]).offers :: p
  }

  /** The names they call. */
  ghost function Mentioned(d: Defs, fs: set<nat>): set<string> {
    set f, n | f in fs && f in d && n in OfBlock(d[f]).mentions :: n
  }

  /** Of the functions in e, those in c and syntax that shows s, in tables that hold `pairs`, call only ones
      in c: by a name any of them calls, known from the start or bound by any of them. */
  ghost predicate CallsWithin(d: Defs, pairs: set<(string, nat)>, s: Shows, e: set<nat>, c: set<nat>) {
    forall p :: p in pairs + s.offers + Offered(d, c) && p.0 in s.mentions + Mentioned(d, c) && p.1 in e ==> p.1 in c
  }

  /** Names mean what they meant, or what the walk bound; and a function is expanded only when it is called,
      from the syntax walked or from a function expanded before: no part of those expanded is closed under
      calls but the whole. */
  ghost predicate OnlyCalled(d: Defs, v: View, w: View, s: Shows) {
    var e := w.inlined - v.inlined;
    && Pairs(w) <= Pairs(v) + s.offers + Offered(d, e)
    && forall c :: c <= e && CallsWithin(d, Pairs(v), s, e, c) ==> c == e
  }

  lemma NothingCalled(d: Defs, v: View, w: View, s: Shows)
    requires w.inlined == v.inlined && Pairs(w) <= Pairs(v) + s.offers
    ensures OnlyCalled(d, v, w, s)
  {
  }

  lemma OnlyCalledBoth(d: Defs, v: View, w: View, x: View, a: Shows, b: Shows)
    requires v.inlined <= w.inlined <= x.inlined && OnlyCalled(d, v, w, a) && OnlyCalled(d, w, x, b)
    ensures OnlyCalled(d, v, x, Both(a, b))
  {
    hide Pairs, Mentioned, Offered;
    var e, f, g := w.inlined - v.inlined, x.inlined - w.inlined, x.inlined - v.inlined;
    assert g == e + f;
    OfferedJoins(d, e, f);
    forall c | c <= g && CallsWithin(d, Pairs(v), Both(a, b), g, c) ensures c == g {
      WithinLess(d, Pairs(v), Pairs(v), Both(a, b), a, g, c, e);
      assert c * e == e;
      OfferedLess(d, e, c);
      WithinLess(d, Pairs(v), Pairs(w), Both(a, b), b, g, c, f);
      assert c * f == f;
    }
  }

  lemma OfferedJoins(d: Defs, a: set<nat>, b: set<nat>)
    ensures Offered(d, a + b) == Offered(d, a) + Offered(d, b)
  {
    hide OfBlock;
    forall p | p in Offered(d, a + b) ensures p in Offered(d, a) + Offered(d, b) {
      var f :| f in a + b && f in d && p in OfBlock(d[f]).offers;
      assert f in a || f in b;
    }
  }

  lemma OfferedLess(d: Defs, a: set<nat>, b: set<nat>)
    requires a <= b
    ensures Offered(d, a) <= Offered(d, b)
  {
  }

  lemma MentionedLess(d: Defs, a: set<nat>, b: set<nat>)
    requires a <= b
    ensures Mentioned(d, a) <= Mentioned(d, b)
  {
  }

  /** The same for a part of the syntax and some of the functions, in tables that hold nothing the whole
      would not find. */
  lemma WithinLess(d: Defs, pairs: set<(string, nat)>, pairs': set<(string, nat)>, s: Shows, s': Shows,
                   e: set<nat>, c: set<nat>, e': set<nat>)
    requires CallsWithin(d, pairs, s, e, c) && e' <= e && pairs' <= pairs + s.offers + Offered(d, c)
    requires s'.offers <= s.offers + Offered(d, c) && s'.mentions <= s.mentions + Mentioned(d, c)
    ensures CallsWithin(d, pairs', s', e', c * e')
  {
    OfferedLess(d, c * e', c);
    MentionedLess(d, c * e', c);
    hide Offered, Mentioned;
  }

  // ---- no less than is called ----

  /** The names the bodies of these functions make aliases. */
  ghost function Aliased(d: Defs, fs: set<nat>): set<string> {
    set f, n | f in fs && f in d && n in OfBlock(d[f]).aliased :: n
  }

  /** One of the expanded functions is bound to the name. */
  ghost predicate Stands(pool: set<(string, nat)>, inlined: set<nat>, n: string) {
    exists f :: f in inlined && (n, f) in pool
  }

  /** Every name called, in the syntax walked or in an expanded body, was an alias of a safe library function
      or stood for a function that is expanded; else an unknown call is recorded. */
  ghost predicate Answered(d: Defs, v: View, w: View, s: Shows) {
    var e := w.inlined - v.inlined;
    && w.aliases <= v.aliases + s.aliased + Aliased(d, e)
    && (UnknownCall in w.signals || forall n :: n in s.mentions + Mentioned(d, e) ==>
          n in v.aliases + s.aliased + Aliased(d, e) || Stands(Pairs(v) + s.offers + Offered(d, e), w.inlined, n))
  }

  lemma NothingAsked(d: Defs, v: View, w: View, s: Shows)
    requires w.inlined == v.inlined && s.mentions == {} && w.aliases <= v.aliases + s.aliased
    ensures Answered(d, v, w, s)
  {
  }

  lemma AnsweredBoth(d: Defs, v: View, w: View, x: View, a: Shows, b: Shows)
    requires v.inlined <= w.inlined <= x.inlined && w.signals <= x.signals
    requires Answered(d, v, w, a) && Answered(d, w, x, b) && OnlyCalled(d, v, w, a)
    ensures Answered(d, v, x, Both(a, b))
  {
    var e, f, g := w.inlined - v.inlined, x.inlined - w.inlined, x.inlined - v.inlined;
    assert g == e + f;
    OfferedJoins(d, e, f);
    AskedJoins(d, e, f);
    hide Pairs, Mentioned, Offered, Aliased, CallsWithin;
    var s := Both(a, b);
    forall n | UnknownCall !in x.signals && n in s.mentions + Mentioned(d, g)
      && n !in v.aliases + s.aliased + Aliased(d, g)
      ensures Stands(Pairs(v) + s.offers + Offered(d, g), x.inlined, n)
    {
      if n in a.mentions + Mentioned(d, e) {
        StandsMore(Pairs(v) + a.offers + Offered(d, e), w.inlined, Pairs(v) + s.offers + Offered(d, g), x.inlined, n);
      } else {
        StandsMore(Pairs(w) + b.offers + Offered(d, f), x.inlined, Pairs(v) + s.offers + Offered(d, g), x.inlined, n);
      }
    }
  }

  lemma StandsMore(pool: set<(string, nat)>, fs: set<nat>, pool': set<(string, nat)>, fs': set<nat>, n: string)
    requires Stands(pool, fs, n) && pool <= pool' && fs <= fs'
    ensures Stands(pool', fs', n)
  {
  }

  lemma AskedJoins(d: Defs, a: set<nat>, b: set<nat>)
    ensures Mentioned(d, a + b) == Mentioned(d, a) + Mentioned(d, b)
    ensures Aliased(d, a + b) == Aliased(d, a) + Aliased(d, b)
  {
    hide OfBlock;
    forall n | n in Mentioned(d, a + b) ensures n in Mentioned(d, a) + Mentioned(d, b) {
      var f :| f in a + b && f in d && n in OfBlock(d[f]).mentions;
      assert f in a || f in b;
    }
    forall n | n in Aliased(d, a + b) ensures n in Aliased(d, a) + Aliased(d, b) {
      var f :| f in a + b && f in d && n in OfBlock(d[f]).aliased;
      assert f in a || f in b;
    }
  }

  /** A walk over syntax that shows s. Every signal of the syntax, and of every function it made the
      walk expand, is recorded; nothing else is, except that the call of a name may be unknown, or count
      for `debug`, as the name is bound. */
  ghost predicate Noted(d: Defs, v: View, w: View, s: Shows) {
    && v.inlined <= w.inlined
    && w.depth == v.depth && w.maxDepth >= v.maxDepth
    && v.signals + s.signals + Expanded(d, v.inlined, w.inlined) <= w.signals
    && w.signals - BOUND <= v.signals + s.signals + Expanded(d, v.inlined, w.inlined)
    && (s.nest > 0 ==> w.maxDepth >= v.depth + s.nest)
    && Follows(d, v, w, s) && OnlyCalled(d, v, w, s) && Answered(d, v, w, s)
  }

  /** Nothing more and nothing less: names stand afterwards for what the events met leave them standing for,
      on record is what those put there, and the depth is that of the literals among them. */
  ghost predicate Plays(d: Defs, v: View, w: View, es: seq<Event>) {
    var k, t := NamesIn(v), Flat(d, NamesIn(v), es);
    && NamesIn(w) == After(k, t) && w.signals == v.signals + Record(k, t)
    && Deepens(d, k, t, v.depth, v.maxDepth, w.maxDepth)
  }

  /** The deepest literal met so far, at `depth`: `was` before these events, `now` after them. */
  ghost predicate Deepens(d: Defs, k: Names, t: seq<Event>, depth: nat, was: nat, now: nat) {
    && now >= was
    && (forall m: nat :: m > 0 && Nested(d, k, t, m) ==> now >= depth + m)
    && (now > was ==> now > depth && Nested(d, k, t, now - depth))
  }

  ghost predicate WalkedBy(d: Defs, v: View, w: View, s: Shows) {
    Noted(d, v, w, s) && Plays(d, v, w, s.events) && Sums(d, v, w, s)
  }

  /** The signals among the events met are those of the syntax and of the functions expanded. */
  ghost predicate Sums(d: Defs, v: View, w: View, s: Shows) {
    SeenIn(Flat(d, NamesIn(v), s.events)) == s.signals + Expanded(d, v.inlined, w.inlined)
  }

  lemma SumsOne(d: Defs, v: View, w: View, e: Event, s: Shows)
    requires !Fresh(d, NamesIn(v), e) && w.inlined == v.inlined && s.events == [e]
    requires s.signals == if e.Sees? then e.signals else {}
    ensures Sums(d, v, w, s)
  {
    OneEvent(d, NamesIn(v), e);
    SeenOne(e);
    NoneExpanded(d, v.inlined);
    hide Flat, SeenIn, Expanded, Fresh, Nested;
  }

  /** A walk over a piece that is one such event. */
  lemma OneMet(d: Defs, v: View, w: View, e: Event, s: Shows)
    requires Noted(d, v, w, s) && s.events == [e] && s.signals == if e.Sees? then e.signals else {}
    requires !Fresh(d, NamesIn(v), e) && !e.Nests? && NamesIn(w) == Next(NamesIn(v), e) && w.inlined == v.inlined
    requires w.signals == v.signals + Recorded(NamesIn(v), e) && w.maxDepth == v.maxDepth
    ensures WalkedBy(d, v, w, s)
  {
    hide Noted, Plays, Sums, Fresh, Next, Recorded;
    PlaysOne(d, v, w, e);
    SumsOne(d, v, w, e, s);
  }

  lemma SumsThen(d: Defs, v: View, w: View, x: View, a: Shows, b: Shows)
    requires Sums(d, v, w, a) && Sums(d, w, x, b) && v.inlined <= w.inlined <= x.inlined
    requires NamesIn(w) == After(NamesIn(v), Flat(d, NamesIn(v), a.events))
    ensures Sums(d, v, x, Both(a, b))
  {
    FlatJoins(d, NamesIn(v), a.events, b.events);
    SeenJoins(Flat(d, NamesIn(v), a.events), Flat(d, NamesIn(w), b.events));
    ExpandedJoins(d, v.inlined, w.inlined, x.inlined);
    hide Flat, After, SeenIn, Expanded, Later, Meant;
  }

  lemma PlaysNone(d: Defs, v: View)
    ensures Plays(d, v, v, [])
  {
    FlatNone(d, NamesIn(v));
    assert v.signals + {} == v.signals;
  }

  /** One event that calls nothing to be expanded and is no literal. */
  lemma PlaysOne(d: Defs, v: View, w: View, e: Event)
    requires !Fresh(d, NamesIn(v), e) && !e.Nests? && NamesIn(w) == Next(NamesIn(v), e)
    requires w.signals == v.signals + Recorded(NamesIn(v), e) && w.maxDepth == v.maxDepth
    ensures Plays(d, v, w, [e])
  {
    OneEvent(d, NamesIn(v), e);
    hide Flat, After, Record, Next, Recorded, Fresh, Nested;
  }

  lemma PlaysAs(d: Defs, v: View, w: View, e: Event)
    requires !Fresh(d, NamesIn(v), e) && NamesIn(w) == Next(NamesIn(v), e)
    requires w.signals == v.signals + Recorded(NamesIn(v), e)
    requires Deepens(d, NamesIn(v), [e], v.depth, v.maxDepth, w.maxDepth)
    ensures Plays(d, v, w, [e])
  {
    hide Flat, After, Record, Next, Recorded, Fresh, Nested, Deepens;
    OneEvent(d, NamesIn(v), e);
  }

  lemma PlaysThen(d: Defs, v: View, w: View, x: View, a: seq<Event>, b: seq<Event>)
    requires Plays(d, v, w, a) && Plays(d, w, x, b) && w.depth == v.depth
    ensures Plays(d, v, x, a + b)
  {
    var k := NamesIn(v);
    var t, u := Flat(d, k, a), Flat(d, NamesIn(w), b);
    FlatJoins(d, k, a, b);
    AfterJoins(k, t, u);
    RecordJoins(k, t, u);
    hide Flat, Record, Nested;
    DeepensBoth(d, k, t, u, v.depth, v.maxDepth, w.maxDepth, x.maxDepth);
    hide After, Deepens;
  }

  lemma DeepensBoth(d: Defs, k: Names, t: seq<Event>, u: seq<Event>, depth: nat, a: nat, b: nat, c: nat)
    requires Deepens(d, k, t, depth, a, b) && Deepens(d, After(k, t), u, depth, b, c)
    ensures Deepens(d, k, t + u, depth, a, c)
  {
    hide Nested, After;
    forall m: nat | m > 0
      ensures Nested(d, k, t + u, m) <==> Nested(d, k, t, m) || Nested(d, After(k, t), u, m)
    {
      NestedJoins(d, k, t, u, m);
    }
  }

  lemma DeepensAs(d: Defs, k: Names, t: seq<Event>, k': Names, t': seq<Event>, depth: nat, was: nat, now: nat)
    requires Deepens(d, k, t, depth, was, now)
    requires forall m: nat :: m > 0 ==> (Nested(d, k', t', m) <==> Nested(d, k, t, m))
    ensures Deepens(d, k', t', depth, was, now)
  {
    hide Nested;
  }

  lemma ExpandedJoins(d: Defs, a: set<nat>, b: set<nat>, c: set<nat>)
    requires a <= b <= c
    ensures Expanded(d, a, c) == Expanded(d, a, b) + Expanded(d, b, c)
    ensures Touched(d, a, c) == Touched(d, a, b) + Touched(d, b, c)
    ensures Called(d, a, c) == Called(d, a, b) + Called(d, b, c)
  {
    assert c - a == (b - a) + (c - b);
    forall s | s in Expanded(d, a, c) ensures s in Expanded(d, a, b) + Expanded(d, b, c) {
      var f :| f in c - a && f in d && s in OfBlock(d[f]).signals;
      assert f in b - a || f in c - b;
    }
    forall n | n in Touched(d, a, c) ensures n in Touched(d, a, b) + Touched(d, b, c) {
      var f :| f in c - a && f in d && n in OfBlock(d[f]).touches + OfBlock(d[f]).rebinds;
      assert f in b - a || f in c - b;
    }
    forall n | n in Called(d, a, c) ensures n in Called(d, a, b) + Called(d, b, c) {
      var f :| f in c - a && f in d && n in OfBlock(d[f]).calls;
      assert f in b - a || f in c - b;
    }
  }

  lemma NoneExpanded(d: Defs, a: set<nat>)
    ensures Expanded(d, a, a) == {} && Touched(d, a, a) == {} && Called(d, a, a) == {}
  {
  }

  lemma Stay(d: Defs, v: View)
    ensures WalkedBy(d, v, v, NOTHING)
  {
    NothingCalled(d, v, v, NOTHING);
    NothingAsked(d, v, v, NOTHING);
    hide OnlyCalled, Answered, Plays;
    NoneExpanded(d, v.inlined);
    PlaysNone(d, v);
    FlatNone(d, NamesIn(v));
  }

  lemma Then(d: Defs, v: View, w: View, x: View, a: Shows, b: Shows)
    requires WalkedBy(d, v, w, a) && WalkedBy(d, w, x, b)
    ensures WalkedBy(d, v, x, Both(a, b))
  {
    NotedThen(d, v, w, x, a, b);
    PlaysThen(d, v, w, x, a.events, b.events);
    SumsThen(d, v, w, x, a, b);
    hide Noted, Plays, Sums;
  }

  lemma NotedThen(d: Defs, v: View, w: View, x: View, a: Shows, b: Shows)
    requires Noted(d, v, w, a) && Noted(d, w, x, b)
    ensures Noted(d, v, x, Both(a, b))
  {
    ExpandedJoins(d, v.inlined, w.inlined, x.inlined);
    FollowsBoth(d, v, w, x, a, b);
    OnlyCalledBoth(d, v, w, x, a, b);
    AnsweredBoth(d, v, w, x, a, b);
    hide Expanded, Follows, OnlyCalled, Answered, Later, Meant;
    forall s | s in x.signals - BOUND
      ensures s in v.signals + (a.signals + b.signals) + Expanded(d, v.inlined, x.inlined)
    {
      if s in w.signals { assert s in w.signals - BOUND; }
    }
  }

  lemma FollowsBoth(d: Defs, v: View, w: View, x: View, a: Shows, b: Shows)
    requires v.inlined <= w.inlined <= x.inlined && Follows(d, v, w, a) && Follows(d, w, x, b)
    ensures Follows(d, v, x, Both(a, b))
  {
    ExpandedJoins(d, v.inlined, w.inlined, x.inlined);
    var t, u := Touched(d, v.inlined, w.inlined), Touched(d, w.inlined, x.inlined);
    KeepsBoth(v, w, x, t, u, a.rebinds, b.rebinds);
    ReachesBoth(v, w, x, t, u, a.rebinds, a.calls, b.calls);
    var c, e := Called(d, v.inlined, w.inlined), Called(d, w.inlined, x.inlined);
    ReachesOn(v, w, x, t, u, a.rebinds, a.touches + a.rebinds, b.touches + b.rebinds, c, e);
    assert Both(a, b).touches + Both(a, b).rebinds == (a.touches + a.rebinds) + (b.touches + b.rebinds);
    MeansBoth(w, x, t, u, a, b);
    hide Expanded, Touched, Called, Later, Meant, Keeps, Reaches, Means, Ran;
  }

  lemma KeepsBoth(v: View, w: View, x: View, t: set<string>, u: set<string>, a: set<string>, b: set<string>)
    requires Keeps(v, w, t, a) && Keeps(w, x, u, b)
    ensures Keeps(v, x, t + u, a + b)
  {
    forall n | Known(v, n) && n !in t + u && n !in a + b ensures Known(x, n) && x.funcs[n] == v.funcs[n] {
      assert Known(w, n);
    }
  }

  lemma ReachesBoth(v: View, w: View, x: View, t: set<string>, u: set<string>, a: set<string>, c: set<string>,
                    e: set<string>)
    requires w.inlined <= x.inlined && Keeps(v, w, t, a) && Reaches(v, w, t, c) && Reaches(w, x, u, e)
    ensures Reaches(v, x, t + u, c + (e - a))
  {
    forall n | Known(v, n) && n !in t + u && n in c + (e - a) ensures v.funcs[n].id in x.inlined {
      if n !in c { assert Known(w, n); }
    }
  }

  lemma ReachesOn(v: View, w: View, x: View, t: set<string>, u: set<string>, a: set<string>,
                  p: set<string>, q: set<string>, c: set<string>, e: set<string>)
    requires w.inlined <= x.inlined && a <= p
    requires Keeps(v, w, t, a) && Reaches(v, w, t + p, c) && Reaches(w, x, u + q, e)
    ensures Reaches(v, x, (t + u) + (p + q), c + e)
  {
    forall n | Known(v, n) && n !in (t + u) + (p + q) && n in c + e ensures v.funcs[n].id in x.inlined {
      if n !in c { assert Known(w, n); }
    }
  }

  lemma MeansBoth(w: View, x: View, t: set<string>, u: set<string>, a: Shows, b: Shows)
    requires w.inlined <= x.inlined && Means(w, t, a.binds) && Ran(w, t, a.certain)
    requires Keeps(w, x, u, b.rebinds) && Reaches(w, x, u, b.calls) && Means(x, u, b.binds) && Ran(x, u, b.certain)
    ensures Means(x, t + u, Both(a, b).binds) && Ran(x, t + u, Both(a, b).certain)
  {
    forall n | n in Both(a, b).binds && n !in t + u ensures Known(x, n) && x.funcs[n].id == Both(a, b).binds[n] {
      if n !in b.binds { assert n in a.binds && Known(w, n); }
    }
    forall p | p in Both(a, b).certain && p.0 !in t + u ensures p.1 in x.inlined {
      if p in Meant(a.binds, b.calls) { assert p.0 in a.binds && p.0 in b.calls && Known(w, p.0); }
    }
  }

  /** What names mean is restored at the end of a scope. */
  lemma Unscoped(d: Defs, v: View, u: View, w: View, s: Shows)
    requires u == v.(scopes := v.scopes + [ScopeFrame(v.funcs, v.aliases)]) && w.scopes == u.scopes
    requires WalkedBy(d, u, w, s)
    ensures WalkedBy(d, v, w.(funcs := v.funcs, aliases := v.aliases, scopes := v.scopes), Scoped(s))
  {
    var x := w.(funcs := v.funcs, aliases := v.aliases, scopes := v.scopes);
    UnscopedPlays(d, v, u, w, x, s.events);
    AnyScopes(d, u, w, v, w.(scopes := v.scopes), s);
    UnscopedNoted(d, v, w.(scopes := v.scopes), s);
    UnscopedSums(d, v, u, w, s);
    hide Plays, Noted, Sums;
  }

  lemma UnscopedPlays(d: Defs, v: View, u: View, w: View, x: View, es: seq<Event>)
    requires u == v.(scopes := v.scopes + [ScopeFrame(v.funcs, v.aliases)]) && w.scopes == u.scopes
    requires x == w.(funcs := v.funcs, aliases := v.aliases, scopes := v.scopes)
    requires Plays(d, u, w, es) && w.depth == u.depth
    ensures Plays(d, v, x, [Opens] + es + [Closes])
  {
    PlaysOne(d, v, u, Opens);
    assert u.scopes[..|u.scopes| - 1] == v.scopes;
    PlaysOne(d, w, x, Closes);
    PlaysThen(d, v, u, w, [Opens], es);
    PlaysThen(d, v, w, x, [Opens] + es, [Closes]);
    hide Plays;
  }

  lemma UnscopedSums(d: Defs, v: View, u: View, w: View, s: Shows)
    requires u == v.(scopes := v.scopes + [ScopeFrame(v.funcs, v.aliases)]) && Plays(d, u, w, s.events)
    requires Sums(d, u, w, s)
    ensures Sums(d, v, w, Scoped(s))
  {
    var k, t := NamesIn(v), Flat(d, NamesIn(u), s.events);
    OneEvent(d, k, Opens);
    OneEvent(d, NamesIn(w), Closes);
    FlatJoins(d, k, [Opens], s.events);
    FlatJoins(d, k, [Opens] + s.events, [Closes]);
    AfterJoins(k, [Opens], t);
    SeenJoins([Opens], t);
    SeenJoins([Opens] + t, [Closes]);
    SeenOne(Opens);
    SeenOne(Closes);
    hide Flat, After, SeenIn, Expanded, Nested, Record;
  }

  /** What is noted does not depend on the scopes around. */
  lemma AnyScopes(d: Defs, v: View, w: View, v': View, w': View, s: Shows)
    requires Noted(d, v, w, s) && v' == v.(scopes := v'.scopes) && w' == w.(scopes := w'.scopes)
    ensures Noted(d, v', w', s)
  {
    assert forall n :: (Known(v', n) <==> Known(v, n)) && (Known(w', n) <==> Known(w, n));
    assert Pairs(v') == Pairs(v) && Pairs(w') == Pairs(w);
    hide Pairs, Known, Expanded, Touched, Called, Offered, Mentioned, Aliased, CallsWithin, Stands;
  }

  lemma UnscopedNoted(d: Defs, v: View, w: View, s: Shows)
    requires Noted(d, v, w, s)
    ensures Noted(d, v, w.(funcs := v.funcs, aliases := v.aliases), Scoped(s))
  {
    var x := w.(funcs := v.funcs, aliases := v.aliases);
    var touched := Touched(d, v.inlined, w.inlined);
    assert Keeps(v, x, touched, {}) && Means(x, touched, map[]) && Ran(x, touched, s.certain);
    assert Reaches(v, x, touched, s.calls)
      && Reaches(v, x, touched + (s.touches + s.rebinds), Called(d, v.inlined, w.inlined));
    assert Scoped(s).touches + Scoped(s).rebinds == s.touches + s.rebinds;
    ScopedCalls(d, v, w, x, s);
    hide OnlyCalled, Answered;
    hide Expanded, Touched, Called, Keeps, Reaches, Means, Ran;
  }

  lemma ScopedCalls(d: Defs, v: View, w: View, x: View, s: Shows)
    requires OnlyCalled(d, v, w, s) && Answered(d, v, w, s) && x == w.(funcs := v.funcs, aliases := v.aliases)
    ensures OnlyCalled(d, v, x, Scoped(s)) && Answered(d, v, x, Scoped(s))
  {
    assert Pairs(x) == Pairs(v);
    hide Pairs, Offered, Mentioned, Aliased, Stands;
    var e := w.inlined - v.inlined;
    forall c | CallsWithin(d, Pairs(v), Scoped(s), e, c) ensures CallsWithin(d, Pairs(v), s, e, c) {
    }
  }

  /** Names rebound, nothing else. */
  lemma Rebound(d: Defs, v: View, w: View, names: set<string>, funcs: map<string, Expr>, aliased: set<string>)
    requires w == v.(funcs := v.funcs - names + funcs, aliases := v.aliases - names + aliased)
    requires funcs.Keys <= names && aliased <= names && funcs.Keys !! aliased
    requires forall n :: n in funcs ==> funcs[n].Func?
    ensures WalkedBy(d, v, w, Rebinding(names, funcs, aliased))
  {
    assert w.signals == v.signals + {};
    NotedRebound(d, v, w, names, funcs, aliased);
    hide Noted, WalkedBy;
    OneMet(d, v, w, Rebinds(names, funcs, aliased), Rebinding(names, funcs, aliased));
  }

  lemma NotedRebound(d: Defs, v: View, w: View, names: set<string>, funcs: map<string, Expr>, aliased: set<string>)
    requires w == v.(funcs := v.funcs - names + funcs, aliases := v.aliases - names + aliased)
    requires funcs.Keys <= names && aliased <= names && funcs.Keys !! aliased
    requires forall n :: n in funcs ==> funcs[n].Func?
    ensures Noted(d, v, w, Rebinding(names, funcs, aliased))
  {
    var s := Rebinding(names, funcs, aliased);
    forall n | n in w.funcs && Known(w, n) ensures (n, w.funcs[n].id) in Pairs(v) + s.offers {
      if n in funcs { assert n in s.binds; } else { assert Known(v, n); }
    }
    NothingCalled(d, v, w, s);
    NothingAsked(d, v, w, s);
    hide OnlyCalled, Answered;
    NoneExpanded(d, v.inlined);
  }

  /** Known local functions are function literals of the program. */
  ghost predicate EnvOk(d: Defs, env: map<string, Expr>) {
    forall n :: n in env ==> env[n].Func? && In(d, env[n])
  }

  ghost predicate Closed(d: Defs) {
    forall id :: id in d ==> InBlock(d, d[id])
  }

  class Visitor {
    ghost const defs: Defs
    var signals: set<Signal>
    var currentDepth: nat
    var maxClosureDepth: nat
    var localFuncs: map<string, Expr>
    var safeAliases: set<string>
    var scopeStack: seq<ScopeFrame>
    var inlinedKnownCalls: set<nat>

    ghost predicate Valid()
      reads this
    {
      && Closed(defs) && inlinedKnownCalls <= defs.Keys
      && EnvOk(defs, localFuncs)
      && forall i :: 0 <= i < |scopeStack| ==> EnvOk(defs, scopeStack[i].saved)
    }

    ghost function Here(): View
      reads this
    {
      View(signals, currentDepth, maxClosureDepth, inlinedKnownCalls, localFuncs, safeAliases, scopeStack)
    }

    /** Functions still to be expanded. */
    ghost function Left(): set<nat>
      reads this
    {
      defs.Keys - inlinedKnownCalls
    }

    constructor (ghost defs: Defs, depth: nat, env: map<string, Expr>, aliases: set<string>, inlined: set<nat>)
      requires Closed(defs) && EnvOk(defs, env) && inlined <= defs.Keys
      ensures Valid() && this.defs == defs && Here() == View({}, depth, 0, inlined, env, aliases, [])
    {
      this.defs := defs;
      signals, currentDepth, maxClosureDepth := {}, depth, 0;
      localFuncs, safeAliases, scopeStack, inlinedKnownCalls := env, aliases, [], inlined;
    }

    method PushScope()
      requires Valid()
      modifies `scopeStack
      ensures Valid() && scopeStack == old(scopeStack) + [ScopeFrame(localFuncs, safeAliases)]
    {
      scopeStack := scopeStack + [ScopeFrame(localFuncs, safeAliases)];
    }

    method PopScope()
      requires Valid()
      modifies `scopeStack, `localFuncs, `safeAliases
      ensures Valid() && scopeStack == if old(scopeStack) == [] then [] else old(scopeStack[..|scopeStack| - 1])
      ensures ScopeFrame(localFuncs, safeAliases) ==
        old(if scopeStack == [] then ScopeFrame(localFuncs, safeAliases) else scopeStack[|scopeStack| - 1])
    {
      if |scopeStack| == 0 {
        return;
      }
      var frame := scopeStack[|scopeStack| - 1];
      scopeStack := scopeStack[..|scopeStack| - 1];
      localFuncs := frame.saved;
      safeAliases := frame.savedAliases;
    }

    method WalkBlock(b: seq<Stmt>)
      requires Valid() && InBlock(defs, b)
      modifies this
      ensures Valid() && scopeStack == old(scopeStack)
      ensures WalkedBy(defs, old(Here()), Here(), OfBlock(b))
      decreases Left(), b, 2
    {
      hide WalkedBy, EnvOk, Closed, Both, Scoped;
      Stay(defs, Here());
      var i := 0;
      while i < |b|
        invariant 0 <= i <= |b| && Valid() && scopeStack == old(scopeStack)
        invariant old(inlinedKnownCalls) <= inlinedKnownCalls
        invariant WalkedBy(defs, old(Here()), Here(), OfBlock(b[..i]))
      {
        ghost var v := Here();
        WalkStmt(b[i]);
        Then(defs, old(Here()), v, Here(), OfBlock(b[..i]), OfStmt(b[i]));
        Grows(defs, v, Here(), OfStmt(b[i]));
        assert b[..i + 1][..i] == b[..i];
        i := i + 1;
      }
      assert b[..i] == b;
    }

    method WalkExprs(es: seq<Expr>)
      requires Valid() && forall i :: 0 <= i < |es| ==> In(defs, es[i])
      modifies this
      ensures Valid() && scopeStack == old(scopeStack)
      ensures WalkedBy(defs, old(Here()), Here(), OfAll(es))
      decreases Left(), es, 2
    {
      hide WalkedBy, EnvOk, Closed, Both, Scoped;
      Stay(defs, Here());
      var i := 0;
      while i < |es|
        invariant 0 <= i <= |es| && Valid() && scopeStack == old(scopeStack)
        invariant old(inlinedKnownCalls) <= inlinedKnownCalls
        invariant WalkedBy(defs, old(Here()), Here(), OfAll(es[..i]))
      {
        ghost var v := Here();
        WalkExpr(es[i]);
        Then(defs, old(Here()), v, Here(), OfAll(es[..i]), Of(es[i]));
        Grows(defs, v, Here(), Of(es[i]));
        assert es[..i + 1][..i] == es[..i];
        i := i + 1;
      }
      assert es[..i] == es;
    }

    method WalkStmt(s: Stmt)
      requires Valid() && InStmt(defs, s)
      modifies this
      ensures Valid() && scopeStack == old(scopeStack)
      ensures WalkedBy(defs, old(Here()), Here(), OfStmt(s))
      ensures s.Do? || s.Repeat? ==> localFuncs == old(localFuncs) && safeAliases == old(safeAliases)
      ensures s.LocalFunc? ==>
        localFuncs == old(localFuncs)[s.name := s.fn] && safeAliases == old(safeAliases) - {s.name}
      ensures s.Local? ==> Registered(s.names, s.exprs, localFuncs, safeAliases)
      ensures s.Assign? ==> forall n :: n in NamesOf(s.targets) ==> n !in localFuncs && n !in safeAliases
      decreases Left(), s, 2
    {
      hide WalkedBy, EnvOk, Closed, Both, Scoped, OfAll, OfBlock, OfClauses, NamesOf, Rebinding;
      ghost var v := Here();
      Stay(defs, v);
      if s.Local? {
        WalkLocal(s);
      } else if s.LocalFunc? {
        WalkLocalFunc(s);
      } else if s.Assign? {
        WalkAssign(s);
      } else if s.CallStmt? {
        WalkExpr(s.call);
      } else if s.Do? {
        WalkScope(s.body);
      } else if s.While? {
        WalkExpr(s.cond);
        ghost var w := Here();
        Grows(defs, v, w, Of(s.cond));
        WalkScope(s.body);
        Then(defs, v, w, Here(), Of(s.cond), Scoped(OfBlock(s.body)));
      } else if s.Repeat? {
        WalkRepeat(s);
      } else if s.If? {
        WalkClauses(s.clauses);
        ghost var w := Here();
        Grows(defs, v, w, OfClauses(s.clauses));
        WalkScope(s.orElse);
        Then(defs, v, w, Here(), OfClauses(s.clauses), Scoped(OfBlock(s.orElse)));
      } else if s.NumFor? {
        WalkNumFor(s);
      } else if s.GenFor? {
        WalkExprs(s.exprs);
        ghost var w := Here();
        Grows(defs, v, w, OfAll(s.exprs));
        WalkScope(s.body);
        Then(defs, v, w, Here(), OfAll(s.exprs), Scoped(OfBlock(s.body)));
      } else if s.FuncStmt? {
        WalkExpr(s.target);
        ghost var w := Here();
        Grows(defs, v, w, Of(s.target));
        WalkFuncExpr(s.fn);
        Then(defs, v, w, Here(), Of(s.target), Of(s.fn));
      } else if s.Return? {
        WalkExprs(s.exprs);
      }
    }

    method WalkLocal(s: Stmt)
      requires Valid() && s.Local? && InStmt(defs, s)
      modifies this
      ensures Valid() && scopeStack == old(scopeStack)
      ensures WalkedBy(defs, old(Here()), Here(), OfStmt(s))
      ensures Registered(s.names, s.exprs, localFuncs, safeAliases)
      decreases Left(), s, 1
    {
      hide WalkedBy, EnvOk, Closed, Both, Rebinding, BoundTo, LocalFuncs, LocalAliases, Registered, SameBut;
      ghost var v := Here();
      WalkExprs(s.exprs);
      ghost var w := Here();
      RegisterLocals(s.names, s.exprs);
      LocalsBound(s.names, s.exprs, w.funcs, w.aliases, localFuncs, safeAliases);
      Rebound(defs, w, Here(), SetOf(s.names), LocalFuncs(s.names, s.exprs), LocalAliases(s.names, s.exprs));
      Then(defs, v, w, Here(), OfAll(s.exprs),
           Rebinding(SetOf(s.names), LocalFuncs(s.names, s.exprs), LocalAliases(s.names, s.exprs)));
    }

    method WalkLocalFunc(s: Stmt)
      requires Valid() && s.LocalFunc? && InStmt(defs, s)
      modifies this
      ensures Valid() && scopeStack == old(scopeStack)
      ensures WalkedBy(defs, old(Here()), Here(), OfStmt(s))
      ensures localFuncs == old(localFuncs)[s.name := s.fn] && safeAliases == old(safeAliases) - {s.name}
      decreases Left(), s, 1
    {
      hide WalkedBy, EnvOk, Closed, Both, Rebinding, Of;
      ghost var v := Here();
      Bind(s.name, s.fn);
      ghost var w := Here();
      assert localFuncs == v.funcs - {s.name} + map[s.name := s.fn] && safeAliases == v.aliases - {s.name} + {};
      Rebound(defs, v, w, {s.name}, map[s.name := s.fn], {});
      WalkFuncExpr(s.fn);
      Then(defs, v, w, Here(), Rebinding({s.name}, map[s.name := s.fn], {}), Of(s.fn));
    }

    method WalkAssign(s: Stmt)
      requires Valid() && s.Assign? && InStmt(defs, s)
      modifies this
      ensures Valid() && scopeStack == old(scopeStack)
      ensures WalkedBy(defs, old(Here()), Here(), OfStmt(s))
      ensures forall n :: n in NamesOf(s.targets) ==> n !in localFuncs && n !in safeAliases
      decreases Left(), s, 1
    {
      hide WalkedBy, EnvOk, Closed, Both, Rebinding, NamesOf, OfAll;
      ghost var v := Here();
      WalkExprs(s.targets);
      ghost var w := Here();
      Grows(defs, v, w, OfAll(s.targets));
      WalkExprs(s.exprs);
      ghost var x := Here();
      Then(defs, v, w, x, OfAll(s.targets), OfAll(s.exprs));
      ForgetTargets(s.targets);
      assert localFuncs == x.funcs - NamesOf(s.targets) + map[] && safeAliases == x.aliases - NamesOf(s.targets) + {};
      Rebound(defs, x, Here(), NamesOf(s.targets), map[], {});
      Then(defs, v, x, Here(), Both(OfAll(s.targets), OfAll(s.exprs)), Rebinding(NamesOf(s.targets), map[], {}));
    }

    method WalkRepeat(s: Stmt)
      requires Valid() && s.Repeat? && InStmt(defs, s)
      modifies this
      ensures Valid() && scopeStack == old(scopeStack)
      ensures WalkedBy(defs, old(Here()), Here(), OfStmt(s))
      ensures localFuncs == old(localFuncs) && safeAliases == old(safeAliases)
      decreases Left(), s, 1
    {
      hide WalkedBy, EnvOk, Closed, Both, Scoped, OfBlock, Of;
      ghost var v := Here();
      PushScope();
      ghost var u := Here();
      WalkBlock(s.body);
      ghost var w := Here();
      Grows(defs, u, w, OfBlock(s.body));
      WalkExpr(s.cond);
      Then(defs, u, w, Here(), OfBlock(s.body), Of(s.cond));
      Unscoped(defs, v, u, Here(), Both(OfBlock(s.body), Of(s.cond)));
      PopScope();
    }

    method WalkNumFor(s: Stmt)
      requires Valid() && s.NumFor? && InStmt(defs, s)
      modifies this
      ensures Valid() && scopeStack == old(scopeStack)
      ensures WalkedBy(defs, old(Here()), Here(), OfStmt(s))
      decreases Left(), s, 1
    {
      hide WalkedBy, EnvOk, Closed, Both, Scoped, OfBlock, Of;
      ghost var v := Here();
      WalkExpr(s.init);
      ghost var w := Here();
      Grows(defs, v, w, Of(s.init));
      WalkExpr(s.limit);
      ghost var x := Here();
      Grows(defs, w, x, Of(s.limit));
      Then(defs, v, w, x, Of(s.init), Of(s.limit));
      WalkExpr(s.step);
      ghost var y := Here();
      Grows(defs, x, y, Of(s.step));
      Then(defs, v, x, y, Both(Of(s.init), Of(s.limit)), Of(s.step));
      WalkScope(s.body);
      Then(defs, v, y, Here(), Both(Both(Of(s.init), Of(s.limit)), Of(s.step)), Scoped(OfBlock(s.body)));
    }

    method WalkClauses(cs: seq<Clause>)
      requires Valid() && forall i :: 0 <= i < |cs| ==> In(defs, cs[i].cond) && InBlock(defs, cs[i].body)
      modifies this
      ensures Valid() && scopeStack == old(scopeStack)
      ensures WalkedBy(defs, old(Here()), Here(), OfClauses(cs))
      decreases Left(), cs, 2
    {
      hide WalkedBy, EnvOk, Closed, Both, OfClause;
      Stay(defs, Here());
      var i := 0;
      while i < |cs|
        invariant 0 <= i <= |cs| && Valid() && scopeStack == old(scopeStack)
        invariant old(inlinedKnownCalls) <= inlinedKnownCalls
        invariant WalkedBy(defs, old(Here()), Here(), OfClauses(cs[..i]))
      {
        ghost var v := Here();
        WalkClause(cs[i]);
        Then(defs, old(Here()), v, Here(), OfClauses(cs[..i]), OfClause(cs[i]));
        Grows(defs, v, Here(), OfClause(cs[i]));
        assert cs[..i + 1][..i] == cs[..i];
        i := i + 1;
      }
      assert cs[..i] == cs;
    }

    method WalkClause(c: Clause)
      requires Valid() && In(defs, c.cond) && InBlock(defs, c.body)
      modifies this
      ensures Valid() && scopeStack == old(scopeStack)
      ensures WalkedBy(defs, old(Here()), Here(), OfClause(c))
      decreases Left(), c, 2
    {
      hide WalkedBy, EnvOk, Closed, Both, Scoped, OfBlock, Of;
      ghost var v := Here();
      WalkExpr(c.cond);
      ghost var w := Here();
      Grows(defs, v, w, Of(c.cond));
      WalkScope(c.body);
      Then(defs, v, w, Here(), Of(c.cond), Scoped(OfBlock(c.body)));
    }

    method RegisterOne(name: string, exprs: seq<Expr>, i: nat)
      requires Valid() && (i < |exprs| ==> In(defs, exprs[i]))
      modifies `localFuncs, `safeAliases
      ensures Valid() && BoundTo(localFuncs, safeAliases, name, exprs, i)
      ensures SameBut({name}, old(localFuncs), old(safeAliases), localFuncs, safeAliases)
    {
      if i < |exprs| && exprs[i].Func? {
        localFuncs := localFuncs[name := exprs[i]];
        safeAliases := safeAliases - {name};
      } else if i < |exprs| && IsSafeStdlib(exprs[i]) {
        safeAliases := safeAliases + {name};
        localFuncs := localFuncs - {name};
      } else {
        localFuncs := localFuncs - {name};
        safeAliases := safeAliases - {name};
      }
    }

    /** `local f = function ... end` makes f known, `local s = math.sqrt` makes it a safe alias,
        anything else unknown again. */
    method RegisterLocals(names: seq<string>, exprs: seq<Expr>)
      requires Valid() && forall i :: 0 <= i < |exprs| ==> In(defs, exprs[i])
      modifies `localFuncs, `safeAliases
      ensures Valid()
      ensures Registered(names, exprs, localFuncs, safeAliases)
      ensures SameBut(SetOf(names), old(localFuncs), old(safeAliases), localFuncs, safeAliases)
    {
      hide BoundTo, SameBut, Registered, EnvOk;
      NoneRegistered(exprs, localFuncs, safeAliases);
      var i := 0;
      while i < |names|
        invariant 0 <= i <= |names| && Valid()
        invariant Registered(names[..i], exprs, localFuncs, safeAliases)
        invariant SameBut(SetOf(names[..i]), old(localFuncs), old(safeAliases), localFuncs, safeAliases)
      {
        ghost var env, aliases := localFuncs, safeAliases;
        RegisterOne(names[i], exprs, i);
        assert names[..i + 1] == names[..i] + [names[i]];
        OneMore(names[..i], names[i], exprs, old(localFuncs), old(safeAliases), env, aliases, localFuncs, safeAliases);
        i := i + 1;
      }
      assert names[..i] == names;
    }

    /** `local function f`: known in its own body. */
    method Bind(name: string, fn: Expr)
      requires Valid() && fn.Func? && In(defs, fn)
      modifies `localFuncs, `safeAliases
      ensures Valid() && localFuncs == old(localFuncs)[name := fn] && safeAliases == old(safeAliases) - {name}
    {
      localFuncs := localFuncs[name := fn];
      safeAliases := safeAliases - {name};
    }

    /** An assigned name is no longer known. */
    method ForgetTargets(targets: seq<Expr>)
      requires Valid()
      modifies `localFuncs, `safeAliases
      ensures Valid() && localFuncs == old(localFuncs) - NamesOf(targets)
      ensures safeAliases == old(safeAliases) - NamesOf(targets)
    {
      hide NamesOf, EnvOk, Closed;
      NoNames();
      var i := 0;
      while i < |targets|
        invariant Valid()
        invariant 0 <= i <= |targets| && localFuncs == old(localFuncs) - NamesOf(targets[..i])
        invariant safeAliases == old(safeAliases) - NamesOf(targets[..i])
      {
        NamesNext(targets, i);
        if targets[i].Name? {
          OneFewer(defs, old(localFuncs), old(safeAliases), NamesOf(targets[..i]), targets[i].name);
          localFuncs := localFuncs - {targets[i].name};
          safeAliases := safeAliases - {targets[i].name};
        }
        i := i + 1;
      }
      assert targets[..i] == targets;
    }

    /** A block in a scope of its own. */
    method WalkScope(b: seq<Stmt>)
      requires Valid() && InBlock(defs, b)
      modifies this
      ensures Valid() && scopeStack == old(scopeStack)
      ensures WalkedBy(defs, old(Here()), Here(), Scoped(OfBlock(b)))
      ensures localFuncs == old(localFuncs) && safeAliases == old(safeAliases)
      decreases Left(), b, 3
    {
      hide WalkedBy, EnvOk, Closed, Scoped, OfBlock;
      ghost var v := Here();
      PushScope();
      ghost var u := Here();
      WalkBlock(b);
      Unscoped(defs, v, u, Here(), OfBlock(b));
      PopScope();
    }

    method WalkExpr(e: Expr)
      requires Valid() && In(defs, e)
      modifies this
      ensures Valid() && scopeStack == old(scopeStack)
      ensures WalkedBy(defs, old(Here()), Here(), Of(e))
      decreases Left(), e, 3
    {
      hide WalkedBy, EnvOk, Closed, Both, Signals, OfAll, OfItems, OfCallee, OfBlock;
      ghost var v := Here();
      Stay(defs, v);
      if e.Vararg? {
        signals := signals + {SawVararg};
        Shown(defs, v, {SawVararg});
      } else if e.Name? {
        signals := signals + NameSignals(e.name);
        Shown(defs, v, NameSignals(e.name));
      } else if e.Index? {
        WalkTwo(e, e.obj, e.key);
      } else if e.Paren? {
        WalkExpr(e.e);
      } else if e.Call? {
        VisitCallExpr(e);
      } else if e.MethodCall? {
        WalkExpr(e.recv);
        ghost var w := Here();
        Grows(defs, v, w, Of(e.recv));
        WalkExprs(e.args);
        ghost var x := Here();
        Then(defs, v, w, x, Of(e.recv), OfAll(e.args));
        signals := signals + {SelfCall};
        Shown(defs, x, {SelfCall});
        Then(defs, v, x, Here(), Both(Of(e.recv), OfAll(e.args)), Signals({SelfCall}));
      } else if e.Bin? {
        WalkTwo(e, e.l, e.r);
      } else if e.Un? {
        WalkExpr(e.e);
      } else if e.Func? {
        WalkFuncExpr(e);
      } else if e.TableCons? {
        WalkItems(e.items);
      }
    }

    method WalkTwo(ghost e: Expr, a: Expr, b: Expr)
      requires Valid() && In(defs, a) && In(defs, b)
      requires (e.Index? && a == e.obj && b == e.key) || (e.Bin? && a == e.l && b == e.r)
      modifies this
      ensures Valid() && scopeStack == old(scopeStack)
      ensures WalkedBy(defs, old(Here()), Here(), Both(Of(a), Of(b)))
      decreases Left(), e, 1
    {
      hide WalkedBy, EnvOk, Closed, Both, Of;
      ghost var v := Here();
      WalkExpr(a);
      ghost var w := Here();
      Grows(defs, v, w, Of(a));
      WalkExpr(b);
      Then(defs, v, w, Here(), Of(a), Of(b));
    }

    method WalkItems(items: seq<Item>)
      requires Valid() && forall i :: 0 <= i < |items| ==> In(defs, items[i].key) && In(defs, items[i].val)
      modifies this
      ensures Valid() && scopeStack == old(scopeStack)
      ensures WalkedBy(defs, old(Here()), Here(), OfItems(items))
      decreases Left(), items, 2
    {
      hide WalkedBy, EnvOk, Closed, Both, OfItem;
      Stay(defs, Here());
      var i := 0;
      while i < |items|
        invariant 0 <= i <= |items| && Valid() && scopeStack == old(scopeStack)
        invariant old(inlinedKnownCalls) <= inlinedKnownCalls
        invariant WalkedBy(defs, old(Here()), Here(), OfItems(items[..i]))
      {
        ghost var v := Here();
        WalkItem(items[i]);
        Then(defs, old(Here()), v, Here(), OfItems(items[..i]), OfItem(items[i]));
        Grows(defs, v, Here(), OfItem(items[i]));
        assert items[..i + 1][..i] == items[..i];
        i := i + 1;
      }
      assert items[..i] == items;
    }

    method WalkItem(it: Item)
      requires Valid() && In(defs, it.key) && In(defs, it.val)
      modifies this
      ensures Valid() && scopeStack == old(scopeStack)
      ensures WalkedBy(defs, old(Here()), Here(), OfItem(it))
      decreases Left(), it, 2
    {
      hide WalkedBy, EnvOk, Closed, Both, Of;
      ghost var v := Here();
      WalkExpr(it.key);
      ghost var w := Here();
      Grows(defs, v, w, Of(it.key));
      WalkExpr(it.val);
      Then(defs, v, w, Here(), Of(it.key), Of(it.val));
    }

    /** A call: a known local function's body is walked as if it stood here, once. */
    method VisitCallExpr(e: Expr)
      requires Valid() && e.Call? && In(defs, e)
      modifies this
      ensures Valid() && scopeStack == old(scopeStack)
      ensures WalkedBy(defs, old(Here()), Here(), Of(e))
      decreases Left(), e, 2
    {
      hide WalkedBy, EnvOk, Closed, Both, OfAll, OfCallee;
      ghost var v := Here();
      WalkExprs(e.args);
      ghost var w := Here();
      Grows(defs, v, w, OfAll(e.args));
      VisitCallee(e);
      Then(defs, v, w, Here(), OfAll(e.args), OfCallee(e.fn));
    }

    method VisitCallee(e: Expr)
      requires Valid() && e.Call? && In(defs, e)
      modifies this
      ensures Valid() && scopeStack == old(scopeStack)
      ensures WalkedBy(defs, old(Here()), Here(), OfCallee(e.fn))
      ensures Ordinary(e.fn) && e.fn.Name? && e.fn.name !in old(safeAliases) ==>
        && (EnvHas(old(localFuncs), e.fn.name) ==> old(localFuncs)[e.fn.name].id in inlinedKnownCalls)
        && (e.fn.name !in old(localFuncs) ==> UnknownCall in signals)
      decreases Left(), e, 1
    {
      hide WalkedBy, EnvOk, Closed, Both;
      ghost var v := Here();
      Stay(defs, v);
      var fn := e.fn;
      if IsLibCall(fn, "coroutine") {
        signals := signals + {CallsCoroutine};
        if fn.key.val == "yield" {
          signals := signals + {CallsYield};
        } else if fn.key.val == "resume" {
          signals := signals + {CallsResume};
        }
        ShownAll(defs, v, Here(), OfCallee(fn).signals);
        return;
      }
      if IsLibCall(fn, "debug") {
        signals := signals + {UsesDebug};
        ShownAll(defs, v, Here(), {UsesDebug});
        return;
      }
      if fn.Name? && (fn.name == "setfenv" || fn.name == "getfenv") {
        signals := signals + {UsesSetfenv};
        ShownAll(defs, v, Here(), {UsesSetfenv});
        SetfenvShows(fn);
        return;
      }
      if IsSafeStdlib(fn) {
        SafeShowsNothing(fn);
        return;
      }
      if fn.Name? && fn.name in safeAliases {
        CalledUnknown(defs, v, fn);
        return;
      }
      if fn.Name? && fn.name in localFuncs {
        Expand(fn.name, e);
        NoSignals(fn);
        return;
      }
      WalkExpr(fn);
      ghost var w := Here();
      signals := signals + {UnknownCall};
      CalleeWalked(defs, v, w, Here(), fn);
    }

    /** The body of a known local function, unless it was expanded before. */
    method Expand(name: string, ghost e: Expr)
      requires Valid() && name in localFuncs && name !in safeAliases
      modifies this
      ensures Valid() && scopeStack == old(scopeStack)
      ensures WalkedBy(defs, old(Here()), Here(), Calling(name))
      ensures EnvHas(old(localFuncs), name) ==> old(localFuncs)[name].id in inlinedKnownCalls
      decreases Left(), e, 0
    {
      hide WalkedBy, Closed, OfBlock;
      ghost var v := Here();
      Stay(defs, v);
      var fn := localFuncs[name];
      if fn.id !in inlinedKnownCalls {
        inlinedKnownCalls := inlinedKnownCalls + {fn.id};
        ghost var w := Here();
        WalkBlock(fn.body);
        Grows(defs, w, Here(), OfBlock(fn.body));
        ExpandedOne(defs, v, w, Here(), name);
      } else {
        ExpandedBefore(defs, v, name);
      }
    }

    /** A function literal is walked by a visitor of its own, which starts from a copy of what was
        expanded; only how deep it nests comes back. */
    method WalkFuncExpr(e: Expr)
      requires Valid() && e.Func? && In(defs, e)
      modifies this
      ensures Valid() && scopeStack == old(scopeStack) && localFuncs == old(localFuncs)
      ensures safeAliases == old(safeAliases)
      ensures signals == old(signals) && inlinedKnownCalls == old(inlinedKnownCalls)
      ensures WalkedBy(defs, old(Here()), Here(), Of(e))
      decreases Left(), e, 1
    {
      hide WalkedBy, Closed, EnvOk, Of, OfBlock, In, Entered;
      ghost var v := Here();
      currentDepth := currentDepth + 1;
      if currentDepth > maxClosureDepth {
        maxClosureDepth := currentDepth;
      }
      var depth;
      ghost var s, t;
      depth, s, t := WalkNested(e);
      if depth > maxClosureDepth {
        maxClosureDepth := depth;
      }
      currentDepth := currentDepth - 1;
      assert Here() == v.(maxDepth := maxClosureDepth);
      SubWalked(defs, v, s, t, Here(), e);
    }

    /** Walks a nested function with a visitor of its own, from these tables and a copy of the guard. */
    method WalkNested(e: Expr) returns (deepest: nat, ghost s: View, ghost t: View)
      requires Valid() && e.Func? && In(defs, e)
      ensures s.signals == {} && s.depth == currentDepth && s.maxDepth == 0 && deepest == t.maxDepth
      ensures NamesIn(s) == Entered(NamesIn(Here()), e)
      ensures WalkedBy(defs, s, t, OfBlock(e.body))
      decreases Left(), e, 0
    {
      assert InBlock(defs, e.body);
      hide WalkedBy, EnvOk, OfBlock, InBlock, Entered, In;
      var env, aliases := Inherited(e);
      var sub := new Visitor(defs, currentDepth, env, aliases, inlinedKnownCalls);
      s := sub.Here();
      sub.WalkBlock(e.body);
      t := sub.Here();
      deepest := sub.maxClosureDepth;
    }

    /** The tables a nested visitor starts with: names its parameters shadow are left out. */
    method Inherited(e: Expr) returns (env: map<string, Expr>, aliases: set<string>)
      requires Valid() && e.Func?
      ensures env == map n | n in localFuncs && n !in e.params :: localFuncs[n]
      ensures aliases == set n | n in safeAliases && n !in e.params
      ensures Names(env, aliases, [], inlinedKnownCalls) == Entered(NamesIn(Here()), e)
      ensures EnvOk(defs, env)
    {
      env := map n | n in localFuncs && n !in e.params :: localFuncs[n];
      aliases := set n | n in safeAliases && n !in e.params;
    }
  }

  lemma OneFewer(d: Defs, env: map<string, Expr>, aliases: set<string>, gone: set<string>, n: string)
    ensures env - (gone + {n}) == env - gone - {n} && aliases - (gone + {n}) == aliases - gone - {n}
    ensures EnvOk(d, env - gone) ==> EnvOk(d, env - gone - {n})
  {
  }

  lemma NoNames()
    ensures NamesOf([]) == {}
  {
  }

  lemma NamesNext(targets: seq<Expr>, i: nat)
    requires i < |targets|
    ensures NamesOf(targets[..i + 1]) == NamesOf(targets[..i]) + (if targets[i].Name? then {targets[i].name} else {})
  {
    assert targets[..i + 1] == targets[..i] + [targets[i]];
  }

  /** Nothing is known otherwise than before but these names. */
  ghost predicate SameBut(names: set<string>, env: map<string, Expr>, aliases: set<string>,
                          env': map<string, Expr>, aliases': set<string>) {
    && (forall n :: n !in names ==> (n in env' <==> n in env) && (n in aliases' <==> n in aliases))
    && (forall n :: n !in names && n in env' ==> env'[n] == env[n])
  }

  /** Each name is bound by its last position. */
  ghost predicate Registered(names: seq<string>, exprs: seq<Expr>, env: map<string, Expr>, aliases: set<string>) {
    forall i {:trigger names[i]} :: 0 <= i < |names| && names[i] !in names[i + 1..] ==>
      BoundTo(env, aliases, names[i], exprs, i)
  }

  lemma NoneRegistered(exprs: seq<Expr>, env: map<string, Expr>, aliases: set<string>)
    ensures Registered([], exprs, env, aliases) && SameBut(SetOf([]), env, aliases, env, aliases)
  {
  }

  lemma OneMore(names: seq<string>, name: string, exprs: seq<Expr>, env0: map<string, Expr>, aliases0: set<string>,
                env: map<string, Expr>, aliases: set<string>, env': map<string, Expr>, aliases': set<string>)
    requires Registered(names, exprs, env, aliases) && SameBut(SetOf(names), env0, aliases0, env, aliases)
    requires BoundTo(env', aliases', name, exprs, |names|) && SameBut({name}, env, aliases, env', aliases')
    ensures Registered(names + [name], exprs, env', aliases')
    ensures SameBut(SetOf(names + [name]), env0, aliases0, env', aliases')
  {
    var all := names + [name];
    forall i {:trigger all[i]} | 0 <= i < |all| && all[i] !in all[i + 1..]
      ensures BoundTo(env', aliases', all[i], exprs, i)
    {
      if i < |names| {
        assert all[i + 1..] == names[i + 1..] + [name];
        assert names[i] != name && BoundTo(env, aliases, names[i], exprs, i);
      }
    }
    hide BoundTo, Registered;
  }

  /** What `local ..., name, ... = exprs` leaves name bound to, by its position. */
  ghost predicate BoundTo(env: map<string, Expr>, aliases: set<string>, name: string, exprs: seq<Expr>, i: nat) {
    && (name in env <==> i < |exprs| && exprs[i].Func?)
    && (name in env && i < |exprs| ==> env[name] == exprs[i])
    && (name in aliases <==> i < |exprs| && !exprs[i].Func? && IsSafeStdlib(exprs[i]))
  }

  predicate EnvHas(env: map<string, Expr>, name: string) {
    name in env && env[name].Func?
  }

  /** What locals are bound to afterwards is what `LocalFuncs` and `LocalAliases` say. */
  lemma LocalsBound(names: seq<string>, exprs: seq<Expr>, env0: map<string, Expr>, aliases0: set<string>,
                    env: map<string, Expr>, aliases: set<string>)
    requires Registered(names, exprs, env, aliases) && SameBut(SetOf(names), env0, aliases0, env, aliases)
    ensures env == env0 - SetOf(names) + LocalFuncs(names, exprs)
    ensures aliases == aliases0 - SetOf(names) + LocalAliases(names, exprs)
    ensures var funcs, aliased := LocalFuncs(names, exprs), LocalAliases(names, exprs);
      funcs.Keys <= SetOf(names) && aliased <= SetOf(names) && funcs.Keys !! aliased
      && forall n :: n in funcs ==> funcs[n].Func?
  {
    LocalsNamed(names, exprs);
    hide LocalFuncs, LocalAliases, IsSafeStdlib;
    forall n | n in names
      ensures n in env <==> n in LocalFuncs(names, exprs)
      ensures n in env ==> env[n] == LocalFuncs(names, exprs)[n]
      ensures n in aliases <==> n in LocalAliases(names, exprs)
      ensures n in LocalFuncs(names, exprs) ==> LocalFuncs(names, exprs)[n].Func? && n !in LocalAliases(names, exprs)
    {
      var i := LastPlace(names, exprs, n);
      assert BoundTo(env, aliases, names[i], exprs, i);
    }
  }

  lemma {:induction false} LocalsNamed(names: seq<string>, exprs: seq<Expr>)
    ensures LocalFuncs(names, exprs).Keys <= SetOf(names) && LocalAliases(names, exprs) <= SetOf(names)
  {
    if names != [] { LocalsNamed(names[..|names| - 1], exprs); }
  }

  lemma {:induction false} LastPlace(names: seq<string>, exprs: seq<Expr>, n: string) returns (i: nat)
    requires n in names
    ensures i < |names| && names[i] == n && n !in names[i + 1..]
    ensures n in LocalFuncs(names, exprs) <==> i < |exprs| && exprs[i].Func?
    ensures i < |exprs| && exprs[i].Func? ==> LocalFuncs(names, exprs)[n] == exprs[i]
    ensures n in LocalAliases(names, exprs) <==> i < |exprs| && !exprs[i].Func? && IsSafeStdlib(exprs[i])
    decreases |names|
  {
    var k := |names| - 1;
    if n == names[k] {
      i := k;
    } else {
      assert names == names[..k] + [names[k]];
      i := LastPlace(names[..k], exprs, n);
      assert names[i + 1..] == names[..k][i + 1..] + [names[k]];
    }
  }

  lemma Shown(d: Defs, v: View, shown: set<Signal>)
    ensures WalkedBy(d, v, v.(signals := v.signals + shown), Signals(shown))
  {
    NotedShown(d, v, shown);
    hide Noted, WalkedBy;
    OneMet(d, v, v.(signals := v.signals + shown), Sees(shown), Signals(shown));
  }

  lemma NotedShown(d: Defs, v: View, shown: set<Signal>)
    ensures Noted(d, v, v.(signals := v.signals + shown), Signals(shown))
  {
    NoneExpanded(d, v.inlined);
  }

  lemma ShownAll(d: Defs, v: View, w: View, shown: set<Signal>)
    requires w == v.(signals := w.signals) && w.signals == v.signals + shown
    ensures WalkedBy(d, v, w, Signals(shown))
  {
    Shown(d, v, shown);
    hide WalkedBy;
  }

  lemma SafeShowsNothing(fn: Expr)
    requires IsSafeStdlib(fn) && !IsLibCall(fn, "coroutine") && !IsLibCall(fn, "debug")
    requires !(fn.Name? && (fn.name == "setfenv" || fn.name == "getfenv"))
    ensures OfCallee(fn) == NOTHING
  {
  }

  /** A called name that is an alias of a library function. */
  lemma CalledUnknown(d: Defs, v: View, fn: Expr)
    requires fn.Name? && Ordinary(fn) && fn.name in v.aliases
    ensures WalkedBy(d, v, v, OfCallee(fn))
  {
    NoSignals(fn);
    NotedCalled(d, v, fn.name);
    assert v.signals + {} == v.signals;
    hide Noted, WalkedBy, OfCallee;
    OneMet(d, v, v, Calls(fn.name), Calling(fn.name));
  }

  lemma NotedCalled(d: Defs, v: View, name: string)
    requires name in v.aliases || (Known(v, name) && v.funcs[name].id in v.inlined)
    ensures Noted(d, v, v, Calling(name))
  {
    NoneExpanded(d, v.inlined);
  }

  lemma SetfenvShows(fn: Expr)
    requires fn == Name("setfenv") || fn == Name("getfenv")
    ensures OfCallee(fn) == Signals({UsesSetfenv})
  {
  }

  lemma NoSignals(fn: Expr)
    requires fn.Name? && Ordinary(fn)
    ensures OfCallee(fn) == Calling(fn.name)
  {
  }

  /** Walking a callee that is nothing special; a name `debug` may count. */
  lemma CalleeWalked(d: Defs, v: View, w: View, x: View, fn: Expr)
    requires WalkedBy(d, v, w, Of(fn)) && Ordinary(fn)
    requires fn.Name? ==> fn.name !in v.funcs && fn.name !in v.aliases
    requires x == w.(signals := w.signals + {UnknownCall})
    ensures WalkedBy(d, v, x, OfCallee(fn))
  {
    if fn.Name? {
      NoSignals(fn);
      NameSeen(d, v, w, x, fn);
    } else {
      Shown(d, w, {UnknownCall});
      Then(d, v, w, x, Of(fn), Signals({UnknownCall}));
    }
    hide WalkedBy;
  }

  lemma NameSeen(d: Defs, v: View, w: View, x: View, fn: Expr)
    requires WalkedBy(d, v, w, Of(fn)) && fn.Name? && Ordinary(fn)
    requires fn.name !in v.funcs && fn.name !in v.aliases && x == w.(signals := w.signals + {UnknownCall})
    ensures WalkedBy(d, v, x, Calling(fn.name))
  {
    SeesOnly(d, v, w, NameSignals(fn.name));
    assert x.signals == v.signals + Recorded(NamesIn(v), Calls(fn.name));
    NotedShown(d, w, {UnknownCall});
    NotedThen(d, v, w, x, Of(fn), Signals({UnknownCall}));
    NameWalked(d, v, x, fn);
    hide Noted, WalkedBy;
    OneMet(d, v, x, Calls(fn.name), Calling(fn.name));
  }

  lemma SeesOnly(d: Defs, v: View, w: View, s: set<Signal>)
    requires Plays(d, v, w, [Sees(s)])
    ensures NamesIn(w) == NamesIn(v) && w.signals == v.signals + s && w.maxDepth == v.maxDepth
  {
    OneEvent(d, NamesIn(v), Sees(s));
    hide Flat, Nested;
  }

  lemma NameWalked(d: Defs, v: View, x: View, fn: Expr)
    requires fn.Name? && Ordinary(fn) && !Known(v, fn.name)
    requires Noted(d, v, x, Both(Of(fn), Signals({UnknownCall}))) && UnknownCall in x.signals
    ensures Noted(d, v, x, Calling(fn.name))
  {
    hide Expanded, Touched, Called;
    var s := Both(Of(fn), Signals({UnknownCall}));
    assert s.signals <= BOUND && s.rebinds == {} && s.touches == {} && s.binds == map[] && s.certain == {};
  }

  lemma ExpandedOne(d: Defs, v: View, w: View, x: View, name: string)
    requires Known(v, name) && In(d, v.funcs[name]) && v.funcs[name].id !in v.inlined
    requires w == v.(inlined := v.inlined + {v.funcs[name].id})
    requires WalkedBy(d, w, x, OfBlock(v.funcs[name].body))
    ensures WalkedBy(d, v, x, Calling(name))
  {
    NotedOne(d, v, w, x, name);
    PlaysCall(d, v, w, x, name);
    SumsCall(d, v, w, x, name);
    hide Noted, Plays, Sums;
  }

  lemma SumsCall(d: Defs, v: View, w: View, x: View, name: string)
    requires Known(v, name) && In(d, v.funcs[name]) && v.funcs[name].id !in v.inlined && w.inlined <= x.inlined
    requires w == v.(inlined := v.inlined + {v.funcs[name].id})
    requires Sums(d, w, x, OfBlock(v.funcs[name].body))
    ensures Sums(d, v, x, Calling(name))
  {
    var k, fn := NamesIn(v), v.funcs[name];
    DefOf(d, fn);
    OneExpanded(d, v.inlined, fn);
    hide In, OfBlock;
    OneCall(d, k, Calls(name));
    assert NamesIn(w) == Next(k, Calls(name));
    hide Flat, After, Record, Nested, Next, Fresh, Known, SeenIn;
    SeenOne(Calls(name));
    SeenJoins([Calls(name)], Flat(d, NamesIn(w), OfBlock(fn.body).events));
    ExpandedJoins(d, v.inlined, w.inlined, x.inlined);
    hide Expanded;
  }

  lemma PlaysCall(d: Defs, v: View, w: View, x: View, name: string)
    requires Known(v, name) && In(d, v.funcs[name]) && v.funcs[name].id !in v.inlined
    requires w == v.(inlined := v.inlined + {v.funcs[name].id})
    requires Plays(d, w, x, OfBlock(v.funcs[name].body).events)
    ensures Plays(d, v, x, [Calls(name)])
  {
    DefOf(d, v.funcs[name]);
    hide In, OfBlock;
    var k, u := NamesIn(v), Flat(d, NamesIn(w), OfBlock(v.funcs[name].body).events);
    OneCall(d, k, Calls(name));
    assert NamesIn(w) == Next(k, Calls(name));
    hide Flat, After, Record, Nested, Next, Fresh, Known;
    DeepensAs(d, NamesIn(w), u, k, [Calls(name)] + u, v.depth, v.maxDepth, x.maxDepth);
    hide Deepens;
  }

  lemma DefOf(d: Defs, fn: Expr)
    requires fn.Func? && In(d, fn)
    ensures fn.id in d && d[fn.id] == fn.body
  {
  }

  lemma NotedOne(d: Defs, v: View, w: View, x: View, name: string)
    requires Known(v, name) && In(d, v.funcs[name]) && v.funcs[name].id !in v.inlined
    requires w == v.(inlined := v.inlined + {v.funcs[name].id})
    requires Noted(d, w, x, OfBlock(v.funcs[name].body))
    ensures Noted(d, v, x, Calling(name))
  {
    hide Expanded, Touched, Called, OfBlock, Keeps, Reaches, Means, Ran;
    var fn := v.funcs[name];
    var s := OfBlock(fn.body);
    ExpandedJoins(d, v.inlined, w.inlined, x.inlined);
    OneExpanded(d, v.inlined, fn);
    CalledThere(v, w, x, Touched(d, w.inlined, x.inlined), s, Called(d, w.inlined, x.inlined), name);
    OneCalled(d, v, w, x, name);
    OneAnswered(d, v, w, x, name);
    var shows := Calling(name);
    assert Follows(d, v, x, shows);
    hide Follows, OnlyCalled, Answered;
  }

  lemma OneCalled(d: Defs, v: View, w: View, x: View, name: string)
    requires Known(v, name) && In(d, v.funcs[name]) && v.funcs[name].id !in v.inlined && w.inlined <= x.inlined
    requires w == v.(inlined := v.inlined + {v.funcs[name].id})
    requires OnlyCalled(d, w, x, OfBlock(v.funcs[name].body))
    ensures OnlyCalled(d, v, x, Calling(name))
  {
    var f, s := v.funcs[name].id, OfBlock(v.funcs[name].body);
    OneBody(d, v.funcs[name]);
    assert Pairs(w) == Pairs(v) && (name, f) in Pairs(v);
    hide Pairs, In, Offered, Mentioned, OfBlock;
    var e, e' := x.inlined - v.inlined, x.inlined - w.inlined;
    assert e == {f} + e';
    OfferedJoins(d, {f}, e');
    forall c | c <= e && CallsWithin(d, Pairs(v), Calling(name), e, c) ensures c == e {
      assert name in Calling(name).mentions && f in c;
      OfferedLess(d, {f}, c);
      MentionedLess(d, {f}, c);
      WithinLess(d, Pairs(v), Pairs(w), Calling(name), s, e, c, e');
      assert c * e' == e';
    }
  }

  lemma OneAnswered(d: Defs, v: View, w: View, x: View, name: string)
    requires Known(v, name) && In(d, v.funcs[name]) && v.funcs[name].id !in v.inlined && w.inlined <= x.inlined
    requires w == v.(inlined := v.inlined + {v.funcs[name].id})
    requires Answered(d, w, x, OfBlock(v.funcs[name].body))
    ensures Answered(d, v, x, Calling(name))
  {
    var f, s := v.funcs[name].id, OfBlock(v.funcs[name].body);
    OneBody(d, v.funcs[name]);
    assert Pairs(w) == Pairs(v) && (name, f) in Pairs(v);
    hide Pairs, In, Offered, Mentioned, Aliased, OfBlock;
    var e, e' := x.inlined - v.inlined, x.inlined - w.inlined;
    assert e == {f} + e';
    OfferedJoins(d, {f}, e');
    AskedJoins(d, {f}, e');
    forall n | UnknownCall !in x.signals && n in Calling(name).mentions + Mentioned(d, e)
      && n !in v.aliases + Aliased(d, e)
      ensures Stands(Pairs(v) + {} + Offered(d, e), x.inlined, n)
    {
      if n == name {
        assert (n, f) in Pairs(v) && f in x.inlined;
      } else {
        StandsMore(Pairs(w) + s.offers + Offered(d, e'), x.inlined, Pairs(v) + {} + Offered(d, e), x.inlined, n);
      }
    }
  }

  lemma OneBody(d: Defs, fn: Expr)
    requires fn.Func? && In(d, fn)
    ensures var s := OfBlock(fn.body);
      Offered(d, {fn.id}) == s.offers && Mentioned(d, {fn.id}) == s.mentions && Aliased(d, {fn.id}) == s.aliased
  {
    assert d[fn.id] == fn.body && fn.id in d;
    hide OfBlock, In;
  }

  /** The tables are those the expanded body was walked in. */
  lemma CalledThere(v: View, w: View, x: View, t: set<string>, s: Shows, c: set<string>, name: string)
    requires Known(v, name) && w == v.(inlined := v.inlined + {v.funcs[name].id}) && w.inlined <= x.inlined
    requires Keeps(w, x, t, s.rebinds) && Reaches(w, x, t, s.calls) && Reaches(w, x, t + (s.touches + s.rebinds), c)
    ensures Keeps(v, x, (s.touches + s.rebinds) + t, {})
    ensures Reaches(v, x, (s.touches + s.rebinds) + t, {name})
    ensures Reaches(v, x, (s.touches + s.rebinds) + t + ({} + {}), s.calls + c)
    ensures Means(x, (s.touches + s.rebinds) + t, map[]) && Ran(x, (s.touches + s.rebinds) + t, {})
  {
    assert forall n :: Known(v, n) <==> Known(w, n);
  }

  lemma OneExpanded(d: Defs, before: set<nat>, fn: Expr)
    requires fn.Func? && In(d, fn) && fn.id !in before
    ensures Expanded(d, before, before + {fn.id}) == OfBlock(fn.body).signals
    ensures Touched(d, before, before + {fn.id}) == OfBlock(fn.body).touches + OfBlock(fn.body).rebinds
    ensures Called(d, before, before + {fn.id}) == OfBlock(fn.body).calls
  {
    assert before + {fn.id} - before == {fn.id};
    hide OfBlock;
  }

  lemma ExpandedBefore(d: Defs, v: View, name: string)
    requires Known(v, name) && v.funcs[name].id in v.inlined
    ensures WalkedBy(d, v, v, Calling(name))
  {
    NotedCalled(d, v, name);
    assert v.inlined + {v.funcs[name].id} == v.inlined && v.signals + {} == v.signals;
    hide Noted, WalkedBy;
    OneMet(d, v, v, Calls(name), Calling(name));
  }

  /** A literal walked by a visitor of its own, s its start and t its end. */
  lemma SubWalked(d: Defs, v: View, s: View, t: View, w: View, e: Expr)
    requires e.Func? && WalkedBy(d, s, t, OfBlock(e.body)) && NamesIn(s) == Entered(NamesIn(v), e)
    requires s.depth == v.depth + 1 && s.maxDepth == 0 && w == v.(maxDepth := w.maxDepth)
    requires w.maxDepth == Max(Max(v.maxDepth, v.depth + 1), t.maxDepth)
    ensures WalkedBy(d, v, w, Of(e))
  {
    SubPlays(d, v, s, t, w, e);
    NotedSub(d, v, s, t, w, e);
    SumsOne(d, v, w, Nests(e), Of(e));
    hide Plays, Noted, Sums, OfBlock, Entered, Flat;
  }

  lemma NotedSub(d: Defs, v: View, s: View, t: View, w: View, e: Expr)
    requires e.Func? && Noted(d, s, t, OfBlock(e.body))
    requires s.depth == v.depth + 1 && w == v.(maxDepth := w.maxDepth)
    requires w.maxDepth == Max(Max(v.maxDepth, v.depth + 1), t.maxDepth)
    ensures Noted(d, v, w, Of(e))
  {
    hide OfBlock;
    NothingCalled(d, v, w, Of(e));
    NothingAsked(d, v, w, Of(e));
    NoneExpanded(d, v.inlined);
  }

  lemma SubPlays(d: Defs, v: View, s: View, t: View, w: View, e: Expr)
    requires e.Func? && Plays(d, s, t, OfBlock(e.body).events) && NamesIn(s) == Entered(NamesIn(v), e)
    requires s.depth == v.depth + 1 && s.maxDepth == 0 && w == v.(maxDepth := w.maxDepth)
    requires w.maxDepth == Max(Max(v.maxDepth, v.depth + 1), t.maxDepth)
    ensures Plays(d, v, w, [Nests(e)])
  {
    hide Flat, After, Record, OfBlock, Next, Recorded, Entered, Fresh, Nested, Deepens;
    ClosedLiteral(d, NamesIn(v), e);
    assert w.signals == v.signals + {};
    DeepensInside(d, NamesIn(v), e, v.depth, v.maxDepth, t.maxDepth);
    hide Plays;
    PlaysAs(d, v, w, Nests(e));
  }

  lemma ClosedLiteral(d: Defs, k: Names, e: Expr)
    ensures Next(k, Nests(e)) == k && Recorded(k, Nests(e)) == {} && !Fresh(d, k, Nests(e))
  {
  }

  lemma DeepensInside(d: Defs, k: Names, e: Expr, depth: nat, was: nat, inside: nat)
    requires e.Func?
    requires Deepens(d, Entered(k, e), Flat(d, Entered(k, e), OfBlock(e.body).events), depth + 1, 0, inside)
    ensures Deepens(d, k, [Nests(e)], depth, was, Max(Max(was, depth + 1), inside))
  {
    hide Flat, Entered, OfBlock, NestedIn, Nested;
    var now := Max(Max(was, depth + 1), inside);
    NoneNested(d, Entered(k, e), Flat(d, Entered(k, e), OfBlock(e.body).events));
    forall m: nat | m > 0 && Nested(d, k, [Nests(e)], m) ensures now >= depth + m {
      LiteralNests(d, k, e, m);
    }
    if now > was {
      LiteralNests(d, k, e, now - depth);
    }
  }

  lemma LiteralNests(d: Defs, k: Names, e: Expr, m: nat)
    requires e.Func? && m > 0
    ensures Nested(d, k, [Nests(e)], m) <==>
      Nested(d, Entered(k, e), Flat(d, Entered(k, e), OfBlock(e.body).events), m - 1)
  {
    OneEvent(d, k, Nests(e));
    hide Flat, After, Entered, OfBlock, Nested;
  }

  lemma NoneNested(d: Defs, k: Names, t: seq<Event>)
    ensures Nested(d, k, t, 0)
  {
  }

  lemma Grows(d: Defs, v: View, w: View, s: Shows)
    requires WalkedBy(d, v, w, s)
    ensures v.inlined <= w.inlined && w.depth == v.depth
  {
  }

  // ---- the verdict ----

  const MAX_INSNS: nat := 2000
  const MAX_REGS: nat := 200
  const MAX_CLOSURE_DEPTH: nat := 3
  const MAX_UPVALS: nat := 8

  /** What the analysis reads off the compiled prototype. */
  datatype Code = Code(isVararg: bool, len: nat, maxStack: nat, upvals: nat)

  /** The name means a known local function of the enclosing functions. */
  predicate OuterFunc(fn: Expr, outerFuncs: map<string, Expr>, outerAliases: map<string, Expr>, n: string) {
    && fn.Func? && n in outerFuncs && outerFuncs[n].Func? && n !in fn.params
    && !(n in outerAliases && IsSafeStdlib(outerAliases[n]))
  }

  /** What was expanded must hold every local function the body calls, directly or through another one
      expanded: those of the enclosing functions that are called before the body rebinds them, those the
      body bound itself, and those the expansions call under names the body leaves alone. Names that an
      expanded function gives another meaning are excepted. */
  ghost predicate PulledIn(d: Defs, fn: Expr, outerFuncs: map<string, Expr>, outerAliases: map<string, Expr>,
                           expanded: set<nat>)
    requires fn.Func?
  {
    var s, touched := OfBlock(fn.body), Touched(d, {}, expanded);
    && (forall n :: OuterFunc(fn, outerFuncs, outerAliases, n) && n !in touched && n in s.calls ==>
         outerFuncs[n].id in expanded)
    && (forall n ::
         OuterFunc(fn, outerFuncs, outerAliases, n) && n !in touched + (s.touches + s.rebinds)
         && n in Called(d, {}, expanded) ==>
         outerFuncs[n].id in expanded)
    && (forall p :: p in s.certain && p.0 !in touched ==> p.1 in expanded)
  }

  /** The known local functions of the enclosing functions, by name. */
  ghost function OuterPairs(fn: Expr, outerFuncs: map<string, Expr>, outerAliases: map<string, Expr>)
    : set<(string, nat)>
  {
    set n | n in outerFuncs && OuterFunc(fn, outerFuncs, outerAliases, n) :: (n, outerFuncs[n].id)
  }

  ghost function OuterSafe(fn: Expr, outerAliases: map<string, Expr>): set<string>
    requires fn.Func?
  {
    set n | n in outerAliases && n !in fn.params && IsSafeStdlib(outerAliases[n])
  }

  ghost function IdsOf(order: seq<nat>): set<nat> {
    set f | f in order
  }

  /** A function is called: from the syntax or from one of the functions in c, by a name known from the start
      or bound by one of them. */
  ghost predicate CalledFrom(d: Defs, pairs: set<(string, nat)>, s: Shows, c: set<nat>, f: nat) {
    exists n: string :: n in s.mentions + Mentioned(d, c) && (n, f) in pairs + s.offers + Offered(d, c)
  }

  /** Each of them is called, from the syntax or from those before it. */
  ghost predicate CalledInTurn(d: Defs, pairs: set<(string, nat)>, s: Shows, order: seq<nat>) {
    forall i :: 0 <= i < |order| ==> CalledFrom(d, pairs, s, IdsOf(order[..i]), order[i])
  }

  /** What has no part closed under calls but itself can be listed so. */
  lemma InTurn(d: Defs, pairs: set<(string, nat)>, s: Shows, e: set<nat>) returns (order: seq<nat>)
    requires forall c :: c <= e && CallsWithin(d, pairs, s, e, c) ==> c == e
    ensures IdsOf(order) == e && CalledInTurn(d, pairs, s, order)
  {
    hide Offered, Mentioned;
    order := [];
    while IdsOf(order) != e
      invariant IdsOf(order) <= e && CalledInTurn(d, pairs, s, order)
      decreases e - IdsOf(order)
    {
      var c := IdsOf(order);
      assert !CallsWithin(d, pairs, s, e, c);
      var p :| p in pairs + s.offers + Offered(d, c) && p.0 in s.mentions + Mentioned(d, c) && p.1 in e && p.1 !in c;
      assert (p.0, p.1) == p && CalledFrom(d, pairs, s, c, p.1);
      OneMoreCalled(d, pairs, s, order, p.1);
      order := order + [p.1];
    }
  }

  lemma OneMoreCalled(d: Defs, pairs: set<(string, nat)>, s: Shows, order: seq<nat>, f: nat)
    requires CalledInTurn(d, pairs, s, order) && CalledFrom(d, pairs, s, IdsOf(order), f)
    ensures CalledInTurn(d, pairs, s, order + [f]) && IdsOf(order + [f]) == IdsOf(order) + {f}
  {
    hide CalledFrom;
    forall i | 0 <= i <= |order| ensures CalledFrom(d, pairs, s, IdsOf((order + [f])[..i]), (order + [f])[i]) {
      assert (order + [f])[..i] == order[..i] && order[..|order|] == order;
    }
  }

  /** Every name called in the function or in one expanded was an alias of a safe library function or stood
      for a function that is expanded. */
  ghost predicate AllAnswered(d: Defs, fn: Expr, outerFuncs: map<string, Expr>, outerAliases: map<string, Expr>,
                              expanded: set<nat>)
    requires fn.Func?
  {
    var s := OfBlock(fn.body);
    forall n :: n in s.mentions + Mentioned(d, expanded) ==>
      n in OuterSafe(fn, outerAliases) + s.aliased + Aliased(d, expanded)
      || Stands(OuterPairs(fn, outerFuncs, outerAliases) + s.offers + Offered(d, expanded), expanded, n)
  }

  /** What the names of the enclosing functions stand for at the start. */
  function StartOf(fn: Expr, outerFuncs: map<string, Expr>, outerAliases: map<string, Expr>): Names
    requires fn.Func?
  {
    Names(map n | n in outerFuncs && n !in fn.params :: outerFuncs[n],
          set n | n in outerAliases && n !in fn.params && IsSafeStdlib(outerAliases[n]), [], {})
  }

  /** A name is called when it stands neither for a local function nor for a safe library function. */
  ghost predicate UnansweredAt(k: Names, met: seq<Event>, i: nat)
    requires i < |met|
  {
    var now := After(k, met[..i]);
    met[i].Calls? && met[i].name !in now.funcs && met[i].name !in now.aliases
  }

  /** The verdict burned into a function. Something no backend lifts stands against it exactly when it is
      vararg or too large, it or a function expanded shows a signal other than a method call, some name is
      called that stands for nothing at that moment, or literals nest four deep; and it is compilable exactly
      when nothing does, none makes a method call and the backend takes it. What is expanded is what the
      calls pull in, each function called from the body or one before it. */
  method AnalyzeProto(ghost defs: Defs, fn: Expr, code: Code, outerFuncs: map<string, Expr>,
                      outerAliases: map<string, Expr>, supported: bool)
    returns (verdict: TierMachine.Proto, ghost expanded: set<nat>, ghost order: seq<nat>, ghost met: seq<Event>)
    requires Closed(defs) && fn.Func? && In(defs, fn) && EnvOk(defs, outerFuncs)
    ensures TierMachine.Sound(verdict) && verdict.codeLen == code.len && expanded <= defs.Keys
    ensures PulledIn(defs, fn, outerFuncs, outerAliases, expanded)
    ensures IdsOf(order) == expanded
    ensures CalledInTurn(defs, OuterPairs(fn, outerFuncs, outerAliases), OfBlock(fn.body), order)
    ensures !verdict.reasons.structural ==> AllAnswered(defs, fn, outerFuncs, outerAliases, expanded)
    ensures !verdict.reasons.structural ==>
      && OfBlock(fn.body).signals <= {SelfCall}
      && (forall f :: f in expanded ==> OfBlock(defs[f]).signals <= {SelfCall})
      && OfBlock(fn.body).nest <= MAX_CLOSURE_DEPTH
      && !code.isVararg && code.len <= MAX_INSNS && code.maxStack <= MAX_REGS && code.upvals <= MAX_UPVALS
    ensures verdict.verdict == TierMachine.Compilable ==>
      supported && OfBlock(fn.body).signals == {} && (forall f :: f in expanded ==> OfBlock(defs[f]).signals == {})
    ensures met == Flat(defs, StartOf(fn, outerFuncs, outerAliases), OfBlock(fn.body).events)
    ensures verdict.reasons.structural <==>
      || code.isVararg || code.len > 2000 || code.maxStack > 200 || code.upvals > 8
      || OfBlock(fn.body).signals - {SelfCall} != {}
      || (exists f :: f in expanded && OfBlock(defs[f]).signals - {SelfCall} != {})
      || (exists i: nat :: i < |met| && UnansweredAt(StartOf(fn, outerFuncs, outerAliases), met, i))
      || Nested(defs, StartOf(fn, outerFuncs, outerAliases), met, 4)
    ensures verdict.verdict == TierMachine.Compilable <==>
      && !verdict.reasons.structural && supported && SelfCall !in OfBlock(fn.body).signals
      && forall f :: f in expanded ==> SelfCall !in OfBlock(defs[f]).signals
  {
    hide WalkedBy, OfBlock, EnvOk, Closed, AllAnswered, PulledIn, CalledInTurn, IdsOf, OuterPairs, UnansweredAt;
    hide Flat, Nested;
    ghost var start := StartOf(fn, outerFuncs, outerAliases);
    EnvOkPart(defs, outerFuncs);
    var env := map n | n in outerFuncs && n !in fn.params :: outerFuncs[n];
    var aliases := set n | n in outerAliases && n !in fn.params && IsSafeStdlib(outerAliases[n]);
    EnvOkWhole(defs, env);
    var v := new Visitor(defs, 0, env, aliases, {});
    ghost var before := v.Here();
    v.WalkBlock(fn.body);
    expanded := v.inlinedKnownCalls;
    AllShown(defs, before, v.Here(), fn.body);
    AllPulledIn(defs, before, v.Here(), fn, outerFuncs, outerAliases);
    CallsKnown(defs, before, v.Here(), fn, outerFuncs, outerAliases);
    order := InTurn(defs, OuterPairs(fn, outerFuncs, outerAliases), OfBlock(fn.body), expanded);
    var structural := code.isVararg || v.signals - {SelfCall} != {}
      || code.len > MAX_INSNS || code.maxStack > MAX_REGS || v.maxClosureDepth > MAX_CLOSURE_DEPTH
      || code.upvals > MAX_UPVALS;
    assert UnknownCall in v.signals ==> UnknownCall in v.signals - {SelfCall};
    met := Flat(defs, start, OfBlock(fn.body).events);
    assert NamesIn(before) == start;
    AllMet(defs, before, v.Here(), fn.body);
    verdict := TierMachine.Burned(code.len, structural, SelfCall in v.signals, supported);
    TierMachine.BurnedSound(code.len, structural, SelfCall in v.signals, supported);
  }

  /** What is on record, and how deep literals nest, by what was met. */
  lemma AllMet(d: Defs, v: View, w: View, b: seq<Stmt>)
    requires WalkedBy(d, v, w, OfBlock(b)) && v.inlined == {} && v.depth == v.maxDepth == 0 && v.signals == {}
    requires w.inlined <= d.Keys
    ensures var met := Flat(d, NamesIn(v), OfBlock(b).events);
      && (w.signals - {SelfCall} != {} <==>
            || OfBlock(b).signals - {SelfCall} != {}
            || (exists f :: f in w.inlined && OfBlock(d[f]).signals - {SelfCall} != {})
            || (exists i: nat :: i < |met| && UnansweredAt(NamesIn(v), met, i)))
      && (SelfCall in w.signals <==>
            SelfCall in OfBlock(b).signals || exists f :: f in w.inlined && SelfCall in OfBlock(d[f]).signals)
      && (w.maxDepth > 3 <==> Nested(d, NamesIn(v), met, 4))
  {
    hide *;
    DepthMet(d, v, w, b);
    SignalsMet(d, v, w, b);
    var met := Flat(d, NamesIn(v), OfBlock(b).events);
    AskedSome(NamesIn(v), met);
    SignalsPast(d, OfBlock(b).signals, v.inlined, w.inlined, AskedIn(NamesIn(v), met));
  }

  lemma SignalsPast(d: Defs, own: set<Signal>, before: set<nat>, after: set<nat>, asked: set<Signal>)
    requires before == {} && after <= d.Keys && SelfCall !in asked
    ensures own + Expanded(d, before, after) + asked - {SelfCall} != {} <==>
      own - {SelfCall} != {} || (exists f :: f in after && OfBlock(d[f]).signals - {SelfCall} != {}) || asked != {}
    ensures SelfCall in own + Expanded(d, before, after) + asked <==>
      SelfCall in own || exists f :: f in after && SelfCall in OfBlock(d[f]).signals
  {
    InExpanded(d, before, after);
    hide Expanded, OfBlock;
    var all := own + Expanded(d, before, after) + asked;
    if f :| f in after && OfBlock(d[f]).signals - {SelfCall} != {} {
      var s :| s in OfBlock(d[f]).signals - {SelfCall};
      assert s in all - {SelfCall};
    }
    if asked != {} {
      var s :| s in asked;
      assert s in all - {SelfCall};
    }
    if own - {SelfCall} != {} {
      var s :| s in own - {SelfCall};
      assert s in all - {SelfCall};
    }
    if all - {SelfCall} != {} && own - {SelfCall} == {} && asked == {} {
      var s :| s in all - {SelfCall};
      assert s in own ==> s in own - {SelfCall};
      var f :| f in after && s in OfBlock(d[f]).signals;
      assert s in OfBlock(d[f]).signals - {SelfCall};
    }
  }

  lemma AskedSome(k: Names, met: seq<Event>)
    ensures AskedIn(k, met) != {} <==> exists i: nat :: i < |met| && UnansweredAt(k, met, i)
    ensures SelfCall !in AskedIn(k, met)
  {
    if i: nat :| i < |met| && UnansweredAt(k, met, i) {
      assert Asks(k, met, i, UnknownCall);
      assert UnknownCall in AskedIn(k, met);
    }
    if AskedIn(k, met) != {} {
      var s :| s in AskedIn(k, met);
    }
  }

  lemma SignalsMet(d: Defs, v: View, w: View, b: seq<Stmt>)
    requires WalkedBy(d, v, w, OfBlock(b)) && v.signals == {}
    ensures var met := Flat(d, NamesIn(v), OfBlock(b).events);
      w.signals == OfBlock(b).signals + Expanded(d, v.inlined, w.inlined) + AskedIn(NamesIn(v), met)
  {
    var k, met := NamesIn(v), Flat(d, NamesIn(v), OfBlock(b).events);
    hide Flat, Nested, Noted, OfBlock, After, Record, Deepens, Expanded;
    assert w.signals == Record(k, met);
    hide SeenIn, AskedIn;
    forall s ensures s in Record(k, met) <==> s in SeenIn(met) + AskedIn(k, met) {
      SignalMet(k, met, s);
    }
  }

  ghost function AskedIn(k: Names, met: seq<Event>): set<Signal> {
    set s | s in BOUND && exists i: nat :: i < |met| && Asks(k, met, i, s)
  }

  /** An unanswered call puts the signal on record: that it is unknown, and `debug` if that is the name. */
  ghost predicate Asks(k: Names, met: seq<Event>, i: nat, s: Signal)
    requires i < |met|
  {
    UnansweredAt(k, met, i) && (s == UnknownCall || (s == UsesDebug && met[i].name == "debug"))
  }

  lemma SignalMet(k: Names, met: seq<Event>, s: Signal)
    ensures s in Record(k, met) <==> s in SeenIn(met) + AskedIn(k, met)
  {
    RecordedSome(k, met, s);
    hide After, Record;
    forall i: nat | i < |met|
      ensures RecordedAt(k, met, i, s) <==> (met[i].Sees? && s in met[i].signals) || (s in BOUND && Asks(k, met, i, s))
    {
    }
    hide RecordedAt, Asks;
  }

  lemma InExpanded(d: Defs, before: set<nat>, after: set<nat>)
    requires before == {} && after <= d.Keys
    ensures forall s :: s in Expanded(d, before, after) <==> exists f :: f in after && s in OfBlock(d[f]).signals
  {
    hide OfBlock;
    assert after - before == after;
  }

  lemma DepthMet(d: Defs, v: View, w: View, b: seq<Stmt>)
    requires WalkedBy(d, v, w, OfBlock(b)) && v.depth == v.maxDepth == 0
    ensures w.maxDepth > 3 <==> Nested(d, NamesIn(v), Flat(d, NamesIn(v), OfBlock(b).events), 4)
  {
    hide Noted, Sums, Nested, Flat, After, Record, OfBlock;
    if w.maxDepth > 3 { NestedLess(d, NamesIn(v), Flat(d, NamesIn(v), OfBlock(b).events), w.maxDepth, 4); }
  }

  lemma EnvOkPart(d: Defs, env: map<string, Expr>)
    requires EnvOk(d, env)
    ensures forall n :: n in env ==> env[n].Func? && In(d, env[n])
  {
  }

  lemma EnvOkWhole(d: Defs, env: map<string, Expr>)
    requires forall n :: n in env ==> env[n].Func? && In(d, env[n])
    ensures EnvOk(d, env)
  {
  }

  lemma AllShown(d: Defs, v: View, w: View, b: seq<Stmt>)
    requires WalkedBy(d, v, w, OfBlock(b)) && v.inlined == {} && v.depth == 0 && w.inlined <= d.Keys
    ensures OfBlock(b).signals <= w.signals && forall f :: f in w.inlined ==> OfBlock(d[f]).signals <= w.signals
    ensures OfBlock(b).nest <= w.maxDepth
  {
    hide Follows, OfBlock;
    forall f | f in w.inlined ensures OfBlock(d[f]).signals <= w.signals {
      assert OfBlock(d[f]).signals <= Expanded(d, v.inlined, w.inlined);
    }
  }

  lemma AllPulledIn(d: Defs, v: View, w: View, fn: Expr, outerFuncs: map<string, Expr>, outerAliases: map<string, Expr>)
    requires fn.Func? && WalkedBy(d, v, w, OfBlock(fn.body)) && v.inlined == {}
    requires v.funcs == map n | n in outerFuncs && n !in fn.params :: outerFuncs[n]
    requires v.aliases == set n | n in outerAliases && n !in fn.params && IsSafeStdlib(outerAliases[n])
    ensures PulledIn(d, fn, outerFuncs, outerAliases, w.inlined)
  {
    hide Expanded, Touched, Called, OfBlock;
    assert forall n :: OuterFunc(fn, outerFuncs, outerAliases, n) ==> Known(v, n) && v.funcs[n] == outerFuncs[n];
  }

  lemma CallsKnown(d: Defs, v: View, w: View, fn: Expr, outerFuncs: map<string, Expr>, outerAliases: map<string, Expr>)
    requires fn.Func? && WalkedBy(d, v, w, OfBlock(fn.body)) && v.inlined == {}
    requires v.funcs == map n | n in outerFuncs && n !in fn.params :: outerFuncs[n]
    requires v.aliases == set n | n in outerAliases && n !in fn.params && IsSafeStdlib(outerAliases[n])
    ensures UnknownCall !in w.signals ==> AllAnswered(d, fn, outerFuncs, outerAliases, w.inlined)
    ensures forall c ::
      c <= w.inlined && CallsWithin(d, OuterPairs(fn, outerFuncs, outerAliases), OfBlock(fn.body), w.inlined, c) ==>
      c == w.inlined
  {
    assert forall n :: n in v.aliases <==> n in outerAliases && n !in fn.params && IsSafeStdlib(outerAliases[n]);
    assert forall n :: Known(v, n) <==> OuterFunc(fn, outerFuncs, outerAliases, n);
    assert Pairs(v) == OuterPairs(fn, outerFuncs, outerAliases);
    assert w.inlined - v.inlined == w.inlined;
    hide Pairs, OuterPairs, Offered, Mentioned, Aliased, OfBlock, Follows, Expanded, Stands, CallsWithin;
  }
}
