/** What a walk meets, one thing after the other: the events of the syntax, with those of every known local
    function put in where it is first called (internal/bridge/analyzer.go:286-318, 500-560, 640-696). What
    names stand for at each moment, what the walk records and how deep literals nest follow from it. */
module WalkTraces {
  import opened LuaSyntax

  datatype ScopeFrame = ScopeFrame(saved: map<string, Expr>, savedAliases: set<string>)

  /** What a walk knows of names, the scopes it is in, and the functions expanded so far. */
  datatype Names = Names(funcs: map<string, Expr>, aliases: set<string>, scopes: seq<ScopeFrame>, inlined: set<nat>)

  /** The name stands for a known local function. */
  predicate StandsFor(k: Names, n: string) {
    n in k.funcs && k.funcs[n].Func? && n !in k.aliases
  }

  function Next(k: Names, e: Event): Names {
    match e
    case Rebinds(names, funcs, aliased) =>
      k.(funcs := k.funcs - names + funcs, aliases := k.aliases - names + aliased)
    case Opens => k.(scopes := k.scopes + [ScopeFrame(k.funcs, k.aliases)])
    case Closes =>
      if k.scopes == [] then k
      else
        var frame := k.scopes[|k.scopes| - 1];
        k.(funcs := frame.saved, aliases := frame.savedAliases, scopes := k.scopes[..|k.scopes| - 1])
    case Calls(n) => if StandsFor(k, n) then k.(inlined := k.inlined + {k.funcs[n].id}) else k
    case Sees(_) => k
    case Nests(_) => k
  }

  function After(k: Names, t: seq<Event>): (r: Names)
    ensures k.inlined <= r.inlined
  {
    if t == [] then k else Next(After(k, t[..|t| - 1]), t[|t| - 1])
  }

  /** The event calls a function that is to be expanded there. */
  predicate Fresh(d: Defs, k: Names, e: Event) {
    e.Calls? && StandsFor(k, e.name) && k.funcs[e.name].id in d && k.funcs[e.name].id !in k.inlined
  }

  /** All that is met on a walk of these events. */
  function Flat(d: Defs, k: Names, es: seq<Event>): seq<Event>
    decreases d.Keys - k.inlined, |es|
  {
    if es == [] then []
    else
      var one := if Fresh(d, k, es[0])
                 then [es[0]] + Flat(d, Next(k, es[0]), OfBlock(d[k.funcs[es[0].name].id]).events)
                 else [es[0]];
      one + Flat(d, After(k, one), es[1..])
  }

  /** What an event puts on record: the call of a name that stands for nothing is an unknown call. */
  function Recorded(k: Names, e: Event): set<Signal> {
    match e
    case Sees(signals) => signals
    case Calls(n) =>
      if n in k.aliases || n in k.funcs then {} else {UnknownCall} + if n == "debug" then {UsesDebug} else {}
    case _ => {}
  }

  function Record(k: Names, t: seq<Event>): set<Signal> {
    if t == [] then {} else Record(k, t[..|t| - 1]) + Recorded(After(k, t[..|t| - 1]), t[|t| - 1])
  }

  /** The signals that show somewhere among what is met. */
  ghost function SeenIn(t: seq<Event>): set<Signal> {
    set i, s | 0 <= i < |t| && t[i].Sees? && s in t[i].signals :: s
  }

  /** What a visitor for the literal starts from: names its parameters shadow are left out. */
  function Entered(k: Names, fn: Expr): Names
    requires fn.Func?
  {
    Names(map n | n in k.funcs && n !in fn.params :: k.funcs[n],
          set n | n in k.aliases && n !in fn.params, [], k.inlined)
  }

  /** Among what is met there are m literals, each met on the walk of the one before. */
  ghost predicate Nested(d: Defs, k: Names, t: seq<Event>, m: nat)
    decreases m, 1
  {
    m == 0 || exists i :: 0 <= i < |t| && t[i].Nests? && t[i].fn.Func? && NestedIn(d, After(k, t[..i]), t[i].fn, m)
  }

  ghost predicate NestedIn(d: Defs, k: Names, fn: Expr, m: nat)
    requires m > 0 && fn.Func?
    decreases m, 0
  {
    var inner := Entered(k, fn);
    Nested(d, inner, Flat(d, inner, OfBlock(fn.body).events), m - 1)
  }

  // ---- one piece after another ----

  lemma {:induction false} AfterJoins(k: Names, t: seq<Event>, u: seq<Event>)
    ensures After(k, t + u) == After(After(k, t), u)
    decreases |u|
  {
    if u == [] {
      assert t + u == t;
    } else {
      AfterJoins(k, t, u[..|u| - 1]);
      assert (t + u)[..|t + u| - 1] == t + u[..|u| - 1];
    }
  }

  lemma {:induction false} RecordJoins(k: Names, t: seq<Event>, u: seq<Event>)
    ensures Record(k, t + u) == Record(k, t) + Record(After(k, t), u)
    decreases |u|
  {
    if u == [] {
      assert t + u == t;
    } else {
      RecordJoins(k, t, u[..|u| - 1]);
      AfterJoins(k, t, u[..|u| - 1]);
      assert (t + u)[..|t + u| - 1] == t + u[..|u| - 1];
    }
    hide Recorded, Next;
  }

  lemma FlatOne(d: Defs, k: Names, e: Event, es: seq<Event>)
    ensures Flat(d, k, [e] + es) == Flat(d, k, [e]) + Flat(d, After(k, Flat(d, k, [e])), es)
  {
    assert [e][0] == e && [e][1..] == [] && ([e] + es)[1..] == es;
    var one := if Fresh(d, k, e) then [e] + Flat(d, Next(k, e), OfBlock(d[k.funcs[e.name].id]).events) else [e];
    assert Flat(d, After(k, one), []) == [];
    hide Fresh, Next, After, OfBlock;
    assert Flat(d, k, [e]) == one;
  }

  lemma {:induction false} FlatJoins(d: Defs, k: Names, a: seq<Event>, b: seq<Event>)
    ensures Flat(d, k, a + b) == Flat(d, k, a) + Flat(d, After(k, Flat(d, k, a)), b)
    decreases |a|
  {
    if a == [] {
      FlatNone(d, k);
      assert a + b == b;
    } else {
      hide Flat, After;
      var e, rest, p := a[0], a[1..], Flat(d, k, [a[0]]);
      var k' := After(k, p);
      var q, r := Flat(d, k', rest), Flat(d, After(k', Flat(d, k', rest)), b);
      FlatOne(d, k, e, rest);
      FlatOne(d, k, e, rest + b);
      FlatJoins(d, k', rest, b);
      AfterJoins(k, p, q);
      Regroup([e], rest, b);
      Regroup(p, q, r);
      assert [e] + rest == a;
    }
  }

  lemma FlatNone(d: Defs, k: Names)
    ensures Flat(d, k, []) == [] && After(k, []) == k
  {
  }

  lemma Regroup(p: seq<Event>, q: seq<Event>, r: seq<Event>)
    ensures (p + q) + r == p + (q + r)
  {
  }

  /** The event is a literal with m - 1 more inside. */
  ghost predicate NestsAt(d: Defs, k: Names, t: seq<Event>, i: nat, m: nat)
    requires i < |t| && m > 0
  {
    t[i].Nests? && t[i].fn.Func? && NestedIn(d, After(k, t[..i]), t[i].fn, m)
  }

  lemma NestedSome(d: Defs, k: Names, t: seq<Event>, m: nat)
    requires m > 0
    ensures Nested(d, k, t, m) <==> exists i: nat :: i < |t| && NestsAt(d, k, t, i, m)
  {
    hide NestedIn, After;
    if Nested(d, k, t, m) {
      var i :| 0 <= i < |t| && t[i].Nests? && t[i].fn.Func? && NestedIn(d, After(k, t[..i]), t[i].fn, m);
      assert NestsAt(d, k, t, i, m);
    }
  }

  lemma NestsThere(d: Defs, k: Names, t: seq<Event>, u: seq<Event>, i: nat, m: nat)
    requires m > 0 && i < |t + u|
    ensures NestsAt(d, k, t + u, i, m) <==>
      if i < |t| then NestsAt(d, k, t, i, m) else NestsAt(d, After(k, t), u, i - |t|, m)
  {
    hide NestedIn, Next;
    if i < |t| {
      assert (t + u)[..i] == t[..i];
    } else {
      assert (t + u)[..i] == t + u[..i - |t|];
      AfterJoins(k, t, u[..i - |t|]);
    }
  }

  lemma NestedJoins(d: Defs, k: Names, t: seq<Event>, u: seq<Event>, m: nat)
    requires m > 0
    ensures Nested(d, k, t + u, m) <==> Nested(d, k, t, m) || Nested(d, After(k, t), u, m)
  {
    NestedSome(d, k, t, m);
    NestedSome(d, k, t + u, m);
    NestedSome(d, After(k, t), u, m);
    hide NestsAt, Nested, After;
    forall i: nat | i < |t + u|
      ensures NestsAt(d, k, t + u, i, m) <==>
        if i < |t| then NestsAt(d, k, t, i, m) else NestsAt(d, After(k, t), u, i - |t|, m)
    {
      NestsThere(d, k, t, u, i, m);
    }
    if j: nat :| j < |u| && NestsAt(d, After(k, t), u, j, m) {
      assert NestsAt(d, k, t + u, |t| + j, m);
    }
  }

  lemma SeenJoins(t: seq<Event>, u: seq<Event>)
    ensures SeenIn(t + u) == SeenIn(t) + SeenIn(u)
  {
    forall s | s in SeenIn(u) ensures s in SeenIn(t + u) {
      var i :| 0 <= i < |u| && u[i].Sees? && s in u[i].signals;
      assert (t + u)[|t| + i] == u[i];
    }
    forall s | s in SeenIn(t) ensures s in SeenIn(t + u) {
      var i :| 0 <= i < |t| && t[i].Sees? && s in t[i].signals;
      assert (t + u)[i] == t[i];
    }
  }

  lemma SeenOne(e: Event)
    ensures SeenIn([e]) == if e.Sees? then e.signals else {}
  {
    if e.Sees? {
      forall s | s in e.signals ensures s in SeenIn([e]) {
        assert [e][0].Sees? && s in [e][0].signals;
      }
    }
  }

  /** Whoever nests deep nests less deep. */
  lemma {:induction false} NestedLess(d: Defs, k: Names, t: seq<Event>, m: nat, m': nat)
    requires Nested(d, k, t, m) && m' <= m
    ensures Nested(d, k, t, m')
    decreases m
  {
    if 0 < m' {
      var i :| 0 <= i < |t| && t[i].Nests? && t[i].fn.Func? && NestedIn(d, After(k, t[..i]), t[i].fn, m);
      var inner := Entered(After(k, t[..i]), t[i].fn);
      NestedLess(d, inner, Flat(d, inner, OfBlock(t[i].fn.body).events), m - 1, m' - 1);
      hide Flat, After, Entered;
      assert NestedIn(d, After(k, t[..i]), t[i].fn, m');
    }
  }

  /** A signal is on record when some event of the walk put it there. */
  lemma {:induction false} RecordedSome(k: Names, t: seq<Event>, s: Signal)
    ensures s in Record(k, t) <==> exists i: nat :: i < |t| && RecordedAt(k, t, i, s)
  {
    if t != [] {
      var n := |t| - 1;
      RecordedSome(k, t[..n], s);
      assert s in Record(k, t) <==> s in Record(k, t[..n]) || RecordedAt(k, t, n, s);
      hide Record;
      forall i: nat | i < n ensures RecordedAt(k, t[..n], i, s) <==> RecordedAt(k, t, i, s) {
        assert t[..n][..i] == t[..i];
      }
      hide RecordedAt;
    }
  }

  ghost predicate RecordedAt(k: Names, t: seq<Event>, i: nat, s: Signal)
    requires i < |t|
  {
    s in Recorded(After(k, t[..i]), t[i])
  }

  // ---- single events ----

  lemma OneEvent(d: Defs, k: Names, e: Event)
    requires !Fresh(d, k, e)
    ensures Flat(d, k, [e]) == [e] && After(k, [e]) == Next(k, e) && Record(k, [e]) == Recorded(k, e)
    ensures forall m: nat :: m > 0 ==>
      (Nested(d, k, [e], m) <==> e.Nests? && e.fn.Func? && NestedIn(d, k, e.fn, m))
  {
    assert [e][1..] == [] && [e][..0] == [] && Flat(d, After(k, [e]), []) == [];
    assert After(k, []) == k && Record(k, []) == {};
    hide Next, Recorded, NestedIn, Fresh;
  }

  /** A call that puts a function's events in. */
  lemma OneCall(d: Defs, k: Names, e: Event)
    requires Fresh(d, k, e)
    ensures var k', u := Next(k, e), Flat(d, Next(k, e), OfBlock(d[k.funcs[e.name].id]).events);
      && Flat(d, k, [e]) == [e] + u && After(k, [e] + u) == After(k', u) && Record(k, [e] + u) == Record(k', u)
      && forall m: nat :: m > 0 ==> (Nested(d, k, [e] + u, m) <==> Nested(d, k', u, m))
  {
    var k', u := Next(k, e), Flat(d, Next(k, e), OfBlock(d[k.funcs[e.name].id]).events);
    assert [e][1..] == [] && Flat(d, After(k, [e] + u), []) == [] && [e] + u + [] == [e] + u;
    assert After(k, []) == k && Record(k, []) == {} && [e][..0] == [];
    AfterJoins(k, [e], u);
    RecordJoins(k, [e], u);
    assert Record(k, [e]) == {};
    hide Next, NestedIn, OfBlock, Flat;
    forall m: nat | m > 0 ensures Nested(d, k, [e] + u, m) <==> Nested(d, k', u, m) {
      NestedJoins(d, k, [e], u, m);
      assert !Nested(d, k, [e], m);
    }
  }
}
