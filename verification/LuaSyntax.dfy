/** The syntax the compilability analysis walks, and what it is to find there
    (internal/bridge/analyzer.go:302-440, 500-560, 690-850). */
module LuaSyntax {

  /** `Nothing` is an absent expression. A function literal carries its identity: the analysis
      tells literals apart by pointer. */
  datatype Expr =
    | Nothing
    | Const
    | Vararg
    | Name(name: string)
    | Str(val: string)
    | Index(obj: Expr, key: Expr)
    | Paren(e: Expr)
    | Call(fn: Expr, args: seq<Expr>)
    | MethodCall(recv: Expr, args: seq<Expr>)
    | Bin(l: Expr, r: Expr)
    | Un(e: Expr)
    | Func(id: nat, params: seq<string>, body: seq<Stmt>)
    | TableCons(items: seq<Item>)

  datatype Item = Item(key: Expr, val: Expr)

  datatype Stmt =
    | Local(names: seq<string>, exprs: seq<Expr>)
    | LocalFunc(name: string, fn: Expr)
    | Assign(targets: seq<Expr>, exprs: seq<Expr>)
    | CallStmt(call: Expr)
    | Do(body: seq<Stmt>)
    | While(cond: Expr, body: seq<Stmt>)
    | Repeat(body: seq<Stmt>, cond: Expr)
    | If(clauses: seq<Clause>, orElse: seq<Stmt>)
    | NumFor(init: Expr, limit: Expr, step: Expr, body: seq<Stmt>)
    | GenFor(exprs: seq<Expr>, body: seq<Stmt>)
    | FuncStmt(target: Expr, fn: Expr)
    | Return(exprs: seq<Expr>)
    | Break

  datatype Clause = Clause(cond: Expr, body: seq<Stmt>)

  /** What excludes a function from compilation, apart from size and nesting. */
  datatype Signal =
    | UnknownCall | SawVararg | CallsYield | CallsResume | CallsCoroutine | SelfCall | UsesDebug | UsesSetfenv

  predicate IsLibCall(fn: Expr, lib: string) {
    fn.Index? && fn.obj == Name(lib) && fn.key.Str?
  }

  const SAFE_NAMES: set<string> := {"type", "tostring", "tonumber", "select", "unpack", "rawget", "rawset", "rawequal",
                                    "setmetatable", "getmetatable"}
  const SAFE_LIBS: set<string> := {"math", "string", "table", "os"}

  predicate Blacklisted(lib: string, m: string) {
    || (lib == "string" && (m == "gsub" || m == "gmatch"))
    || (lib == "table" && (m == "foreach" || m == "foreachi"))
    || (lib == "os" && m == "execute")
  }

  /** A library function that neither yields nor runs Lua code. */
  predicate IsSafeStdlib(fn: Expr) {
    if fn.Name? then fn.name in SAFE_NAMES
    else fn.Index? && fn.obj.Name? && fn.key.Str? && fn.obj.name in SAFE_LIBS && !Blacklisted(fn.obj.name, fn.key.val)
  }

  function NameSignals(name: string): set<Signal> {
    if name == "debug" then {UsesDebug} else if name == "setfenv" || name == "getfenv" then {UsesSetfenv} else {}
  }

  function Max(a: nat, b: nat): nat { if a < b then b else a }

  // ---- what a piece of syntax shows ----

  /** `signals` it shows itself, function literals left out as they are judged by themselves; how deep
      literals `nest` in it; which names it leaves rebound, and which it `touches` on the way, scopes it
      closes included; which names it calls while they still mean what they meant before it (`calls`);
      which names it leaves bound to which function literal (`binds`); and which calls of a name it has
      bound itself, with the literal it bound it to (`certain`). Whatever the names then mean: which
      names it calls anywhere (`mentions`), which literals it binds anywhere, with the name (`offers`), and
      which names it makes aliases of safe library functions (`aliased`). And all of it in order, literals
      left closed and calls by name unanswered: its `events`. */
  datatype Shows = Shows(signals: set<Signal>, nest: nat, rebinds: set<string>, touches: set<string>,
                         calls: set<string>, binds: map<string, nat>, certain: set<(string, nat)>,
                         mentions: set<string>, offers: set<(string, nat)>, aliased: set<string>, events: seq<Event>)

  /** Names are bound anew, to function literals, as aliases or to nothing known; a scope opens or closes; a
      name is called that has to be looked up; signals show; a function literal stands there. */
  datatype Event =
    | Rebinds(names: set<string>, funcs: map<string, Expr>, aliased: set<string>)
    | Opens
    | Closes
    | Calls(name: string)
    | Sees(signals: set<Signal>)
    | Nests(fn: Expr)

  const NOTHING: Shows := Shows({}, 0, {}, {}, {}, map[], {}, {}, {}, {}, [])

  /** One piece after the other. */
  function Both(a: Shows, b: Shows): Shows {
    Shows(a.signals + b.signals, Max(a.nest, b.nest), a.rebinds + b.rebinds, a.touches + b.touches,
          a.calls + (b.calls - a.rebinds), Later(a.binds, b), a.certain + b.certain + Meant(a.binds, b.calls),
          a.mentions + b.mentions, a.offers + b.offers, a.aliased + b.aliased, a.events + b.events)
  }

  function Later(binds: map<string, nat>, b: Shows): map<string, nat> {
    map n | n in binds.Keys + b.binds.Keys && (n in b.binds || n !in b.rebinds) ::
      if n in b.binds then b.binds[n] else binds[n]
  }

  function Meant(binds: map<string, nat>, calls: set<string>): set<(string, nat)> {
    set n | n in calls && n in binds :: (n, binds[n])
  }

  /** Inside a scope of its own: what names mean is restored at its end. */
  function Scoped(a: Shows): Shows {
    a.(rebinds := {}, touches := a.touches + a.rebinds, binds := map[], events := [Opens] + a.events + [Closes])
  }

  function Signals(signals: set<Signal>): Shows {
    NOTHING.(signals := signals, events := [Sees(signals)])
  }

  /** Names given other meanings, some of them a function literal, some a library function. */
  function Rebinding(names: set<string>, funcs: map<string, Expr>, aliased: set<string>): Shows {
    var binds := Literals(funcs);
    NOTHING.(rebinds := names, touches := names, binds := binds, offers := Meant(binds, binds.Keys), aliased := aliased,
             events := [Rebinds(names, funcs, aliased)])
  }

  function Literals(funcs: map<string, Expr>): map<string, nat> {
    map n | n in funcs && funcs[n].Func? :: funcs[n].id
  }

  /** A call of a name the visitor looks up. */
  function Calling(name: string): Shows {
    NOTHING.(calls := {name}, mentions := {name}, events := [Calls(name)])
  }

  function SetOf(names: seq<string>): set<string> {
    set n | n in names
  }

  /** The names among assignment targets. */
  function NamesOf(targets: seq<Expr>): set<string> {
    set e | e in targets && e.Name? :: e.name
  }

  /** What `local names = exprs` leaves bound to function literals, by last position. */
  function LocalFuncs(names: seq<string>, exprs: seq<Expr>): map<string, Expr> {
    if names == [] then map[]
    else
      var k := |names| - 1;
      var m := LocalFuncs(names[..k], exprs);
      if k < |exprs| && exprs[k].Func? then m[names[k] := exprs[k]] else m - {names[k]}
  }

  /** The names it leaves aliases, likewise. */
  function LocalAliases(names: seq<string>, exprs: seq<Expr>): set<string> {
    if names == [] then {}
    else
      var k := |names| - 1;
      var m := LocalAliases(names[..k], exprs);
      if k < |exprs| && !exprs[k].Func? && IsSafeStdlib(exprs[k]) then m + {names[k]} else m - {names[k]}
  }

  /** A callee. What calling a name shows, setfenv apart, depends on what the name is bound to; calling
      anything else that is not a safe library function is an unknown call. */
  function OfCallee(fn: Expr): Shows
    decreases fn, 1
  {
    if IsLibCall(fn, "coroutine") then
      Signals({CallsCoroutine}
        + (if fn.key.val == "yield" then {CallsYield} else if fn.key.val == "resume" then {CallsResume} else {}))
    else if IsLibCall(fn, "debug") then Signals({UsesDebug})
    else if fn == Name("setfenv") || fn == Name("getfenv") then Signals({UsesSetfenv})
    else if IsSafeStdlib(fn) then NOTHING
    else if fn.Name? then Calling(fn.name)
    else Both(Of(fn), Signals({UnknownCall}))
  }

  /** A callee the visitor has to look up or give up on. */
  predicate Ordinary(fn: Expr) {
    && !IsLibCall(fn, "coroutine") && !IsLibCall(fn, "debug") && !IsSafeStdlib(fn)
    && fn != Name("setfenv") && fn != Name("getfenv")
  }

  /** The calls that show nothing: library functions that can neither yield nor run Lua code. */
  lemma CallsShowingNothing(fn: Expr)
    ensures OfCallee(fn) == NOTHING <==>
      || (fn.Name? && fn.name in {"type", "tostring", "tonumber", "select", "unpack", "rawget", "rawset", "rawequal",
                                  "setmetatable", "getmetatable"})
      || (&& fn.Index? && fn.obj.Name? && fn.key.Str? && fn.obj.name in {"math", "string", "table", "os"}
          && !(fn.obj.name == "string" && fn.key.val in {"gsub", "gmatch"})
          && !(fn.obj.name == "table" && fn.key.val in {"foreach", "foreachi"})
          && !(fn.obj.name == "os" && fn.key.val == "execute"))
  {
    if OfCallee(fn) == NOTHING { assert UnknownCall !in OfCallee(fn).signals && OfCallee(fn).events == []; }
  }

  function Of(e: Expr): Shows
    decreases e, 0
  {
    match e
    case Vararg => Signals({SawVararg})
    case Name(n) => Signals(NameSignals(n))
    case Index(o, k) => Both(Of(o), Of(k))
    case Paren(x) => Of(x)
    case Call(fn, args) => Both(OfAll(args), OfCallee(fn))
    case MethodCall(recv, args) => Both(Both(Of(recv), OfAll(args)), Signals({SelfCall}))
    case Bin(l, r) => Both(Of(l), Of(r))
    case Un(x) => Of(x)
    case Func(_, _, body) => NOTHING.(nest := 1 + OfBlock(body).nest, events := [Nests(e)])
    case TableCons(items) => OfItems(items)
    case _ => NOTHING
  }

  function OfAll(es: seq<Expr>): Shows
    decreases es, 0
  {
    if es == [] then NOTHING else Both(OfAll(es[..|es| - 1]), Of(es[|es| - 1]))
  }

  function OfItems(items: seq<Item>): Shows
    decreases items, 0
  {
    if items == [] then NOTHING else Both(OfItems(items[..|items| - 1]), OfItem(items[|items| - 1]))
  }

  function OfItem(it: Item): Shows
    decreases it, 0
  {
    Both(Of(it.key), Of(it.val))
  }

  function OfStmt(s: Stmt): Shows
    decreases s, 0
  {
    match s
    case Local(names, exprs) =>
      Both(OfAll(exprs), Rebinding(SetOf(names), LocalFuncs(names, exprs), LocalAliases(names, exprs)))
    case LocalFunc(name, fn) => Both(Rebinding({name}, map[name := fn], {}), Of(fn))
    case Assign(targets, exprs) => Both(Both(OfAll(targets), OfAll(exprs)), Rebinding(NamesOf(targets), map[], {}))
    case CallStmt(call) => Of(call)
    case Do(body) => Scoped(OfBlock(body))
    case While(cond, body) => Both(Of(cond), Scoped(OfBlock(body)))
    case Repeat(body, cond) => Scoped(Both(OfBlock(body), Of(cond)))
    case If(clauses, orElse) => Both(OfClauses(clauses), Scoped(OfBlock(orElse)))
    case NumFor(init, limit, step, body) => Both(Both(Both(Of(init), Of(limit)), Of(step)), Scoped(OfBlock(body)))
    case GenFor(exprs, body) => Both(OfAll(exprs), Scoped(OfBlock(body)))
    case FuncStmt(target, fn) => Both(Of(target), Of(fn))
    case Return(exprs) => OfAll(exprs)
    case Break => NOTHING
  }

  function OfBlock(b: seq<Stmt>): Shows
    decreases b, 0
  {
    if b == [] then NOTHING else Both(OfBlock(b[..|b| - 1]), OfStmt(b[|b| - 1]))
  }

  function OfClauses(cs: seq<Clause>): Shows
    decreases cs, 0
  {
    if cs == [] then NOTHING else Both(OfClauses(cs[..|cs| - 1]), OfClause(cs[|cs| - 1]))
  }

  function OfClause(c: Clause): Shows
    decreases c, 0
  {
    Both(Of(c.cond), Scoped(OfBlock(c.body)))
  }

  // ---- programs ----

  /** The function literals of a program by identity. */
  type Defs = map<nat, seq<Stmt>>

  /** Every function literal in the syntax is the program's. */
  ghost predicate In(d: Defs, e: Expr)
    decreases e, 0
  {
    match e
    case Index(o, k) => In(d, o) && In(d, k)
    case Paren(x) => In(d, x)
    case Call(fn, args) => In(d, fn) && forall i :: 0 <= i < |args| ==> In(d, args[i])
    case MethodCall(recv, args) => In(d, recv) && forall i :: 0 <= i < |args| ==> In(d, args[i])
    case Bin(l, r) => In(d, l) && In(d, r)
    case Un(x) => In(d, x)
    case Func(id, _, body) => id in d && d[id] == body && InBlock(d, body)
    case TableCons(items) => forall i :: 0 <= i < |items| ==> In(d, items[i].key) && In(d, items[i].val)
    case _ => true
  }

  ghost predicate InStmt(d: Defs, s: Stmt)
    decreases s, 0
  {
    match s
    case Local(_, exprs) => forall i :: 0 <= i < |exprs| ==> In(d, exprs[i])
    case LocalFunc(_, fn) => fn.Func? && In(d, fn)
    case Assign(targets, exprs) =>
      (forall i :: 0 <= i < |targets| ==> In(d, targets[i])) && forall i :: 0 <= i < |exprs| ==> In(d, exprs[i])
    case CallStmt(call) => In(d, call)
    case Do(body) => InBlock(d, body)
    case While(cond, body) => In(d, cond) && InBlock(d, body)
    case Repeat(body, cond) => In(d, cond) && InBlock(d, body)
    case If(clauses, orElse) =>
      (forall i :: 0 <= i < |clauses| ==> In(d, clauses[i].cond) && InBlock(d, clauses[i].body)) && InBlock(d, orElse)
    case NumFor(init, limit, step, body) => In(d, init) && In(d, limit) && In(d, step) && InBlock(d, body)
    case GenFor(exprs, body) => (forall i :: 0 <= i < |exprs| ==> In(d, exprs[i])) && InBlock(d, body)
    case FuncStmt(target, fn) => In(d, target) && fn.Func? && In(d, fn)
    case Return(exprs) => forall i :: 0 <= i < |exprs| ==> In(d, exprs[i])
    case Break => true
  }

  ghost predicate InBlock(d: Defs, b: seq<Stmt>)
    decreases b, 0
  {
    forall i :: 0 <= i < |b| ==> InStmt(d, b[i])
  }
}
