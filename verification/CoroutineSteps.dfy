/** What each step makes of the machine (internal/crescent/coroutine.go:64-132, 159-416,
    internal/crescent/call.go:29-106, 158-173, internal/crescent/meta.go:309-410). */
module CoroutineSteps {
  import opened CoroutineStates

  datatype Outcome =
    | Done
    | ResumeDead
    | ResumeBusy(s: Status)
    | COverflow
    | ErrErr
    | EnterFailed
    | NoYieldPoint
    | YieldBoundary

  /** The C-call depth check: n is the depth asked for. */
  function CCallCheck(n: nat): Outcome {
    if n < MAX_C_CALLS then Done else if n >= MAX_C_CALLS + MAX_C_CALLS / 8 then ErrErr
    else if n > MAX_C_CALLS then Done else COverflow
  }

  // ---- coroutines come and go ----

  /** The index of the next record. */
  function NewId(v: View): nat {
    if |v.free| > 0 then v.free[|v.free| - 1] else |v.cos|
  }

  function WithRecord(cos: Registry, id: nat, co: Co): Registry
    requires id <= |cos|
  {
    if id < |cos| then cos[id := Some(co)] else cos + [Some(co)]
  }

  /** A coroutine more, on a thread of its own with no frames. */
  ghost predicate CreatedAs(v: View, w: View) {
    && NewId(v) <= |v.cos|
    && w == v.(cos := WithRecord(v.cos, NewId(v), Co(v.nextRef, v.nextTh, Suspended, false, 0)),
               free := if |v.free| > 0 then v.free[..|v.free| - 1] else [],
               threads := v.threads[v.nextTh := Thread([], None)], nextRef := v.nextRef + 1, nextTh := v.nextTh + 1)
  }

  predicate Drops(cos: Registry, unreached: set<nat>, i: nat)
    requires i < |cos|
  {
    cos[i].Some? && cos[i].value.ref in unreached
  }

  /** The records to drop among the first n. */
  function DroppedIds(cos: Registry, unreached: set<nat>, n: nat): seq<nat>
    requires n <= |cos|
  {
    if n == 0 then []
    else DroppedIds(cos, unreached, n - 1) + if Drops(cos, unreached, n - 1) then [n - 1] else []
  }

  function Collected(v: View, unreached: set<nat>): View {
    v.(cos := seq(|v.cos|, i requires 0 <= i < |v.cos| => if Drops(v.cos, unreached, i) then None else v.cos[i]),
       free := v.free + DroppedIds(v.cos, unreached, |v.cos|))
  }

  // ---- resuming ----

  function WithCo(v: View, id: nat, co: Co): View
    requires id < |v.cos|
  {
    v.(cos := v.cos[id := Some(co)])
  }

  /** The coroutine runs: in the loop its recorded point names, the point taken, or, at first, on an entry
      frame of its function. */
  ghost predicate EnteredAs(v: View, id: nat, w: View) {
    && Core(v) && Lives(v.cos, id) && v.cos[id].value.th in v.threads
    && var t := v.threads[v.cos[id].value.th];
    if v.cos[id].value.started then
      t.pending.Some? && w == EnteredView(v, id, Thread(t.frames, None), t.pending.value.entryDepth)
    else w == EnteredView(v, id, Thread([true], None), 0)
  }

  /** Switching to a coroutine and at once back again, when its first frame is refused. */
  lemma EnteredAndLeft(v: View, id: nat)
    requires Core(v) && v.mode == Runs && Lives(v.cos, id) && v.cos[id].value.status == Suspended
    requires v.cos[id].value.th in v.threads && v.threads[v.cos[id].value.th] == Thread([], None)
    ensures var w := EnteredView(v, id, Thread([], None), 0);
      && Core(w) && InnermostIs(w, id) && Lives(w.cos, id) && w.nCcalls > 0 && |w.threadChain| > 0
      && (w.acts[|w.acts| - 1].resumer.Some? ==> Lives(w.cos, w.acts[|w.acts| - 1].resumer.value))
      && LeftView(w, id, w.cos[id].value.(status := Dead)) ==
           WithCo(v, id, v.cos[id].value.(status := Dead, started := true, baseCcalls := v.nCcalls + 1))
  {
    RunnerThere(v);
    EnterCore(v, id, Thread([], None), 0);
    var w := EnteredView(v, id, Thread([], None), 0);
    InnermostFacts(w, id);
    hide OwnThreads, ResumeChain, OffChain, ChainThreads, ActsOk, FreeIds;
    var x := LeftView(w, id, w.cos[id].value.(status := Dead));
    assert x.acts == v.acts && x.threadChain == v.threadChain;
    assert w.threads == v.threads;
    var co := v.cos[id].value.(status := Dead, started := true, baseCcalls := v.nCcalls + 1);
    assert x.cos == v.cos[id := Some(co)];
  }

  /** What a resume that answers r makes of the machine. */
  ghost predicate ResumedAs(v: View, h: Handle, r: Outcome, w: View) {
    if r == Done then EnteredAs(v, h.id, w)
    else if r == EnterFailed then
      && Lives(v.cos, h.id)
      && w == WithCo(v, h.id, v.cos[h.id].value.(status := Dead, started := true, baseCcalls := v.nCcalls + 1))
    else if r == COverflow && Lives(v.cos, h.id) && !v.cos[h.id].value.started then
      w == WithCo(v, h.id, v.cos[h.id].value.(status := Dead))
    else w == v
  }

  /** The innermost resume is over, its coroutine's state now s; its resumer runs. */
  ghost predicate EndedAs(v: View, s: Status, w: View) {
    && InnermostResumed(v.acts)
    && var a := v.acts[|v.acts| - 1];
    && Lives(v.cos, a.id) && v.nCcalls > 0 && |v.threadChain| > 0
    && (a.resumer.Some? ==> Lives(v.cos, a.resumer.value))
    && w == LeftView(v, a.id, v.cos[a.id].value.(status := s))
  }

  lemma RunnerKnown(v: View)
    requires Ok(v)
    ensures Core(v) && (RunsHost(v) ==> v.mode == Runs)
  {
  }

  // ---- returning and unwinding ----

  /** The top frame goes, and with the frame its loop entered at the loop. */
  ghost predicate ReturnedAs(v: View, w: View) {
    && v.running in v.threads && |v.threads[v.running].frames| > 0 && |v.acts| > 0
    && var t, a := v.threads[v.running], v.acts[|v.acts| - 1];
    var u := WithThread(v, Thread(t.frames[..|t.frames| - 1], t.pending));
    if |t.frames| - 1 > LoopEntry(a) then w == u
    else if a.Reentry? then u.nCcalls > 0 && w == Popped(u)
    else EndedAs(u, Dead, w)
  }

  /** A signal goes one caller up. */
  ghost predicate UnwoundAs(v: View, w: View) {
    && v.mode.Unwinds? && |v.acts| > 0 && v.running in v.threads
    && var a := v.acts[|v.acts| - 1];
    if a.Resumed? then EndedAs(v, if v.mode.sig == Sentinel then Suspended else Dead, w)
    else if a.Reentry? then v.nCcalls > 0 && w == ReentryUnwound(v)
    else if a.site.FromHost? then v.nCcalls > 0 && w == HostReentryUnwound(v)
    else w == CallUnwound(v)
  }

  /** A Lua frame more on the running thread. */
  function Framed(v: View, entry: bool): View
    requires v.running in v.threads
  {
    var t := v.threads[v.running];
    WithThread(v, Thread(t.frames + [entry], t.pending))
  }

  /** What a re-entry that answers r makes of the machine: an error goes to whoever called. */
  ghost predicate ReenteredAs(v: View, lua: bool, r: Outcome, w: View) {
    && v.running in v.threads
    && w == if r != Done then InMode(v, Handed(v.acts, Error))
            else if lua then Pushed(Framed(v, true), Reentry(|v.threads[v.running].frames|))
            else Pushed(v, HostFn(FromHost))
  }
}
