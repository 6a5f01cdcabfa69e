/** The coroutine machine (internal/crescent/coroutine.go:64-132, 159-416,
    internal/crescent/call.go:29-106, 158-173, internal/crescent/meta.go:309-410,
    internal/crescent/frame.go:39-57).

    Between two steps either the innermost activation of `goStack` runs, or it has returned a signal that
    its caller has not handled yet (`mode`). */
module Coroutines {
  import opened CoroutineStates
  import opened CoroutineSteps

  class Machine {
    var cos: Registry
    var free: seq<nat>
    var threads: Threads
    var runningThread: nat
    var threadChain: seq<nat>
    var nCcalls: nat
    var goStack: seq<Activation>
    var mode: Control
    var nextTh: nat
    var nextRef: nat

    ghost predicate Valid()
      reads this
    {
      Ok(Now())
    }

    function Now(): View
      reads this
    {
      View(cos, free, threads, runningThread, threadChain, nCcalls, goStack, mode, nextTh, nextRef)
    }

    constructor ()
      ensures Valid() && cos == [] && goStack == [] && mode == Runs
    {
      cos, free, threadChain, goStack, mode := [], [], [], [], Runs;
      threads := map[MAIN_THREAD := Thread([], None)];
      runningThread, nCcalls, nextTh, nextRef := MAIN_THREAD, 0, 1, 0;
    }

    /** coroutine.status. */
    function StatusOf(h: Handle): Status
      reads this
    {
      StatusIn(cos, h)
    }

    function Started(h: Handle): bool
      reads this
    {
      CoIn(cos, h).Some? && cos[h.id].value.started
    }

    /** No handle that was dead came back. */
    twostate predicate DeadStays()
      reads this
    {
      forall h: Handle :: h.ref < old(nextRef) && old(StatusOf(h)) == Dead ==> StatusOf(h) == Dead
    }

    // ---- host functions ----

    /** coroutine.create: a suspended coroutine, or the argument error for anything but a Lua
        function. */
    method NewCoroutine(isLuaFunction: bool) returns (h: Option<Handle>)
      requires Valid()
      modifies this
      ensures Valid() && DeadStays() && goStack == old(goStack) && mode == old(mode)
      ensures h.Some? <==> isLuaFunction
      ensures h.None? ==> Now() == old(Now())
      ensures h.Some? ==> CreatedAs(old(Now()), Now()) && h.value == Handle(old(nextRef), NewId(old(Now())))
      ensures h.Some? ==>
        StatusOf(h.value) == Suspended && old(StatusOf(h.value)) == Dead && h.value.ref == old(nextRef)
      ensures old(nextRef) <= nextRef && forall g: Handle :: g.ref < old(nextRef) ==> StatusOf(g) == old(StatusOf(g))
      ensures SuspendedKept(old(Now()), Now())
    {
      hide Core, Points, SuspendedKept;
      FewerKept(Now(), Now());
      FreeIdThere(Now());
      if !isLuaFunction {
        return None;
      }
      ghost var v := Now();
      var co := Co(nextRef, nextTh, Suspended, false, 0);
      var id;
      if |free| > 0 {
        id := free[|free| - 1];
        free := free[..|free| - 1];
        cos := cos[id := Some(co)];
      } else {
        id := |cos|;
        cos := cos + [Some(co)];
      }
      threads := threads[nextTh := Thread([], None)];
      nextRef, nextTh := nextRef + 1, nextTh + 1;
      h := Some(Handle(co.ref, id));
      CreateOk(v, Now(), id, co);
      CreatedKept(v, Now(), id);
    }

    /** The coroutine that runs, None on the main thread. */
    method FindRunningCo() returns (r: Option<nat>)
      requires Core(Now())
      ensures r == InnermostId(ChainOf(goStack))
      ensures r.Some? ==> Lives(cos, r.value) && cos[r.value].value.th == runningThread
    {
      ghost var chain := ChainOf(goStack);
      var i := 0;
      while i < |cos|
        invariant 0 <= i <= |cos|
        invariant forall j: nat :: j < i && cos[j].Some? ==>
          cos[j].value.th != runningThread || cos[j].value.status != Running
      {
        if cos[i].Some? && cos[i].value.th == runningThread && cos[i].value.status == Running {
          OnlyRunning(Now(), i);
          return Some(i);
        }
        i := i + 1;
      }
      RunnerThere(Now());
      return None;
    }

    /** The start of a resume: the resumer becomes normal, its thread joins the chain, and a loop starts on
        the coroutine's thread, which becomes t. */
    method Switch(id: nat, resumer: Option<nat>, t: Thread, entry: nat)
      requires Core(Now()) && Lives(cos, id) && cos[id].value.status == Suspended
      requires resumer == InnermostId(ChainOf(goStack))
      requires resumer.Some? ==> Lives(cos, resumer.value)
      modifies `cos, `threads, `runningThread, `threadChain, `nCcalls, `goStack
      ensures Now() == EnteredView(old(Now()), id, t, entry)
    {
      hide OwnThreads, ResumeChain, OffChain, ChainThreads, ActsOk, FreeIds;
      var resumerTh := runningThread;
      nCcalls := nCcalls + 1;
      cos := cos[id := Some(cos[id].value.(status := Running, started := true, baseCcalls := nCcalls))];
      if resumer.Some? {
        cos := cos[resumer.value := Some(cos[resumer.value].value.(status := Normal))];
      }
      threadChain := threadChain + [resumerTh];
      runningThread := cos[id].value.th;
      threads := threads[runningThread := t];
      goStack := goStack + [Resumed(id, resumer, resumerTh, entry)];
    }

    /** The end of the innermost resume, its coroutine's record now `co`; its caller runs. */
    method Leave(id: nat, co: Co)
      requires Core(Now()) && InnermostIs(Now(), id)
      requires Lives(cos, id) && co.th == cos[id].value.th && co.ref == cos[id].value.ref
      requires co.status == Dead || co.status == Suspended
      modifies `cos, `runningThread, `threadChain, `nCcalls, `goStack, `mode
      ensures old(nCcalls > 0 && |threadChain| > 0)
      ensures old(goStack[|goStack| - 1].resumer.Some? ==> Lives(cos, goStack[|goStack| - 1].resumer.value))
      ensures Core(Now()) && Now() == LeftView(old(Now()), id, co) && SameThreadIds(old(cos), cos)
      ensures forall g :: StatusOf(g) == if CoIn(old(cos), g) == Some(id) then co.status
                else if old(Waiting(Now(), g)) then Running else old(StatusOf(g))
    {
      hide OwnThreads, ResumeChain, OffChain, ChainThreads, ActsOk, FreeIds;
      InnermostFacts(Now(), id);
      LeaveCore(Now(), id, co);
      LeaveStatus(Now(), id, co);
      var a := goStack[|goStack| - 1];
      runningThread := a.resumerTh;
      cos := cos[id := Some(co)];
      threadChain := threadChain[..|threadChain| - 1];
      if a.resumer.Some? {
        cos := cos[a.resumer.value := Some(cos[a.resumer.value].value.(status := Running))];
      }
      nCcalls := nCcalls - 1;
      goStack := goStack[..|goStack| - 1];
      mode := Runs;
    }

    /** coroutine.resume up to the point where the coroutine's code runs. startFails says that a
        first call would not get its frame. A started coroutine goes on in the loop its point names. */
    method Resume(h: Handle, startFails: bool) returns (r: Outcome)
      requires Valid() && RunsHost(Now())
      modifies `cos, `threads, `runningThread, `threadChain, `nCcalls, `goStack, `mode
      ensures Valid() && DeadStays() && r != NoYieldPoint && mode == Runs
      ensures var s := old(StatusOf(h));
        r == (if s == Dead then ResumeDead else if s == Running || s == Normal then ResumeBusy(s)
              else if old(nCcalls) >= 200 then COverflow
              else if startFails && !old(Started(h)) then EnterFailed else Done)
      ensures ResumedAs(old(Now()), h, r, Now())
      ensures r == Done ==> InnermostIs(Now(), h.id) && goStack[..|goStack| - 1] == old(goStack)
      ensures r == Done ==> StatusOf(h) == Running && runningThread == cos[h.id].value.th
      ensures r == Done && old(Started(h)) ==> GoesOn(old(Now()), h.id, Now())
      ensures r != Done ==>
        goStack == old(goStack) && runningThread == old(runningThread) && threadChain == old(threadChain)
          && nCcalls == old(nCcalls)
      ensures var killed := r == EnterFailed || (r == COverflow && !old(Started(h)));
        forall g: Handle :: StatusOf(g) == ResumedStatus(old(Now()), h, r == Done, killed, g)
      ensures SuspendedKept(old(Now()), Now())
    {
      hide Core, Points, SuspendedKept;
      ghost var v := Now();
      FewerKept(v, v);
      var c := CoIn(cos, h);
      if c.None? {
        return ResumeDead;
      }
      var co := cos[c.value].value;
      if co.status == Dead {
        return ResumeDead;
      }
      if co.status == Running || co.status == Normal {
        return ResumeBusy(co.status);
      }
      if nCcalls >= MAX_C_CALLS {
        if !co.started {
          StillbornOk(v, c.value);
          FewerKept(v, v.(cos := cos[c.value := Some(co.(status := Dead))]));
          cos := cos[c.value := Some(co.(status := Dead))];
        }
        return COverflow;
      }
      r := Go(c.value, startFails);
    }

    /** The resume of a suspended coroutine, its C call granted. */
    method Go(id: nat, startFails: bool) returns (r: Outcome)
      requires Valid() && RunsHost(Now()) && Lives(cos, id) && cos[id].value.status == Suspended
      modifies `cos, `threads, `runningThread, `threadChain, `nCcalls, `goStack, `mode
      ensures Valid() && mode == Runs
      ensures r == if startFails && !old(cos[id].value.started) then EnterFailed else Done
      ensures ResumedAs(old(Now()), Handle(old(cos[id].value.ref), id), r, Now())
      ensures r == Done ==> InnermostIs(Now(), id) && goStack[..|goStack| - 1] == old(goStack)
      ensures r == Done ==> Lives(cos, id) && runningThread == cos[id].value.th
      ensures r == Done && old(cos[id].value.started) ==> GoesOn(old(Now()), id, Now())
      ensures r != Done ==>
        goStack == old(goStack) && runningThread == old(runningThread) && threadChain == old(threadChain)
          && nCcalls == old(nCcalls)
      ensures forall g :: StatusOf(g) == if CoIn(old(cos), g) == Some(id) then (if r == Done then Running else Dead)
                else if r == Done && old(StatusOf(g)) == Running then Normal else old(StatusOf(g))
      ensures SuspendedKept(old(Now()), Now())
    {
      hide OwnThreads, ResumeChain, OffChain, ChainThreads, ActsOk, FreeIds, Entering, Leaving, ChainOf, Points;
      hide SuspendedKept;
      ghost var v := Now();
      SuspendedThread(v, id);
      RunnerThere(v);
      var resumer := FindRunningCo();
      if !cos[id].value.started && startFails {
        FailToStart(id, resumer);
        return EnterFailed;
      }
      if cos[id].value.started {
        r := Continue(id, resumer);
      } else {
        Switch(id, resumer, Thread([true], None), 0);
        r := Done;
      }
      ghost var t := threads[v.cos[id].value.th];
      EnterPoints(v, id, t);
      EnterCore(v, id, t, 0);
      EnterStatus(v, id, t, 0);
      EnterKept(v, id, t, 0);
    }

    /** The frame of a first call is refused: the coroutine is dead. */
    method FailToStart(id: nat, resumer: Option<nat>)
      requires Valid() && RunsHost(Now()) && Lives(cos, id) && cos[id].value.status == Suspended
      requires resumer == InnermostId(ChainOf(goStack)) && (resumer.Some? ==> Lives(cos, resumer.value))
      requires !cos[id].value.started
      modifies `cos, `threads, `runningThread, `threadChain, `nCcalls, `goStack, `mode
      ensures Valid()
      ensures Now() == WithCo(old(Now()), id,
                old(cos)[id].value.(status := Dead, started := true, baseCcalls := old(nCcalls) + 1))
      ensures forall g :: StatusOf(g) == if CoIn(old(cos), g) == Some(id) then Dead else old(StatusOf(g))
      ensures SuspendedKept(old(Now()), Now())
    {
      hide OwnThreads, ResumeChain, OffChain, ChainThreads, ActsOk, FreeIds, Entering, Leaving, ChainOf, Points, Waits;
      hide EnteredView, LeftView, SuspendedKept, Behind, Core;
      ghost var v, t := Now(), Thread([], None);
      RunnerKnown(v);
      SuspendedThread(v, id);
      EnterBehind(v, id, t);
      EnterKept(v, id, t, 0);
      EnteredAndLeft(v, id);
      Switch(id, resumer, Thread([], None), 0);
      ghost var w := Now();
      var dead := cos[id].value.(status := Dead);
      LeavePoints(w, id, dead);
      LeaveKept(w, id, dead);
      DeadLeaves(w, id, dead);
      Leave(id, dead);
      SuspendedKeptTwice(v, w, Now());
    }

    /** A started coroutine goes on: its recorded point is taken, without one there is only the error. */
    method Continue(id: nat, resumer: Option<nat>) returns (r: Outcome)
      requires Core(Now()) && Lives(cos, id) && cos[id].value.status == Suspended && cos[id].value.th in threads
      requires resumer == InnermostId(ChainOf(goStack)) && (resumer.Some? ==> Lives(cos, resumer.value))
      modifies `cos, `threads, `runningThread, `threadChain, `nCcalls, `goStack, `mode
      ensures Core(Now())
      ensures var t := old(threads[cos[id].value.th]);
        if t.pending.Some? then
          r == Done && Now() == EnteredView(old(Now()), id, Thread(t.frames, None), t.pending.value.entryDepth)
        else r == NoYieldPoint
    {
      hide OwnThreads, ResumeChain, OffChain, ChainThreads, ActsOk, FreeIds, Entering, Leaving, ChainOf;
      ghost var v := Now();
      var t := threads[cos[id].value.th];
      if t.pending.None? {
        EnterCore(v, id, t, 0);
        EnterStatus(v, id, t, 0);
        Switch(id, resumer, t, 0);
        InnermostFacts(Now(), id);
        Leave(id, cos[id].value.(status := Dead));
        return NoYieldPoint;
      }
      var entry := t.pending.value.entryDepth;
      EnterCore(v, id, Thread(t.frames, None), entry);
      Switch(id, resumer, Thread(t.frames, None), entry);
      return Done;
    }

    /** coroutine.yield, the host function that runs: it hands back the sentinel, or the boundary error
        when a re-entry is between it and the coroutine's own loop. It records nothing. */
    method Yield() returns (r: Outcome)
      requires Valid() && RunsHost(Now()) && |goStack| > 0
      modifies `mode
      ensures Valid()
      ensures r == if CalledByBody(goStack) then Done else YieldBoundary
      ensures mode == if r == Done then Unwinds(Sentinel) else Runs
    {
      hide Core, Behind, ChainOf;
      var c := FindRunningCo();
      BoundaryIsBase(Now());
      if c.None? {
        return YieldBoundary;
      }
      if nCcalls > cos[c.value].value.baseCcalls {
        return YieldBoundary;
      }
      YieldedOk(Now());
      mode := Unwinds(Sentinel);
      return Done;
    }

    /** The host function that runs returns its results. */
    method HostReturn()
      requires Valid() && RunsHost(Now()) && |goStack| > 0
      modifies `nCcalls, `goStack
      ensures Valid() && goStack == old(goStack[..|goStack| - 1])
      ensures old(nCcalls) >= (if Counts(old(goStack[|goStack| - 1])) then 1 else 0) && Now() == Popped(old(Now()))
    {
      hide Core, Behind;
      HostReturnedOk(Now());
      if goStack[|goStack| - 1].site.FromHost? {
        nCcalls := nCcalls - 1;
      }
      goStack := goStack[..|goStack| - 1];
    }

    // ---- instructions and re-entries ----

    /** CALL or TAILCALL of a host function. */
    method Invoke(site: Site)
      requires Valid() && RunsLua(Now()) && !site.FromHost?
      modifies `goStack
      ensures Valid() && goStack == old(goStack) + [HostFn(site)]
    {
      hide Core, Behind;
      HostCalledOk(Now(), site);
      goStack := goStack + [HostFn(site)];
    }

    /** CALL of a Lua function. */
    method CallLua()
      requires Valid() && RunsLua(Now())
      modifies `threads
      ensures Valid()
      ensures runningThread in old(threads) && threads == old(threads)[runningThread :=
        Thread(old(threads)[runningThread].frames + [false], old(threads)[runningThread].pending)]
    {
      hide Core, Behind;
      LuaCalledOk(Now());
      var t := threads[runningThread];
      threads := threads[runningThread := Thread(t.frames + [false], t.pending)];
    }

    /** RETURN: when the frame its loop entered at goes, the loop ends, and with it the re-entry or the
        coroutine that started it. */
    method Return() returns (ended: bool)
      requires Valid() && RunsLua(Now())
      modifies `cos, `threads, `runningThread, `threadChain, `nCcalls, `goStack, `mode
      ensures Valid() && DeadStays() && mode == Runs
      ensures runningThread == old(runningThread) || (ended && InnermostResumed(old(goStack)))
      ensures goStack == if ended then old(goStack[..|goStack| - 1]) else old(goStack)
      ensures old(runningThread in threads && |threads[runningThread].frames| > 0)
      ensures ended == old(|threads[runningThread].frames| - 1 <= LoopEntry(goStack[|goStack| - 1]))
      ensures ReturnedAs(old(Now()), Now())
      ensures old(runningThread) in threads
      ensures threads[old(runningThread)].frames ==
        old(threads[runningThread].frames[..|threads[runningThread].frames| - 1])
      ensures forall g ::
        StatusOf(g) == LeftStatus(old(Now()), if ended && InnermostResumed(old(goStack)) then Some(Dead) else None, g)
      ensures SuspendedKept(old(Now()), Now())
    {
      hide Core, Behind, SuspendedKept;
      ghost var v := Now();
      ReturnedOk(v);
      var t, a := threads[runningThread], goStack[|goStack| - 1];
      ended := |t.frames| - 1 <= LoopEntry(a);
      ThreadKept(v, Thread(t.frames[..|t.frames| - 1], t.pending));
      threads := threads[runningThread := Thread(t.frames[..|t.frames| - 1], t.pending)];
      ghost var w := Now();
      if !ended {
        return;
      }
      if a.Reentry? {
        nCcalls := nCcalls - 1;
        goStack := goStack[..|goStack| - 1];
        KeptLikewise(v, w, Now());
        return;
      }
      EndCoroutine(Dead);
      SuspendedKeptTwice(v, w, Now());
    }

    /** The innermost resume is over: its coroutine is suspended or dead, its resumer runs again. */
    method EndCoroutine(s: Status)
      requires Core(Now()) && Behind(Now()) && InnermostResumed(goStack)
      requires s == Dead || (s == Suspended && runningThread in threads && Waits(threads[runningThread]))
      modifies `cos, `runningThread, `threadChain, `nCcalls, `goStack, `mode
      ensures Valid() && DeadStays() && mode == Runs && goStack == old(goStack[..|goStack| - 1])
      ensures forall g :: StatusOf(g) == LeftStatus(old(Now()), Some(s), g)
      ensures SameRecords(old(cos), cos) && threads == old(threads) && EndedAs(old(Now()), s, Now())
      ensures SuspendedKept(old(Now()), Now())
    {
      hide Core, Behind, ChainOf, SuspendedKept;
      ghost var v := Now();
      var id := goStack[|goStack| - 1].id;
      InnermostFacts(v, id);
      RunningHandles(v, id);
      WaitingIsNormal(v, id);
      var co := cos[id].value;
      LeavePoints(v, id, co.(status := s));
      LeaveKept(v, id, co.(status := s));
      Leave(id, co.(status := s));
    }

    /** A host function, or an instruction by way of a metamethod or an iterator, calls back: a Lua function
        on a loop of its own, or another host function. `fails` says that a Lua function would not get its
        frame. An error goes back to whoever called. */
    method Reenter(lua: bool, fails: bool) returns (r: Outcome)
      requires Valid() && mode == Runs
      modifies `threads, `nCcalls, `goStack, `mode
      ensures Valid()
      ensures old(nCcalls) < 199 || 200 <= old(nCcalls) < 224 ==> r == if lua && fails then EnterFailed else Done
      ensures old(nCcalls) == 199 ==> r == COverflow
      ensures old(nCcalls) >= 224 ==> r == ErrErr
      ensures r == Done ==> nCcalls == old(nCcalls) + 1
      ensures r != Done ==> threads == old(threads) && goStack == old(goStack) && nCcalls == old(nCcalls)
      ensures r != Done ==>
        mode == if goStack == [] || goStack[|goStack| - 1].HostFn? then Runs else Unwinds(Error)
      ensures r == Done ==> mode == Runs && runningThread in old(threads)
      ensures r == Done ==>
        goStack == old(goStack) + [if lua then Reentry(|old(threads)[runningThread].frames|) else HostFn(FromHost)]
      ensures r == Done ==> threads == if lua then old(threads)[runningThread :=
        Thread(old(threads)[runningThread].frames + [true], old(threads)[runningThread].pending)] else old(threads)
      ensures ReenteredAs(old(Now()), lua, r, Now())
    {
      hide Core, Points;
      RunningThread(Now());
      r := CCallCheck(nCcalls + 1);
      if r == Done && lua && fails {
        r := EnterFailed;
      }
      if r != Done {
        RaisedOk(Now(), Handed(goStack, Error));
        mode := Handed(goStack, Error);
        return;
      }
      if lua {
        StartLoop();
      } else {
        HostCalledOk(Now(), FromHost);
        nCcalls := nCcalls + 1;
        goStack := goStack + [HostFn(FromHost)];
      }
    }

    /** The Lua function's loop, on an entry frame. */
    method StartLoop()
      requires Valid() && mode == Runs
      modifies `threads, `nCcalls, `goStack
      ensures Valid() && runningThread in old(threads)
      ensures var t := old(threads)[runningThread];
        && goStack == old(goStack) + [Reentry(|t.frames|)] && nCcalls == old(nCcalls) + 1
        && threads == old(threads)[runningThread := Thread(t.frames + [true], t.pending)]
    {
      hide Core, Points;
      RunningThread(Now());
      LuaReenteredOk(Now());
      var t := threads[runningThread];
      nCcalls := nCcalls + 1;
      threads := threads[runningThread := Thread(t.frames + [true], t.pending)];
      goStack := goStack + [Reentry(|t.frames|)];
    }

    // ---- signals ----

    /** Code that runs raises an error. */
    method Raise()
      requires Valid() && mode == Runs && |goStack| > 0
      modifies `mode
      ensures Valid() && mode == Unwinds(Error)
    {
      hide Core, Behind;
      RaisedOk(Now(), Unwinds(Error));
      mode := Unwinds(Error);
    }

    /** The signal goes one caller up. */
    method Unwind()
      requires Valid() && mode.Unwinds?
      modifies `cos, `threads, `runningThread, `threadChain, `nCcalls, `goStack, `mode
      ensures Valid() && DeadStays() && |old(goStack)| > 0 && goStack == old(goStack[..|goStack| - 1])
      ensures forall g :: StatusOf(g) == LeftStatus(old(Now()), Fate(old(goStack), old(mode)), g)
      ensures InnermostResumed(old(goStack)) ==> mode == Runs && threads == old(threads)
      ensures SameRecords(old(cos), cos) && UnwoundAs(old(Now()), Now())
      ensures !Counts(old(goStack[|goStack| - 1])) ==> old(runningThread in threads) && Now() == CallUnwound(old(Now()))
      ensures old(mode) == Unwinds(Sentinel) ==>
        InnermostResumed(old(goStack)) || (!Counts(old(goStack[|goStack| - 1])) && mode == Unwinds(Sentinel))
      ensures var a, host := old(goStack[|goStack| - 1]), goStack == [] || goStack[|goStack| - 1].HostFn?;
        && (a.Reentry? ==> mode == if host then Runs else Unwinds(Error))
        && (a == HostFn(FromHost) ==> mode == if host then Runs else old(mode))
      ensures SuspendedKept(old(Now()), Now())
    {
      hide Core, Behind, SuspendedKept;
      ghost var v := Now();
      if mode == Unwinds(Sentinel) { SentinelMeetsNoBoundary(v); }
      var a := goStack[|goStack| - 1];
      if a.Resumed? {
        EndCoroutine(if mode.sig == Sentinel then Suspended else Dead);
        return;
      }
      if a.Reentry? {
        ReentryUnwoundOk(v);
        AfterReentry();
      } else if a.site.FromHost? {
        HostReentryUnwoundOk(v);
        AfterHostReentry();
      } else {
        CallUnwoundOk(v);
        AfterCall();
      }
      RunningKept(v, Now());
    }

    /** doCall and doTailCall, when the host function they called hands back a signal. */
    method AfterCall()
      requires mode.Unwinds? && |goStack| > 0 && runningThread in threads && !Counts(goStack[|goStack| - 1])
      modifies `threads, `goStack
      ensures Now() == CallUnwound(old(Now()))
    {
      var t, site := threads[runningThread], goStack[|goStack| - 1].site;
      if mode.sig == Sentinel {
        var entry := EntryDepthOf(t.frames);
        match site
        case CallInstr(dst, nresults) =>
          threads := threads[runningThread := t.(pending := Some(Point(|t.frames| - 1, dst, nresults, entry)))];
        case TailCallInstr(dst) =>
          threads := threads[runningThread := t.(pending := Some(Point(|t.frames| - 1, dst, -1, entry)))];
        case FromHost =>
      }
      goStack := goStack[..|goStack| - 1];
    }

    /** callLuaFromHostNamed, when its loop hands back a signal. */
    method AfterReentry()
      requires mode.Unwinds? && |goStack| > 0 && runningThread in threads && goStack[|goStack| - 1].Reentry?
      requires nCcalls > 0
      modifies `threads, `nCcalls, `goStack, `mode
      ensures Now() == ReentryUnwound(old(Now()))
    {
      var t, saved := threads[runningThread], goStack[|goStack| - 1].saved;
      if saved < |t.frames| {
        t := t.(frames := t.frames[..saved]);
      }
      if mode.sig == Sentinel {
        t := t.(pending := None);
      }
      threads := threads[runningThread := t];
      nCcalls := nCcalls - 1;
      goStack := goStack[..|goStack| - 1];
      mode := Handed(goStack, Error);
    }

    /** The same function, when the host function it called hands back a signal: it returns it as it is. */
    method AfterHostReentry()
      requires mode.Unwinds? && |goStack| > 0 && nCcalls > 0
      modifies `nCcalls, `goStack, `mode
      ensures Now() == HostReentryUnwound(old(Now()))
    {
      nCcalls := nCcalls - 1;
      goStack := goStack[..|goStack| - 1];
      mode := Handed(goStack, mode.sig);
    }

    /** A coroutine that calls yield, by CALL or by TAILCALL, is suspended two callers up, with a point that
        names its top frame, the call's result slot and count, and the loop its next resume goes on in. */
    method YieldArrives() returns (ghost p: Point)
      requires Valid() && RunsHost(Now()) && CalledByBody(goStack)
      modifies `cos, `threads, `runningThread, `threadChain, `nCcalls, `goStack, `mode
      ensures Valid() && mode == Runs && goStack == old(goStack[..|goStack| - 2])
      ensures var id, th := old(goStack[|goStack| - 2].id), old(runningThread);
        && Lives(cos, id) && cos[id].value.th == th && cos[id].value.status == Suspended && cos[id].value.started
        && th in old(threads) && th in threads && threads[th] == Thread(old(threads[runningThread].frames), Some(p))
      ensures var site := old(goStack[|goStack| - 1].site);
        p == Point(|old(threads[runningThread].frames)| - 1, site.dst, if site.CallInstr? then site.nresults else -1, 0)
    {
      hide Core, Behind, SuspendedKept;
      YieldingCo(Now());
      ghost var id := goStack[|goStack| - 2].id;
      ghost var h := Handle(cos[id].value.ref, id);
      var r := Yield();
      Unwind();
      AtResume(Now());
      p := threads[runningThread].pending.value;
      Unwind();
      assert StatusOf(h) == Suspended;
    }

    /** The collector drops the records of unreached coroutines; running and normal ones are rooted. */
    method Release(unreached: set<nat>)
      requires Valid() && SparesRooted(cos, unreached)
      modifies `cos, `free
      ensures Valid() && DeadStays()
      ensures forall g: Handle :: StatusOf(g) == if g.ref in unreached then Dead else old(StatusOf(g))
      ensures SuspendedKept(old(Now()), Now()) && Now() == Collected(old(Now()), unreached)
    {
      hide Ok, SuspendedKept;
      var i := 0;
      while i < |cos|
        invariant 0 <= i <= |cos| == old(|cos|) && Valid()
        invariant free == old(free) + DroppedIds(old(cos), unreached, i)
        invariant forall j: nat :: i <= j < |cos| ==> cos[j] == old(cos[j])
        invariant forall j: nat :: j < i ==>
          cos[j] == if old(cos[j]).Some? && old(cos[j]).value.ref in unreached then None else old(cos[j])
      {
        if cos[i].Some? && cos[i].value.ref in unreached {
          assert Lives(old(cos), i);
          ReleaseOk(Now(), i);
          cos := cos[i := None];
          free := free + [i];
        }
        i := i + 1;
      }
      FewerKept(old(Now()), Now());
      assert cos == Collected(old(Now()), unreached).cos;
    }
  }

  /** The depth of the innermost entry frame, looked for from the top. */
  method EntryDepthOf(frames: seq<bool>) returns (d: nat)
    ensures d == InnermostEntry(frames)
  {
    var i := |frames|;
    assert frames[..i] == frames;
    while i > 0
      invariant 0 <= i <= |frames| && EntryFrames(frames) == EntryFrames(frames[..i])
    {
      assert frames[..i][..i - 1] == frames[..i - 1];
      if frames[i - 1] {
        return i - 1;
      }
      i := i - 1;
    }
    return 0;
  }

  lemma FreeIdThere(v: View)
    requires Ok(v)
    ensures |v.free| > 0 ==> v.free[|v.free| - 1] < |v.cos|
  {
    if |v.free| > 0 { assert v.free[|v.free| - 1] in v.free; }
  }

  /** The sentinel at its resume: the point is recorded. */
  lemma AtResume(v: View)
    requires Ok(v) && v.mode == Unwinds(Sentinel) && InnermostResumed(v.acts)
    ensures v.running in v.threads && Waits(v.threads[v.running])
  {
  }
}
