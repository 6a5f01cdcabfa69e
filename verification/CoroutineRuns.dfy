/** Every nesting of calls, resumes, yields, returns and errors. */
module CoroutineRuns {
  import opened CoroutineStates
  import opened CoroutineSteps
  import opened Coroutines

  /** `Finish` is the return of the host function that runs, `Unwind` a signal going one caller up. */
  datatype Event =
    | Create(isLuaFunction: bool)
    | Call(h: Handle, startFails: bool)
    | YieldNow
    | Finish
    | CallHost(site: Site)
    | CallLua
    | Return
    | Reenter(lua: bool, fails: bool)
    | Raise
    | Unwind
    | Collect(unreached: set<nat>)

  /** Which code runs decides what can come next. */
  predicate Enabled(v: View, e: Event) {
    match e
    case Create(_) => RunsHost(v)
    case Call(_, _) => RunsHost(v)
    case YieldNow => RunsHost(v) && |v.acts| > 0
    case Finish => RunsHost(v) && |v.acts| > 0
    case CallHost(site) => RunsLua(v) && !site.FromHost?
    case CallLua => RunsLua(v)
    case Return => RunsLua(v)
    case Reenter(_, _) => v.mode == Runs
    case Raise => v.mode == Runs && |v.acts| > 0
    case Unwind => v.mode.Unwinds?
    case Collect(unreached) => v.mode == Runs && SparesRooted(v.cos, unreached)
  }

  ghost function StartedIn(cos: Registry, h: Handle): bool {
    CoIn(cos, h).Some? && cos[h.id].value.started
  }

  /** The frame that returns is the one the coroutine's loop entered at. */
  ghost predicate EndsCoroutine(v: View) {
    InnermostResumed(v.acts) && v.running in v.threads
      && |v.threads[v.running].frames| - 1 <= LoopEntry(v.acts[|v.acts| - 1])
  }

  /** What an event answers. */
  ghost function Answer(v: View, e: Event): Outcome {
    if e.Call? then
      var s := StatusIn(v.cos, e.h);
      if s == Dead then ResumeDead else if s == Running || s == Normal then ResumeBusy(s)
      else if v.nCcalls >= 200 then COverflow
      else if e.startFails && !StartedIn(v.cos, e.h) then EnterFailed else Done
    else if e.Reenter? then
      if v.nCcalls == 199 then COverflow else if v.nCcalls >= 224 then ErrErr
      else if e.lua && e.fails then EnterFailed else Done
    else if e.YieldNow? then (if CalledByBody(v.acts) then Done else YieldBoundary)
    else Done
  }

  /** The state of a coroutine after an event: section 2.11 of the manual, with the failed starts and
      collections it leaves open. Yield itself changes no state; the signal does when it arrives. */
  ghost function StatusAfter(v: View, e: Event, g: Handle): Status {
    if e.Call? then
      var a := Answer(v, e);
      ResumedStatus(v, e.h, a == Done, a == EnterFailed || (a == COverflow && !StartedIn(v.cos, e.h)), g)
    else if e.Return? then LeftStatus(v, if EndsCoroutine(v) then Some(Dead) else None, g)
    else if e.Unwind? then LeftStatus(v, Fate(v.acts, v.mode), g)
    else if e.Collect? && g.ref in e.unreached then Dead
    else StatusIn(v.cos, g)
  }

  /** The one machine an event leads to. */
  ghost predicate Becomes(v: View, e: Event, w: View) {
    match e
    case Create(isLuaFunction) => if isLuaFunction then CreatedAs(v, w) else w == v
    case Call(h, _) => ResumedAs(v, h, Answer(v, e), w)
    case YieldNow => w == if CalledByBody(v.acts) then InMode(v, Unwinds(Sentinel)) else v
    case Finish =>
      && |v.acts| > 0 && v.nCcalls >= (if Counts(v.acts[|v.acts| - 1]) then 1 else 0)
      && w == Popped(v)
    case CallHost(site) => w == Pushed(v, HostFn(site))
    case CallLua => v.running in v.threads && w == Framed(v, false)
    case Return => ReturnedAs(v, w)
    case Reenter(lua, _) => ReenteredAs(v, lua, Answer(v, e), w)
    case Raise => w == InMode(v, Unwinds(Error))
    case Unwind => UnwoundAs(v, w)
    case Collect(unreached) => w == Collected(v, unreached)
  }

  /** One event: the machine it leads to, its outcome, everybody's state afterwards, and that coroutines
      which stay suspended keep their frames and their point, for a resume to go on from. */
  ghost predicate Stepped(v: View, e: Event, o: Option<Outcome>, w: View) {
    if !Enabled(v, e) then o == None && w == v
    else
      && o == Some(Answer(v, e)) && Becomes(v, e, w)
      && v.nextRef <= w.nextRef
      && (forall g: Handle :: g.ref < v.nextRef ==> StatusIn(w.cos, g) == StatusAfter(v, e, g))
      && SuspendedKept(v, w)
      && (e.Create? && e.isLuaFunction ==>
            exists g: Handle :: g.ref == v.nextRef && StatusIn(w.cos, g) == Suspended && StatusIn(v.cos, g) == Dead)
      && (e.Call? && o == Some(Done) && StartedIn(v.cos, e.h) ==> GoesOn(v, e.h.id, w))
  }

  method Step(m: Machine, e: Event) returns (o: Option<Outcome>)
    requires m.Valid()
    modifies m
    ensures m.Valid() && Stepped(old(m.Now()), e, o, m.Now())
  {
    hide Ok, Stepped, Enabled;
    if !Enabled(m.Now(), e) {
      Skipped(m.Now(), e);
      return None;
    }
    if e.Create? || e.Call? || e.Return? || e.Unwind? || e.Collect? {
      o := StateStep(m, e);
    } else {
      o := QuietStep(m, e);
    }
  }

  lemma Skipped(v: View, e: Event)
    requires !Enabled(v, e)
    ensures Stepped(v, e, None, v)
  {
  }

  /** Events that change coroutines' states. */
  method StateStep(m: Machine, e: Event) returns (o: Option<Outcome>)
    requires m.Valid() && Enabled(m.Now(), e) && (e.Create? || e.Call? || e.Return? || e.Unwind? || e.Collect?)
    modifies m
    ensures m.Valid() && Stepped(old(m.Now()), e, o, m.Now())
  {
    hide Ok, SuspendedKept, GoesOn, SparesRooted, LeftStatus, ResumedStatus, Stepped;
    hide CreatedAs, ResumedAs, ReturnedAs, UnwoundAs, Collected;
    ghost var v := m.Now();
    o := Some(Done);
    if e.Create? {
      var h := m.NewCoroutine(e.isLuaFunction);
      ghost var g := if h.Some? then h.value else Handle(0, 0);
      CreateStep(v, e, m.Now(), g);
      return;
    } else if e.Call? {
      var r := m.Resume(e.h, e.startFails);
      o := Some(r);
      assert r == Answer(v, e);
      assert forall g: Handle :: m.StatusOf(g) == StatusAfter(v, e, g);
    } else if e.Return? {
      var ended := m.Return();
      assert ended && InnermostResumed(v.acts) <==> EndsCoroutine(v);
      assert forall g: Handle :: m.StatusOf(g) == StatusAfter(v, e, g);
    } else if e.Unwind? {
      m.Unwind();
      assert forall g: Handle :: m.StatusOf(g) == LeftStatus(v, Fate(v.acts, v.mode), g);
      assert forall g: Handle :: m.StatusOf(g) == StatusAfter(v, e, g);
    } else {
      m.Release(e.unreached);
      assert forall g: Handle :: StatusIn(m.Now().cos, g) == StatusAfter(v, e, g);
    }
    StateOk(v, e, o, m.Now());
  }

  lemma CreateStep(v: View, e: Event, w: View, h: Handle)
    requires Enabled(v, e) && e.Create? && v.nextRef <= w.nextRef && SuspendedKept(v, w) && Becomes(v, e, w)
    requires forall g: Handle :: g.ref < v.nextRef ==> StatusIn(w.cos, g) == StatusIn(v.cos, g)
    requires e.isLuaFunction ==> h.ref == v.nextRef && StatusIn(w.cos, h) == Suspended && StatusIn(v.cos, h) == Dead
    ensures Stepped(v, e, Some(Done), w)
  {
    hide Enabled, SuspendedKept, Becomes;
  }

  lemma StateOk(v: View, e: Event, o: Option<Outcome>, w: View)
    requires Enabled(v, e) && (e.Call? || e.Return? || e.Unwind? || e.Collect?)
    requires o == Some(Answer(v, e)) && Becomes(v, e, w) && v.nextRef <= w.nextRef && SuspendedKept(v, w)
    requires forall g: Handle :: g.ref < v.nextRef ==> StatusIn(w.cos, g) == StatusAfter(v, e, g)
    requires e.Call? && o == Some(Done) && StartedIn(v.cos, e.h) ==> GoesOn(v, e.h.id, w)
    ensures Stepped(v, e, o, w)
  {
    hide Enabled, SuspendedKept, GoesOn, Becomes;
  }

  /** Events that change none. */
  method QuietStep(m: Machine, e: Event) returns (o: Option<Outcome>)
    requires m.Valid() && Enabled(m.Now(), e) && !(e.Create? || e.Call? || e.Return? || e.Unwind? || e.Collect?)
    modifies m
    ensures m.Valid() && Stepped(old(m.Now()), e, o, m.Now())
  {
    hide Ok, SuspendedKept, GoesOn, SparesRooted, CalledByBody, StatusIn, Stepped, ReenteredAs;
    ghost var v := m.Now();
    RunningThread(v);
    o := Some(Done);
    if e.YieldNow? {
      var r := m.Yield();
      o := Some(r);
    } else if e.Finish? {
      m.HostReturn();
    } else if e.CallHost? {
      m.Invoke(e.site);
    } else if e.CallLua? {
      m.CallLua();
    } else if e.Reenter? {
      var r := m.Reenter(e.lua, e.fails);
      o := Some(r);
    } else {
      m.Raise();
    }
    RunningKept(v, m.Now());
    QuietOk(v, e, o, m.Now());
  }

  lemma QuietOk(v: View, e: Event, o: Option<Outcome>, w: View)
    requires Enabled(v, e) && !(e.Create? || e.Call? || e.Return? || e.Unwind? || e.Collect?)
    requires o == Some(Answer(v, e)) && Becomes(v, e, w)
    requires w.cos == v.cos && w.nextRef == v.nextRef && SuspendedKept(v, w)
    ensures Stepped(v, e, o, w)
  {
    hide Enabled, SuspendedKept, Answer, Becomes;
  }

  // ---- runs ----

  /** From a yield to two callers up: the coroutine whose body called it is suspended, its frames as they
      were, and its point names the top frame, the call's result slot and count, and the body's loop. */
  ghost predicate SuspendedAt(v: View, w: View) {
    && CalledByBody(v.acts) && v.running in v.threads && v.running in w.threads
    && var site, id, t := v.acts[|v.acts| - 1].site, v.acts[|v.acts| - 2].id, v.threads[v.running];
    && w.mode == Runs && w.acts == v.acts[..|v.acts| - 2]
    && Lives(v.cos, id) && Lives(w.cos, id) && w.cos[id].value == v.cos[id].value.(status := Suspended)
    && w.cos[id].value.th == v.running && w.cos[id].value.started
    && w.threads[v.running] ==
       Thread(t.frames, Some(Point(|t.frames| - 1, site.dst, if site.CallInstr? then site.nresults else -1, 0)))
  }

  lemma YieldSuspends(v: View, w: View, x: View, y: View)
    requires Ok(v) && Ok(x) && v.mode == Runs && CalledByBody(v.acts)
    requires w == InMode(v, Unwinds(Sentinel)) && UnwoundAs(w, x) && UnwoundAs(x, y)
    ensures SuspendedAt(v, y)
  {
    YieldingCo(v);
    AtResume(x);
    InnermostFacts(x, v.acts[|v.acts| - 2].id);
    hide Core, Points;
    assert x.acts == v.acts[..|v.acts| - 1] && y.acts == x.acts[..|x.acts| - 1];
    assert x.threads[v.running].pending.value.entryDepth == 0;
  }

  /** The yields of a run that are granted and get through. */
  ghost predicate YieldsArrive(views: seq<View>, events: seq<Event>, outcomes: seq<Option<Outcome>>)
    requires |views| == |events| + 1 && |outcomes| == |events|
  {
    forall k {:trigger events[k]} :: 0 <= k < |events| - 2 && events[k].YieldNow? && outcomes[k] == Some(Done) ==>
      events[k + 1].Unwind? && events[k + 2].Unwind? ==> SuspendedAt(views[k], views[k + 3])
  }

  lemma AllYieldsArrive(views: seq<View>, events: seq<Event>, outcomes: seq<Option<Outcome>>)
    requires |views| == |events| + 1 && |outcomes| == |events|
    requires forall k :: 0 <= k <= |events| ==> Ok(views[k])
    requires forall k :: 0 <= k < |events| ==> Stepped(views[k], events[k], outcomes[k], views[k + 1])
    ensures YieldsArrive(views, events, outcomes)
  {
    hide Ok, Stepped, SuspendedAt;
    forall k {:trigger events[k]} | 0 <= k < |events| - 2 && events[k].YieldNow? && outcomes[k] == Some(Done)
      && events[k + 1].Unwind? && events[k + 2].Unwind?
      ensures SuspendedAt(views[k], views[k + 3])
    {
      YieldGranted(views[k], events[k], outcomes[k], views[k + 1]);
      UnwindTaken(views[k + 1], events[k + 1], outcomes[k + 1], views[k + 2]);
      YieldOnItsWay(views[k], views[k + 1], views[k + 2]);
      UnwindTaken(views[k + 2], events[k + 2], outcomes[k + 2], views[k + 3]);
      YieldSuspends(views[k], views[k + 1], views[k + 2], views[k + 3]);
    }
  }

  lemma YieldGranted(v: View, e: Event, o: Option<Outcome>, w: View)
    requires Stepped(v, e, o, w) && e.YieldNow? && o == Some(Done)
    ensures v.mode == Runs && CalledByBody(v.acts) && w == InMode(v, Unwinds(Sentinel))
  {
    hide SuspendedKept, CalledByBody;
  }

  lemma UnwindTaken(v: View, e: Event, o: Option<Outcome>, w: View)
    requires Stepped(v, e, o, w) && e.Unwind? && v.mode.Unwinds?
    ensures UnwoundAs(v, w)
  {
    hide SuspendedKept, UnwoundAs;
  }

  lemma YieldOnItsWay(v: View, w: View, x: View)
    requires w == InMode(v, Unwinds(Sentinel)) && CalledByBody(v.acts) && UnwoundAs(w, x)
    ensures x.mode == Unwinds(Sentinel)
  {
  }

  /** Any sequence of events, through `views`; what cannot come next is skipped. Every event leads to the
      one machine it must. No resume finds its coroutine without a recorded point, a yield that gets through
      leaves its coroutine suspended with a point that names its top frame, nothing dead comes back, and in
      every state the resume chain, the statuses, the C-call depth, the frames and the points agree. */
  method Run(m: Machine, events: seq<Event>) returns (outcomes: seq<Option<Outcome>>, ghost views: seq<View>)
    requires m.Valid()
    modifies m
    ensures m.Valid() && |outcomes| == |events| && Some(NoYieldPoint) !in outcomes
    ensures |views| == |events| + 1 && views[0] == old(m.Now()) && views[|events|] == m.Now()
    ensures forall k :: 0 <= k <= |events| ==> Ok(views[k])
    ensures forall k :: 0 <= k < |events| ==> Stepped(views[k], events[k], outcomes[k], views[k + 1])
    ensures YieldsArrive(views, events, outcomes)
    ensures old(m.nCcalls) <= 224 ==> forall k :: 0 <= k <= |events| ==> views[k].nCcalls <= 224
    ensures forall h: Handle :: h.ref < old(m.nextRef) && old(m.StatusOf(h)) == Dead ==> m.StatusOf(h) == Dead
  {
    hide Ok, Stepped, YieldsArrive;
    outcomes, views := [], [m.Now()];
    var k := 0;
    while k < |events|
      invariant 0 <= k <= |events| && m.Valid() && |outcomes| == k && Some(NoYieldPoint) !in outcomes
      invariant |views| == k + 1 && views[0] == old(m.Now()) && views[k] == m.Now()
      invariant forall j :: 0 <= j <= k ==> Ok(views[j])
      invariant forall j :: 0 <= j < k ==> Stepped(views[j], events[j], outcomes[j], views[j + 1])
      invariant old(m.nextRef) <= m.nextRef
      invariant old(m.nCcalls) <= 224 ==> forall j :: 0 <= j <= k ==> views[j].nCcalls <= 224
      invariant forall h: Handle :: h.ref < old(m.nextRef) && old(m.StatusOf(h)) == Dead ==> m.StatusOf(h) == Dead
    {
      ghost var v := m.Now();
      var o := Step(m, events[k]);
      StepFacts(v, events[k], o, m.Now());
      DepthStep(v, events[k], o, m.Now());
      outcomes, views := outcomes + [o], views + [m.Now()];
      k := k + 1;
    }
    AllYieldsArrive(views, events, outcomes);
  }

  /** A coroutine suspended after i events, not resumed until event j resumes it, goes on at the point and
      with the frames it had after i, whatever ran in between. */
  lemma {:induction false} ResumesWhereItYielded(views: seq<View>, events: seq<Event>, outcomes: seq<Option<Outcome>>,
                                                 i: nat, j: nat, h: Handle)
    requires |views| == |events| + 1 && |outcomes| == |events| && i <= j < |events|
    requires forall k :: 0 <= k <= |events| ==> Ok(views[k])
    requires forall k :: 0 <= k < |events| ==> Stepped(views[k], events[k], outcomes[k], views[k + 1])
    requires h.ref < views[i].nextRef && StatusIn(views[i].cos, h) == Suspended && StartedIn(views[i].cos, h)
    requires forall k :: i <= k < j ==> !(events[k].Call? && events[k].h == h)
    requires events[j].Call? && events[j].h == h && outcomes[j] == Some(Done)
    ensures GoesOn(views[i], h.id, views[j + 1])
    decreases j - i
  {
    hide Ok, Stepped, GoesOn, StatusIn, StartedIn, StaysSuspended;
    ResumeGranted(views[j], events[j], outcomes[j], views[j + 1]);
    if i < j {
      StepOf(views[i], events[i], outcomes[i], views[i + 1], h);
      if StatusIn(views[i + 1].cos, h) == Dead {
        DeadFrom(views, events, outcomes, i + 1, j, h);
      }
      ResumesWhereItYielded(views, events, outcomes, i + 1, j, h);
      GoesOnBefore(views[i], views[i + 1], h.id, views[j + 1]);
    }
  }

  lemma ResumeGranted(v: View, e: Event, o: Option<Outcome>, w: View)
    requires Stepped(v, e, o, w) && e.Call? && o == Some(Done)
    ensures StatusIn(v.cos, e.h) == Suspended && (StartedIn(v.cos, e.h) ==> GoesOn(v, e.h.id, w))
  {
    hide SuspendedKept, GoesOn, Becomes;
  }

  /** What is not resumed stays suspended, with all it needs, or dies. */
  lemma StepOf(v: View, e: Event, o: Option<Outcome>, w: View, h: Handle)
    requires Ok(v) && Stepped(v, e, o, w) && h.ref < v.nextRef && StatusIn(v.cos, h) == Suspended && StartedIn(v.cos, h)
    requires !(e.Call? && e.h == h)
    ensures h.ref < w.nextRef && (StatusIn(w.cos, h) == Suspended || StatusIn(w.cos, h) == Dead)
    ensures StatusIn(w.cos, h) == Suspended ==>
      StartedIn(w.cos, h) && StaysSuspended(v, w, h.id) && KeptThread(v, w, h.id)
  {
    hide Points, GoesOn, Becomes, EndsCoroutine;
    if InnermostResumed(v.acts) {
      WaitingIsNormal(v, v.acts[|v.acts| - 1].id);
    }
    ThreadThere(v, h.id);
    hide Core;
    if StatusIn(w.cos, h) == Suspended {
      assert StaysSuspended(v, w, h.id);
    }
  }

  ghost predicate KeptThread(v: View, w: View, id: nat) {
    && Lives(v.cos, id) && Lives(w.cos, id) && w.cos[id].value.th == v.cos[id].value.th
    && v.cos[id].value.th in v.threads && v.cos[id].value.th in w.threads
    && w.threads[v.cos[id].value.th] == v.threads[v.cos[id].value.th]
  }

  lemma ThreadThere(v: View, id: nat)
    requires Ok(v)
    ensures Lives(v.cos, id) ==> v.cos[id].value.th in v.threads
  {
  }

  lemma GoesOnBefore(v: View, w: View, id: nat, x: View)
    requires KeptThread(v, w, id) && GoesOn(w, id, x)
    ensures GoesOn(v, id, x)
  {
  }

  lemma {:induction false} DeadFrom(views: seq<View>, events: seq<Event>, outcomes: seq<Option<Outcome>>,
                                    i: nat, j: nat, h: Handle)
    requires |views| == |events| + 1 && |outcomes| == |events| && i <= j <= |events|
    requires forall k :: 0 <= k <= |events| ==> Ok(views[k])
    requires forall k :: 0 <= k < |events| ==> Stepped(views[k], events[k], outcomes[k], views[k + 1])
    requires h.ref < views[i].nextRef && StatusIn(views[i].cos, h) == Dead
    ensures StatusIn(views[j].cos, h) == Dead
    decreases j - i
  {
    hide Ok, Stepped, StatusIn;
    if i < j {
      StepFacts(views[i], events[i], outcomes[i], views[i + 1]);
      DeadFrom(views, events, outcomes, i + 1, j, h);
    }
  }

  /** No event gets past a C-call depth of 224. */
  lemma DepthStep(v: View, e: Event, o: Option<Outcome>, w: View)
    requires Stepped(v, e, o, w)
    ensures v.nCcalls <= 224 ==> w.nCcalls <= 224
  {
    hide SuspendedKept, GoesOn, Core, Points, StatusAfter, EndsCoroutine, Waits, ChainOf;
  }

  /** The depth is the number of resumes, re-entries and host functions called by host code that are under
      way. */
  lemma DepthIsCount(v: View)
    requires Ok(v)
    ensures v.nCcalls == |CountedIn(v.acts)|
  {
    CountIs(v.acts);
  }

  ghost function CountedIn(acts: seq<Activation>): set<nat> {
    set j: nat | j < |acts| && (acts[j].Resumed? || acts[j].Reentry? || acts[j] == HostFn(FromHost))
  }

  lemma {:induction false} CountIs(acts: seq<Activation>)
    ensures CDepth(acts) == |CountedIn(acts)|
    decreases |acts|
  {
    if acts != [] {
      var n := |acts| - 1;
      CountIs(acts[..n]);
      assert CountedIn(acts) == CountedIn(acts[..n]) + if Counts(acts[n]) then {n} else {};
    }
  }

  lemma StepFacts(v: View, e: Event, o: Option<Outcome>, w: View)
    requires Ok(v) && Stepped(v, e, o, w)
    ensures o != Some(NoYieldPoint) && v.nextRef <= w.nextRef
    ensures forall g: Handle :: g.ref < v.nextRef && StatusIn(v.cos, g) == Dead ==> StatusIn(w.cos, g) == Dead
  {
    hide Points, SuspendedKept, GoesOn;
    if InnermostResumed(v.acts) {
      WaitingIsNormal(v, v.acts[|v.acts| - 1].id);
    }
  }

  /** The states the manual names: at most one coroutine runs and it owns the running thread; the
      normal ones are those on the resume chain below it; a suspended one that has started waits at a
      recorded point that names its top frame. */
  lemma StatesAsDescribed(v: View)
    requires Ok(v)
    ensures forall i, j ::
      Lives(v.cos, i) && Lives(v.cos, j) && v.cos[i].value.status == Running && v.cos[j].value.status == Running ==>
        i == j
    ensures forall i :: Lives(v.cos, i) && v.cos[i].value.status == Running ==> v.running == v.cos[i].value.th
    ensures (forall i: nat :: Lives(v.cos, i) ==> v.cos[i].value.status != Running) ==> v.running == MAIN_THREAD
    ensures forall i: nat :: Lives(v.cos, i) ==>
      (v.cos[i].value.status == Normal <==> v.cos[i].value.th in v.threadChain)
    ensures forall i :: Lives(v.cos, i) && v.cos[i].value.status == Suspended && v.cos[i].value.started ==>
      v.cos[i].value.th in v.threads && Waits(v.threads[v.cos[i].value.th])
  {
    var chain := ChainOf(v.acts);
    RunnerThere(v);
    forall i | Lives(v.cos, i) && v.cos[i].value.status == Running ensures InnermostId(chain) == Some(i) {
      OnlyRunning(v, i);
    }
    forall i: nat | Lives(v.cos, i) ensures v.cos[i].value.status == Normal <==> v.cos[i].value.th in v.threadChain {
      NormalOnChain(v, i);
    }
    forall i | Lives(v.cos, i) && v.cos[i].value.status == Suspended && v.cos[i].value.started
      ensures v.cos[i].value.th in v.threads && Waits(v.threads[v.cos[i].value.th])
    {
      SuspendedThread(v, i);
    }
    hide Points;
  }

  lemma NormalOnChain(v: View, i: nat)
    requires Ok(v) && Lives(v.cos, i)
    ensures v.cos[i].value.status == Normal <==> v.cos[i].value.th in v.threadChain
  {
    hide Points;
    var chain := ChainOf(v.acts);
    if v.cos[i].value.status == Normal {
      assert i in chain;
      var k :| 0 <= k < |chain| && chain[k] == i;
      assert v.threadChain[k + 1] == v.cos[i].value.th;
    }
    if v.cos[i].value.th in v.threadChain {
      var k :| 0 <= k < |chain| && v.threadChain[k] == v.cos[i].value.th;
      assert k > 0 && Lives(v.cos, chain[k - 1]);
      assert chain[k - 1] == i;
    }
  }
}
