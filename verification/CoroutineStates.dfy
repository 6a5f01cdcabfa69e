/** Coroutines, their threads and the Go stack: what every state of the machine keeps
    (internal/crescent/coroutine.go, internal/crescent/call.go:46-106, 158-173,
    internal/crescent/meta.go:309-410; section 2.11 of the Lua 5.1 Reference Manual). */
module CoroutineStates {

  datatype Option<T> = None | Some(value: T)

  datatype Status = Suspended | Running | Normal | Dead

  /** A coroutine's record. */
  datatype Co = Co(ref: nat, th: nat, status: Status, started: bool, baseCcalls: nat)

  /** Where a yield is to be resumed: the frame of the call that yielded, the slot and number of its
      results (-1 for all), and the depth of the loop that runs it. */
  datatype Point = Point(ciIndex: int, dst: nat, nresults: int, entryDepth: nat)

  /** A thread's frames, of which only the entry mark counts here, and its recorded resume point. */
  datatype Thread = Thread(frames: seq<bool>, pending: Option<Point>)

  /** What a thread value carries: its object's address and the record's index. */
  datatype Handle = Handle(ref: nat, id: nat)

  /** How a host function came to be called: by CALL or TAILCALL of the Lua function running, or from
      other host code through a re-entry. */
  datatype Site = CallInstr(dst: nat, nresults: int) | TailCallInstr(dst: nat) | FromHost

  /** The Go stack, as far as it matters: Resume waiting for the loop it started at frame `entry`, with
      what it restores; a re-entry waiting for the loop it started at frame `saved`; a host function. */
  datatype Activation =
    | Resumed(id: nat, resumer: Option<nat>, resumerTh: nat, entry: nat)
    | Reentry(saved: nat)
    | HostFn(site: Site)

  /** What a Go function returns instead of results. */
  datatype Signal = Sentinel | Error

  /** The innermost activation runs, or it has returned a signal its caller is yet to handle. */
  datatype Control = Runs | Unwinds(sig: Signal)

  type Registry = seq<Option<Co>>
  type Threads = map<nat, Thread>

  const MAX_C_CALLS: nat := 200
  const MAIN_THREAD: nat := 0

  // ---- frames and loops ----

  /** The entry frames, outermost first. */
  function EntryFrames(frames: seq<bool>): seq<nat> {
    if frames == [] then []
    else EntryFrames(frames[..|frames| - 1]) + if frames[|frames| - 1] then [|frames| - 1] else []
  }

  lemma {:induction false} EntryFramesBelow(frames: seq<bool>)
    ensures forall k :: 0 <= k < |EntryFrames(frames)| ==> EntryFrames(frames)[k] < |frames|
    decreases |frames|
  {
    if frames != [] { EntryFramesBelow(frames[..|frames| - 1]); }
  }

  lemma FramePushed(frames: seq<bool>, entry: bool)
    ensures EntryFrames(frames + [entry]) == EntryFrames(frames) + if entry then [|frames|] else []
  {
    assert (frames + [entry])[..|frames|] == frames;
  }

  /** Cutting the frames from an entry frame on. */
  lemma {:induction false} FramesCut(frames: seq<bool>, k: nat)
    requires |EntryFrames(frames)| > 0 && k == EntryFrames(frames)[|EntryFrames(frames)| - 1]
    ensures k < |frames| && frames[k]
    ensures EntryFrames(frames[..k]) == EntryFrames(frames)[..|EntryFrames(frames)| - 1]
    decreases |frames|
  {
    var n := |frames| - 1;
    EntryFramesBelow(frames);
    if frames[n] {
      assert k == n;
    } else {
      FramesCut(frames[..n], k);
      assert frames[..n][..k] == frames[..k];
    }
  }

  /** The loops on the running thread, outermost first, by the frame they entered at. */
  function LoopsOf(acts: seq<Activation>): seq<nat> {
    if acts == [] then []
    else
      var a, below := acts[|acts| - 1], acts[..|acts| - 1];
      if a.Resumed? then [a.entry] else if a.Reentry? then LoopsOf(below) + [a.saved] else LoopsOf(below)
  }

  lemma LoopsPushed(acts: seq<Activation>, a: Activation)
    ensures LoopsOf(acts + [a]) ==
      if a.Resumed? then [a.entry] else if a.Reentry? then LoopsOf(acts) + [a.saved] else LoopsOf(acts)
  {
    assert (acts + [a])[..|acts|] == acts;
  }

  // ---- the Go stack ----

  predicate IsLoop(a: Activation) {
    a.Resumed? || a.Reentry?
  }

  /** Resumes and re-entries count as C calls, a host function called by an instruction does not. */
  predicate Counts(a: Activation) {
    a.HostFn? ==> a.site.FromHost?
  }

  function CDepth(acts: seq<Activation>): nat {
    if acts == [] then 0 else CDepth(acts[..|acts| - 1]) + if Counts(acts[|acts| - 1]) then 1 else 0
  }

  lemma CDepthPushed(acts: seq<Activation>, a: Activation)
    ensures CDepth(acts + [a]) == CDepth(acts) + if Counts(a) then 1 else 0
  {
    assert (acts + [a])[..|acts|] == acts;
  }

  /** Instructions are run by loops, and Resume is called by a host function. */
  ghost predicate WellStacked(acts: seq<Activation>) {
    && (forall j :: 0 <= j < |acts| && !Counts(acts[j]) ==> j > 0 && IsLoop(acts[j - 1]))
    && (forall j :: 0 < j < |acts| && acts[j].Resumed? ==> acts[j - 1].HostFn?)
    && (forall j :: 0 <= j < |acts| && acts[j].Resumed? ==> acts[j].entry == 0)
  }

  /** The coroutines being resumed, outermost first. */
  ghost function ChainOf(acts: seq<Activation>): seq<nat> {
    if acts == [] then []
    else
      var c, a := ChainOf(acts[..|acts| - 1]), acts[|acts| - 1];
      if a.Resumed? then c + [a.id] else c
  }

  predicate Lives(cos: Registry, id: int) {
    0 <= id < |cos| && cos[id].Some?
  }

  /** The thread that runs when the first k of the chain are being resumed. */
  ghost function ThreadAt(cos: Registry, chain: seq<nat>, k: nat): nat
    requires k <= |chain| && forall i {:trigger chain[i]} :: 0 <= i < |chain| ==> Lives(cos, chain[i])
  {
    if k == 0 then MAIN_THREAD else assert Lives(cos, chain[k - 1]); cos[chain[k - 1]].value.th
  }

  // ---- the resume chain ----

  /** Records have threads and objects of their own. */
  ghost predicate OwnThreads(cos: Registry, nextTh: nat, nextRef: nat) {
    && (forall i :: Lives(cos, i) ==> 0 < cos[i].value.th < nextTh && cos[i].value.ref < nextRef)
    && (forall i, j :: Lives(cos, i) && Lives(cos, j) && i != j ==>
          cos[i].value.th != cos[j].value.th && cos[i].value.ref != cos[j].value.ref)
  }

  /** The chain: all normal but the last, which runs. */
  ghost predicate ResumeChain(cos: Registry, chain: seq<nat>) {
    && (forall i, j :: 0 <= i < j < |chain| ==> chain[i] != chain[j])
    && (forall i :: 0 <= i < |chain| ==>
          && Lives(cos, chain[i]) && cos[chain[i]].value.started
          && cos[chain[i]].value.status == if i == |chain| - 1 then Running else Normal)
  }

  /** The rest is suspended or dead. */
  ghost predicate OffChain(cos: Registry, chain: seq<nat>) {
    forall i :: Lives(cos, i) && i !in chain ==> cos[i].value.status == Suspended || cos[i].value.status == Dead
  }

  /** What the activation at depth j will restore. */
  ghost predicate ActOk(cos: Registry, acts: seq<Activation>, j: nat)
    requires j < |acts|
  {
    acts[j].Resumed? ==>
      var c := ChainOf(acts[..j]);
      && Lives(cos, acts[j].id) && cos[acts[j].id].value.baseCcalls == CDepth(acts[..j]) + 1
      && (forall i {:trigger c[i]} :: 0 <= i < |c| ==> Lives(cos, c[i]))
      && acts[j].resumer == (if c == [] then None else Some(c[|c| - 1]))
      && acts[j].resumerTh == ThreadAt(cos, c, |c|)
  }

  ghost predicate ActsOk(cos: Registry, acts: seq<Activation>) {
    forall j: nat {:trigger ActOk(cos, acts, j)} :: j < |acts| ==> ActOk(cos, acts, j)
  }

  ghost predicate FreeIds(cos: Registry, free: seq<nat>) {
    && (forall i: nat :: i in free <==> i < |cos| && cos[i].None?)
    && (forall i, j :: 0 <= i < j < |free| ==> free[i] != free[j])
  }

  ghost predicate ChainThreads(cos: Registry, chain: seq<nat>, running: nat, threadChain: seq<nat>) {
    && (forall i {:trigger chain[i]} :: 0 <= i < |chain| ==> Lives(cos, chain[i]))
    && running == ThreadAt(cos, chain, |chain|)
    && |threadChain| == |chain|
    && forall k :: 0 <= k < |chain| ==> threadChain[k] == ThreadAt(cos, chain, k)
  }

  /** The record a thread value stands for. */
  function CoIn(cos: Registry, h: Handle): Option<nat> {
    if h.id < |cos| && cos[h.id].Some? && cos[h.id].value.ref == h.ref then Some(h.id) else None
  }

  function StatusIn(cos: Registry, h: Handle): Status {
    if CoIn(cos, h).None? then Dead else cos[h.id].value.status
  }

  datatype View = View(cos: Registry, free: seq<nat>, threads: Threads, running: nat, threadChain: seq<nat>,
                       nCcalls: nat, acts: seq<Activation>, mode: Control, nextTh: nat, nextRef: nat)

  /** Statuses, the resume chain and the C-call depth follow the Go stack. */
  ghost predicate Core(v: View) {
    var chain := ChainOf(v.acts);
    && v.nextTh > 0
    && OwnThreads(v.cos, v.nextTh, v.nextRef)
    && ResumeChain(v.cos, chain) && OffChain(v.cos, chain)
    && ChainThreads(v.cos, chain, v.running, v.threadChain)
    && ActsOk(v.cos, v.acts) && v.nCcalls == CDepth(v.acts)
    && FreeIds(v.cos, v.free)
  }

  // ---- resume points ----

  /** A thread left by a yield: its point names its top frame and the loop of its first frame, which is
      its only entry frame. */
  ghost predicate Waits(t: Thread) {
    && EntryFrames(t.frames) == [0]
    && t.pending.Some? && t.pending.value.ciIndex == |t.frames| - 1 && t.pending.value.entryDepth == 0
  }

  ghost predicate InnermostResumed(acts: seq<Activation>) {
    |acts| > 0 && acts[|acts| - 1].Resumed?
  }

  /** The host function running was called by an instruction of the loop a Resume started. */
  ghost predicate CalledByBody(acts: seq<Activation>) {
    |acts| >= 2 && acts[|acts| - 1].HostFn? && !acts[|acts| - 1].site.FromHost? && acts[|acts| - 2].Resumed?
  }

  /** Every thread that can go on has its frames as the loops on it need them, and a resume point
      recorded exactly when it is one the next resume will ask for. */
  ghost predicate ThreadsInOrder(v: View) {
    && MAIN_THREAD in v.threads && v.running in v.threads
    && (forall i :: Lives(v.cos, i) ==> v.cos[i].value.th in v.threads)
    && (forall i :: Lives(v.cos, i) && v.cos[i].value.status == Suspended ==>
          var t := v.threads[v.cos[i].value.th];
          if v.cos[i].value.started then Waits(t) else t == Thread([], None))
  }

  ghost predicate RunningInOrder(v: View) {
    && v.running in v.threads
    && EntryFrames(v.threads[v.running].frames) == LoopsOf(v.acts)
    && (if v.mode == Unwinds(Sentinel) && InnermostResumed(v.acts) then Waits(v.threads[v.running])
        else v.threads[v.running].pending == None)
  }

  /** The threads waiting below on the Go stack. */
  ghost predicate ResumersInOrder(threads: Threads, acts: seq<Activation>) {
    forall j {:trigger acts[j]} :: 0 <= j < |acts| && acts[j].Resumed? ==>
      && acts[j].resumerTh in threads
      && EntryFrames(threads[acts[j].resumerTh].frames) == LoopsOf(acts[..j])
      && threads[acts[j].resumerTh].pending == None
  }

  /** The sentinel is on its way from a yield to the resume below it, and nothing else is between. */
  ghost predicate SentinelOnItsWay(v: View) {
    && (v.mode.Unwinds? ==> v.acts != [])
    && (v.mode == Unwinds(Sentinel) ==> InnermostResumed(v.acts) || CalledByBody(v.acts))
  }

  /** All that is not about the running thread and the signal. */
  ghost predicate Behind(v: View) {
    WellStacked(v.acts) && ThreadsInOrder(v) && ResumersInOrder(v.threads, v.acts)
  }

  ghost predicate Points(v: View) {
    Behind(v) && RunningInOrder(v) && SentinelOnItsWay(v)
  }

  ghost predicate Ok(v: View) {
    Core(v) && Points(v)
  }

  lemma ChainPush(acts: seq<Activation>, a: Activation)
    ensures ChainOf(acts + [a]) == if a.Resumed? then ChainOf(acts) + [a.id] else ChainOf(acts)
  {
    assert (acts + [a])[..|acts|] == acts;
  }

  /** Records that keep thread and base calls keep what activations restore. */
  ghost predicate SameThreads(cos: Registry, cos': Registry, ids: seq<nat>) {
    forall id :: id in ids ==>
      && Lives(cos, id) && Lives(cos', id)
      && cos'[id].value.th == cos[id].value.th && cos'[id].value.baseCcalls == cos[id].value.baseCcalls
  }

  lemma {:induction false} ChainPrefix(acts: seq<Activation>, j: nat)
    requires j <= |acts|
    ensures forall id :: id in ChainOf(acts[..j]) ==> id in ChainOf(acts)
    ensures j < |acts| && acts[j].Resumed? ==> acts[j].id in ChainOf(acts)
    decreases |acts|
  {
    if j < |acts| {
      var init := acts[..|acts| - 1];
      assert acts == init + [acts[|acts| - 1]];
      ChainPush(init, acts[|acts| - 1]);
      ChainPrefix(init, j);
      assert acts[..j] == init[..j];
    } else {
      assert acts[..j] == acts;
    }
  }

  lemma ActsKept(cos: Registry, cos': Registry, acts: seq<Activation>)
    requires ActsOk(cos, acts) && SameThreads(cos, cos', ChainOf(acts))
    ensures ActsOk(cos', acts)
  {
    forall j: nat | j < |acts| ensures ActOk(cos', acts, j) {
      assert ActOk(cos, acts, j);
      ChainPrefix(acts, j);
      if acts[j].Resumed? {
        var c := ChainOf(acts[..j]);
        if c != [] { assert c[|c| - 1] in c; }
      }
    }
  }

  lemma ActsPush(cos: Registry, acts: seq<Activation>, a: Activation)
    requires ActsOk(cos, acts) && ActOk(cos, acts + [a], |acts|)
    ensures ActsOk(cos, acts + [a])
  {
    var acts' := acts + [a];
    forall j: nat | j < |acts'| ensures ActOk(cos, acts', j) {
      if j < |acts| {
        assert ActOk(cos, acts, j);
        assert acts'[..j] == acts[..j];
      }
    }
  }

  lemma ActsPop(cos: Registry, acts: seq<Activation>)
    requires ActsOk(cos, acts) && |acts| > 0
    ensures ActsOk(cos, acts[..|acts| - 1])
  {
    var acts' := acts[..|acts| - 1];
    forall j: nat | j < |acts'| ensures ActOk(cos, acts', j) {
      assert ActOk(cos, acts, j);
      assert acts'[..j] == acts[..j];
    }
  }

  ghost function InnermostId(chain: seq<nat>): Option<nat> {
    if chain == [] then None else Some(chain[|chain| - 1])
  }

  // ---- steps on the running thread ----

  function Pushed(v: View, a: Activation): View {
    v.(acts := v.acts + [a], nCcalls := v.nCcalls + if Counts(a) then 1 else 0)
  }

  /** The innermost activation, not a resume, is over. */
  function Popped(v: View): View
    requires |v.acts| > 0 && v.nCcalls >= if Counts(v.acts[|v.acts| - 1]) then 1 else 0
  {
    v.(acts := v.acts[..|v.acts| - 1], nCcalls := v.nCcalls - if Counts(v.acts[|v.acts| - 1]) then 1 else 0)
  }

  function WithThread(v: View, t: Thread): View {
    v.(threads := v.threads[v.running := t])
  }

  function InMode(v: View, m: Control): View {
    v.(mode := m)
  }

  lemma PushedCore(v: View, a: Activation)
    requires Core(v) && !a.Resumed?
    ensures Core(Pushed(v, a))
  {
    hide OwnThreads, ResumeChain, OffChain, FreeIds, ChainThreads;
    ChainPush(v.acts, a);
    CDepthPushed(v.acts, a);
    ActsPush(v.cos, v.acts, a);
  }

  lemma PoppedCore(v: View)
    requires Core(v) && |v.acts| > 0 && !v.acts[|v.acts| - 1].Resumed?
    ensures v.nCcalls >= (if Counts(v.acts[|v.acts| - 1]) then 1 else 0) && Core(Popped(v))
  {
    hide OwnThreads, ResumeChain, OffChain, FreeIds, ChainThreads;
    var n := |v.acts| - 1;
    assert v.acts == v.acts[..n] + [v.acts[n]];
    ChainPush(v.acts[..n], v.acts[n]);
    CDepthPushed(v.acts[..n], v.acts[n]);
    ActsPop(v.cos, v.acts);
  }

  lemma CoreOnly(v: View, t: Thread, m: Control)
    requires Core(v)
    ensures Core(WithThread(v, t)) && Core(InMode(v, m))
  {
    hide OwnThreads, ResumeChain, OffChain, FreeIds, ChainThreads, ActsOk;
  }

  /** The thread that runs is none of those waiting below, and none of a suspended coroutine's. */
  lemma ThreadsApart(v: View)
    requires Core(v)
    ensures forall j :: 0 <= j < |v.acts| && v.acts[j].Resumed? ==> v.acts[j].resumerTh != v.running
    ensures forall i :: Lives(v.cos, i) && i !in ChainOf(v.acts) ==> v.cos[i].value.th != v.running
    ensures forall i, j :: Lives(v.cos, i) && i !in ChainOf(v.acts) && 0 <= j < |v.acts| && v.acts[j].Resumed? ==>
      v.cos[i].value.th != v.acts[j].resumerTh
  {
    hide OffChain, FreeIds;
    var chain := ChainOf(v.acts);
    if chain != [] { assert chain[|chain| - 1] in chain && Lives(v.cos, chain[|chain| - 1]); }
    forall j | 0 <= j < |v.acts| && v.acts[j].Resumed?
      ensures v.acts[j].resumerTh != v.running
      ensures forall i :: Lives(v.cos, i) && i !in chain ==> v.cos[i].value.th != v.acts[j].resumerTh
    {
      assert ActOk(v.cos, v.acts, j);
      ChainPrefix(v.acts, j);
      ChainShorter(v.acts, j);
      var c := ChainOf(v.acts[..j]);
      if c != [] {
        assert c[|c| - 1] == chain[|c| - 1] && Lives(v.cos, chain[|c| - 1]);
      }
    }
  }

  lemma {:induction false} ChainShorter(acts: seq<Activation>, j: nat)
    requires j <= |acts|
    ensures ChainOf(acts[..j]) <= ChainOf(acts)
    ensures j < |acts| && acts[j].Resumed? ==> |ChainOf(acts[..j])| < |ChainOf(acts)|
    decreases |acts|
  {
    if j < |acts| {
      var init := acts[..|acts| - 1];
      assert acts == init + [acts[|acts| - 1]];
      ChainPush(init, acts[|acts| - 1]);
      ChainShorter(init, j);
      assert acts[..j] == init[..j];
    } else {
      assert acts[..j] == acts;
    }
  }

  lemma SuspendedOff(v: View, i: int)
    requires Core(v) && Lives(v.cos, i) && (v.cos[i].value.status == Suspended || v.cos[i].value.status == Dead)
    ensures i !in ChainOf(v.acts)
  {
    var chain := ChainOf(v.acts);
    forall k | 0 <= k < |chain| ensures chain[k] != i {
      assert Lives(v.cos, chain[k]);
    }
  }

  lemma BehindThread(v: View, t: Thread)
    requires Core(v) && Behind(v)
    ensures Behind(WithThread(v, t))
  {
    ThreadsApart(v);
    forall i | Lives(v.cos, i) && v.cos[i].value.status == Suspended ensures v.cos[i].value.th != v.running {
      SuspendedOff(v, i);
    }
    hide Core, WellStacked;
  }

  lemma BehindPushed(v: View, a: Activation)
    requires Behind(v) && !a.Resumed?
    requires !Counts(a) ==> |v.acts| > 0 && IsLoop(v.acts[|v.acts| - 1])
    ensures Behind(Pushed(v, a))
  {
    var w := Pushed(v, a);
    forall j {:trigger w.acts[j]} | 0 <= j < |w.acts| && w.acts[j].Resumed?
      ensures j < |v.acts| && w.acts[j] == v.acts[j] && w.acts[..j] == v.acts[..j]
    {
    }
  }

  lemma BehindPopped(v: View)
    requires Behind(v) && |v.acts| > 0 && v.nCcalls >= if Counts(v.acts[|v.acts| - 1]) then 1 else 0
    ensures Behind(Popped(v))
  {
    var w := Popped(v);
    forall j {:trigger w.acts[j]} | 0 <= j < |w.acts| && w.acts[j].Resumed?
      ensures w.acts[j] == v.acts[j] && w.acts[..j] == v.acts[..j]
    {
    }
  }

  // ---- entering and leaving a resume ----

  /** The registry when the coroutine that runs, if any, resumes `id`. */
  ghost function Entering(cos: Registry, resumer: Option<nat>, id: nat, base: nat): Registry
    requires Lives(cos, id) && (resumer.Some? ==> Lives(cos, resumer.value))
  {
    var c := cos[id := Some(cos[id].value.(status := Running, started := true, baseCcalls := base))];
    if resumer.Some? then c[resumer.value := Some(c[resumer.value].value.(status := Normal))] else c
  }

  ghost function EnteredView(v: View, id: nat, t: Thread, entry: nat): View
    requires Core(v) && Lives(v.cos, id)
  {
    var chain := ChainOf(v.acts);
    v.(cos := Entering(v.cos, InnermostId(chain), id, v.nCcalls + 1), running := v.cos[id].value.th,
       threads := v.threads[v.cos[id].value.th := t],
       threadChain := v.threadChain + [v.running], nCcalls := v.nCcalls + 1,
       acts := v.acts + [Resumed(id, InnermostId(chain), v.running, entry)])
  }

  /** Resuming a suspended coroutine keeps the machine in order. */
  lemma EnterCore(v: View, id: nat, t: Thread, entry: nat)
    requires Core(v) && Lives(v.cos, id) && v.cos[id].value.status == Suspended
    ensures Core(EnteredView(v, id, t, entry))
  {
    RunnerThere(v);
    hide ResumeChain, OffChain, OwnThreads, FreeIds, ChainThreads, ActOk, ActsOk, SameThreadIds, SameThreads, Entering;
    var chain := ChainOf(v.acts);
    var w := EnteredView(v, id, t, entry);
    ChainPush(v.acts, w.acts[|v.acts|]);
    CDepthPushed(v.acts, w.acts[|v.acts|]);
    EnterParts(v.cos, w.cos, chain, id, v.nCcalls + 1, v.nextTh, v.nextRef, v.free);
    assert w.acts[..|v.acts|] == v.acts;
    EnterThreads(v, w, id);
    ActsKept(v.cos, w.cos, v.acts);
    ActsPush(w.cos, v.acts, w.acts[|v.acts|]);
  }

  lemma EnterThreads(v: View, w: View, id: nat)
    requires Core(v) && Lives(v.cos, id) && SameThreadIds(v.cos, w.cos) && w.cos[id].value.baseCcalls == v.nCcalls + 1
    requires |w.acts| == |v.acts| + 1 && w.acts[..|v.acts|] == v.acts
    requires var a := w.acts[|v.acts|];
      a.Resumed? && a.id == id && a.resumer == InnermostId(ChainOf(v.acts)) && a.resumerTh == v.running
    requires w.running == v.cos[id].value.th && w.threadChain == v.threadChain + [v.running]
    ensures ChainThreads(w.cos, ChainOf(w.acts), w.running, w.threadChain) && ActOk(w.cos, w.acts, |v.acts|)
  {
    hide ResumeChain, OffChain, OwnThreads, FreeIds, ActsOk;
    var chain := ChainOf(v.acts);
    assert w.acts == v.acts + [w.acts[|v.acts|]];
    ChainPush(v.acts, w.acts[|v.acts|]);
    forall i | 0 <= i < |chain| ensures Lives(w.cos, chain[i]) { assert Lives(v.cos, chain[i]); }
    forall i | 0 <= i < |chain| + 1 ensures Lives(w.cos, (chain + [id])[i]) {
      if i < |chain| { assert Lives(v.cos, chain[i]); }
    }
  }

  lemma EnterParts(cos: Registry, cos': Registry, chain: seq<nat>, id: nat, base: nat, nextTh: nat, nextRef: nat,
                   free: seq<nat>)
    requires OwnThreads(cos, nextTh, nextRef) && ResumeChain(cos, chain) && OffChain(cos, chain) && FreeIds(cos, free)
    requires Lives(cos, id) && cos[id].value.status == Suspended
    requires var r := InnermostId(chain); (r.Some? ==> Lives(cos, r.value)) && cos' == Entering(cos, r, id, base)
    ensures OwnThreads(cos', nextTh, nextRef) && ResumeChain(cos', chain + [id]) && OffChain(cos', chain + [id])
    ensures FreeIds(cos', free) && SameThreadIds(cos, cos') && cos'[id].value.baseCcalls == base
    ensures SameThreads(cos, cos', chain)
  {
    assert SameThreadIds(cos, cos');
    assert OwnThreads(cos', nextTh, nextRef) && FreeIds(cos', free) by { hide ResumeChain, OffChain; }
    hide OwnThreads, FreeIds, SameThreadIds;
    forall i | 0 <= i < |chain| ensures chain[i] != id && Lives(cos, chain[i]) {
    }
    forall x | x in chain ensures x != id && Lives(cos, x) {
    }
    assert OffChain(cos', chain + [id]) by { hide ResumeChain; }
    hide OffChain;
  }

  /** Host code runs: Resume and Yield are host functions, or the embedding program calls. */
  predicate RunsHost(v: View) {
    v.mode == Runs && (v.acts == [] || v.acts[|v.acts| - 1].HostFn?)
  }

  predicate RunsLua(v: View) {
    v.mode == Runs && |v.acts| > 0 && IsLoop(v.acts[|v.acts| - 1])
  }

  /** The thread's first loop starts at its only entry frame. */
  lemma EnterPoints(v: View, id: nat, t: Thread)
    requires Ok(v) && RunsHost(v) && Lives(v.cos, id) && v.cos[id].value.status == Suspended
    requires EntryFrames(t.frames) == [0] && t.pending == None
    ensures Points(EnteredView(v, id, t, 0))
  {
    RunnerThere(v);
    EnterBehind(v, id, t);
    hide Core, Behind, Entering;
    LoopsPushed(v.acts, EnteredView(v, id, t, 0).acts[|v.acts|]);
  }

  lemma EnterBehind(v: View, id: nat, t: Thread)
    requires Ok(v) && RunsHost(v) && Lives(v.cos, id) && v.cos[id].value.status == Suspended
    ensures Behind(EnteredView(v, id, t, 0))
  {
    ThreadsApart(v);
    SuspendedOff(v, id);
    EnterOthers(v, id, t, 0);
    HostThere(v);
    hide Core, Entering, Waits, RunsHost, EntryFrames, LoopsOf, WellStacked, ThreadsInOrder, ResumersInOrder;
    var w := EnteredView(v, id, t, 0);
    ResumeStacked(v.acts, w.acts[|v.acts|]);
    EnterInOrder(v, w, id, t);
    EnterResumers(v, w, id, t);
  }

  lemma ResumeStacked(acts: seq<Activation>, a: Activation)
    requires WellStacked(acts) && (acts == [] || acts[|acts| - 1].HostFn?) && a.Resumed? && a.entry == 0
    ensures WellStacked(acts + [a])
  {
  }

  lemma EnterInOrder(v: View, w: View, id: nat, t: Thread)
    requires ThreadsInOrder(v) && Lives(v.cos, id)
    requires w.running == v.cos[id].value.th && w.threads == v.threads[v.cos[id].value.th := t]
    requires forall i :: Lives(w.cos, i) <==> Lives(v.cos, i)
    requires forall i :: Lives(w.cos, i) ==> w.cos[i].value.th == v.cos[i].value.th
    requires forall i :: Lives(w.cos, i) && w.cos[i].value.status == Suspended ==>
      i != id && w.cos[i] == v.cos[i] && v.cos[i].value.th != v.cos[id].value.th
    ensures ThreadsInOrder(w)
  {
    hide Waits;
  }

  lemma HostThere(v: View)
    ensures RunsHost(v) ==> v.acts == [] || v.acts[|v.acts| - 1].HostFn?
  {
  }

  lemma EnterResumers(v: View, w: View, id: nat, t: Thread)
    requires ResumersInOrder(v.threads, v.acts) && RunningInOrder(v) && v.mode == Runs && Lives(v.cos, id)
    requires forall j :: 0 <= j < |v.acts| && v.acts[j].Resumed? ==> v.acts[j].resumerTh != v.cos[id].value.th
    requires v.running != v.cos[id].value.th
    requires w.threads == v.threads[v.cos[id].value.th := t]
    requires |w.acts| == |v.acts| + 1 && w.acts[..|v.acts|] == v.acts
    requires w.acts[|v.acts|].Resumed? && w.acts[|v.acts|].resumerTh == v.running
    ensures ResumersInOrder(w.threads, w.acts)
  {
    forall j {:trigger w.acts[j]} | 0 <= j < |w.acts| && w.acts[j].Resumed?
      ensures w.acts[j].resumerTh in w.threads && w.threads[w.acts[j].resumerTh].pending == None
      ensures EntryFrames(w.threads[w.acts[j].resumerTh].frames) == LoopsOf(w.acts[..j])
    {
      if j < |v.acts| {
        assert w.acts[j] == v.acts[j] && w.acts[..j] == v.acts[..j];
      }
    }
  }

  /** Coroutines suspended after the resume were so before, on threads of their own. */
  lemma EnterOthers(v: View, id: nat, t: Thread, entry: nat)
    requires Core(v) && Lives(v.cos, id)
    ensures var w := EnteredView(v, id, t, entry);
      && (forall i :: Lives(w.cos, i) <==> Lives(v.cos, i))
      && (forall i :: Lives(w.cos, i) ==> w.cos[i].value.th == v.cos[i].value.th)
      && (forall i :: Lives(w.cos, i) && w.cos[i].value.status == Suspended ==>
            i != id && w.cos[i] == v.cos[i] && v.cos[i].value.th != v.cos[id].value.th)
  {
    hide OffChain, ActsOk, FreeIds, ChainThreads;
  }

  /** The registry when the innermost resume of `id` ends and its resumer runs again. */
  ghost function Leaving(cos: Registry, resumer: Option<nat>, id: nat, co: Co): Registry
    requires Lives(cos, id) && (resumer.Some? ==> Lives(cos, resumer.value))
  {
    var c := cos[id := Some(co)];
    if resumer.Some? then c[resumer.value := Some(c[resumer.value].value.(status := Running))] else c
  }

  ghost predicate InnermostIs(v: View, id: nat) {
    InnermostResumed(v.acts) && v.acts[|v.acts| - 1].id == id
  }

  /** The machine after the innermost resume ends, its coroutine's record now `co`. */
  ghost function LeftView(v: View, id: nat, co: Co): View
    requires Lives(v.cos, id) && InnermostIs(v, id) && v.nCcalls > 0 && |v.threadChain| > 0
    requires v.acts[|v.acts| - 1].resumer.Some? ==> Lives(v.cos, v.acts[|v.acts| - 1].resumer.value)
  {
    var a := v.acts[|v.acts| - 1];
    v.(cos := Leaving(v.cos, a.resumer, id, co), running := a.resumerTh,
       threadChain := v.threadChain[..|v.threadChain| - 1], nCcalls := v.nCcalls - 1, acts := v.acts[..|v.acts| - 1],
       mode := Runs)
  }

  lemma InnermostFacts(v: View, id: nat)
    requires Core(v) && InnermostIs(v, id)
    ensures Lives(v.cos, id) && v.nCcalls > 0 && |v.threadChain| > 0 && v.cos[id].value.status == Running
    ensures v.cos[id].value.baseCcalls == v.nCcalls && v.cos[id].value.started && v.cos[id].value.th == v.running
    ensures var a, chain := v.acts[|v.acts| - 1], ChainOf(v.acts);
      && chain == ChainOf(v.acts[..|v.acts| - 1]) + [id] && a.resumer == InnermostId(chain[..|chain| - 1])
      && (a.resumer.Some? ==> Lives(v.cos, a.resumer.value) && a.resumer.value != id)
  {
    var n := |v.acts| - 1;
    var a, c := v.acts[n], ChainOf(v.acts[..n]);
    assert v.acts == v.acts[..n] + [a];
    ChainPush(v.acts[..n], a);
    CDepthPushed(v.acts[..n], a);
    assert ActOk(v.cos, v.acts, n);
    var chain := ChainOf(v.acts);
    assert chain[|chain| - 1] == id && chain[..|chain| - 1] == c;
  }

  /** Ending the innermost resume with the coroutine suspended or dead keeps statuses, resume chain and
      C-call depth in order. */
  lemma LeaveCore(v: View, id: nat, co: Co)
    requires Core(v) && InnermostIs(v, id)
    requires Lives(v.cos, id) && v.nCcalls > 0 && |v.threadChain| > 0
    requires v.acts[|v.acts| - 1].resumer.Some? ==> Lives(v.cos, v.acts[|v.acts| - 1].resumer.value)
    requires co.th == v.cos[id].value.th && co.ref == v.cos[id].value.ref
    requires co.status == Dead || co.status == Suspended
    ensures Core(LeftView(v, id, co))
  {
    InnermostFacts(v, id);
    var w := LeftView(v, id, co);
    var chain := ChainOf(v.acts);
    var n := |v.acts| - 1;
    assert v.acts == v.acts[..n] + [v.acts[n]];
    CDepthPushed(v.acts[..n], v.acts[n]);
    ActsPop(v.cos, v.acts);
    LeaveParts(v.cos, w.cos, chain, id, co, v.nextTh, v.nextRef, v.free);
    LeaveThreads(v, w, id);
    hide ResumeChain, OffChain, ChainThreads, OwnThreads, FreeIds;
    ActsKept(v.cos, w.cos, w.acts);
  }

  lemma LeaveThreads(v: View, w: View, id: nat)
    requires ChainThreads(v.cos, ChainOf(v.acts), v.running, v.threadChain) && ActsOk(v.cos, v.acts)
    requires InnermostIs(v, id)
    requires w.acts == v.acts[..|v.acts| - 1] && |v.threadChain| > 0
    requires w.threadChain == v.threadChain[..|v.threadChain| - 1]
    requires w.running == v.acts[|v.acts| - 1].resumerTh
    requires SameThreadIds(v.cos, w.cos)
    ensures ChainThreads(w.cos, ChainOf(w.acts), w.running, w.threadChain)
  {
    var n := |v.acts| - 1;
    assert v.acts == w.acts + [v.acts[n]];
    ChainPush(w.acts, v.acts[n]);
    assert ActOk(v.cos, v.acts, n);
    var c, chain := ChainOf(w.acts), ChainOf(v.acts);
    forall i | 0 <= i < |c| ensures c[i] == chain[i] && Lives(w.cos, c[i]) { assert Lives(v.cos, chain[i]); }
  }

  /** The same records with the same threads and objects. */
  ghost predicate SameThreadIds(cos: Registry, cos': Registry) {
    && |cos'| == |cos|
    && forall i: nat :: (Lives(cos', i) <==> Lives(cos, i)) &&
         (Lives(cos, i) ==> cos'[i].value.th == cos[i].value.th && cos'[i].value.ref == cos[i].value.ref)
  }

  lemma LeaveParts(cos: Registry, cos': Registry, chain: seq<nat>, id: nat, co: Co, nextTh: nat, nextRef: nat,
                   free: seq<nat>)
    requires OwnThreads(cos, nextTh, nextRef) && ResumeChain(cos, chain) && OffChain(cos, chain) && FreeIds(cos, free)
    requires chain != [] && chain[|chain| - 1] == id && Lives(cos, id)
    requires var r := InnermostId(chain[..|chain| - 1]);
      (r.Some? ==> Lives(cos, r.value)) && cos' == Leaving(cos, r, id, co)
    requires co.th == cos[id].value.th && co.ref == cos[id].value.ref
    requires co.status == Dead || co.status == Suspended
    ensures OwnThreads(cos', nextTh, nextRef) && ResumeChain(cos', chain[..|chain| - 1])
    ensures OffChain(cos', chain[..|chain| - 1])
    ensures FreeIds(cos', free) && SameThreadIds(cos, cos')
    ensures SameThreads(cos, cos', chain[..|chain| - 1])
  {
    var c := chain[..|chain| - 1];
    assert SameThreadIds(cos, cos');
    assert OwnThreads(cos', nextTh, nextRef) && FreeIds(cos', free) by { hide ResumeChain, OffChain; }
    hide OwnThreads, FreeIds, SameThreadIds;
    forall i | 0 <= i < |c| ensures c[i] == chain[i] && c[i] != id && Lives(cos, c[i]) {
    }
    forall x | x in chain && x != id ensures x in c {
      var i :| 0 <= i < |chain| && chain[i] == x;
      assert c[i] == x;
    }
    forall x | x in c ensures x != id && Lives(cos, x) {
    }
    assert OffChain(cos', c) by { hide ResumeChain; }
    hide OffChain;
  }

  /** A coroutine left suspended must have its point recorded; then every thread is in order again. */
  lemma LeavePoints(v: View, id: nat, co: Co)
    requires Core(v) && Behind(v) && InnermostIs(v, id)
    requires Lives(v.cos, id) && v.nCcalls > 0 && |v.threadChain| > 0
    requires v.acts[|v.acts| - 1].resumer.Some? ==> Lives(v.cos, v.acts[|v.acts| - 1].resumer.value)
    requires co.th == v.cos[id].value.th && co.ref == v.cos[id].value.ref
    requires co.status == Dead
      || (co.status == Suspended && co.started && v.running in v.threads && Waits(v.threads[v.running]))
    ensures Points(LeftView(v, id, co))
  {
    InnermostFacts(v, id);
    var w := LeftView(v, id, co);
    forall j {:trigger w.acts[j]} | 0 <= j < |w.acts| && w.acts[j].Resumed?
      ensures w.acts[j] == v.acts[j] && w.acts[..j] == v.acts[..j]
    {
    }
    assert ThreadsInOrder(w) by {
      hide WellStacked, ResumersInOrder, ActsOk, OffChain, FreeIds, ResumeChain, Waits;
      ResumerThere(v);
    }
    hide Core, ThreadsInOrder, Waits;
  }

  lemma ResumerThere(v: View)
    requires Behind(v) && InnermostResumed(v.acts)
    ensures v.acts[|v.acts| - 1].resumerTh in v.threads
  {
  }

  /** Whatever ran in between, the same activations mean the same running thread, resume chain and
      C-call depth. */
  lemma Restored(v: View, w: View)
    requires Core(v) && Core(w) && v.acts == w.acts
    requires SameThreadIds(v.cos, w.cos)
    ensures w.running == v.running && w.threadChain == v.threadChain && w.nCcalls == v.nCcalls
  {
    var chain := ChainOf(v.acts);
    forall i | 0 <= i < |chain| ensures chain[i] in chain && Lives(v.cos, chain[i]) {
    }
  }

  /** Whether g waits directly on the innermost resume. */
  ghost predicate Waiting(v: View, g: Handle) {
    InnermostResumed(v.acts) && CoIn(v.cos, g).Some? && CoIn(v.cos, g) == v.acts[|v.acts| - 1].resumer
  }

  lemma LeaveStatus(v: View, id: nat, co: Co)
    requires Core(v) && InnermostIs(v, id) && Lives(v.cos, id) && v.nCcalls > 0 && |v.threadChain| > 0
    requires v.acts[|v.acts| - 1].resumer.Some? ==> Lives(v.cos, v.acts[|v.acts| - 1].resumer.value)
    requires co.th == v.cos[id].value.th && co.ref == v.cos[id].value.ref
    ensures forall g :: StatusIn(LeftView(v, id, co).cos, g) == if CoIn(v.cos, g) == Some(id) then co.status
              else if Waiting(v, g) then Running else StatusIn(v.cos, g)
  {
    InnermostFacts(v, id);
  }

  /** What resuming does to the statuses: only the innermost coroutine runs. */
  lemma EnterStatus(v: View, id: nat, t: Thread, entry: nat)
    requires Core(v) && Lives(v.cos, id) && v.cos[id].value.status == Suspended
    ensures var w := EnteredView(v, id, t, entry);
      && InnermostIs(w, id) && w.acts[..|w.acts| - 1] == v.acts && SameThreadIds(v.cos, w.cos)
      && forall g :: StatusIn(w.cos, g) == if CoIn(v.cos, g) == Some(id) then Running
           else if StatusIn(v.cos, g) == Running then Normal else StatusIn(v.cos, g)
    ensures forall g :: Waiting(EnteredView(v, id, t, entry), g) <==> StatusIn(v.cos, g) == Running
  {
    var chain := ChainOf(v.acts);
    RunnerThere(v);
    var w := EnteredView(v, id, t, entry);
    forall g | StatusIn(v.cos, g) == Running ensures InnermostId(chain) == CoIn(v.cos, g) {
      OnlyRunning(v, g.id);
    }
  }

  /** A fresh coroutine that cannot be started is dead. */
  lemma StillbornOk(v: View, id: nat)
    requires Ok(v) && Lives(v.cos, id) && v.cos[id].value.status == Suspended
    ensures Ok(v.(cos := v.cos[id := Some(v.cos[id].value.(status := Dead))]))
  {
    StillbornCore(v, id);
    hide Core, Waits, WellStacked, ResumersInOrder, RunningInOrder;
  }

  lemma StillbornCore(v: View, id: nat)
    requires Core(v) && Lives(v.cos, id) && v.cos[id].value.status == Suspended
    ensures Core(v.(cos := v.cos[id := Some(v.cos[id].value.(status := Dead))]))
  {
    SuspendedOff(v, id);
    var cos' := v.cos[id := Some(v.cos[id].value.(status := Dead))];
    var chain := ChainOf(v.acts);
    forall i | 0 <= i < |chain| ensures Lives(cos', chain[i]) && chain[i] != id {
      assert Lives(v.cos, chain[i]);
    }
    ActsKept(v.cos, cos', v.acts);
    hide ActsOk;
  }

  lemma RunningHandles(v: View, id: nat)
    requires Core(v) && InnermostId(ChainOf(v.acts)) == Some(id)
    ensures forall g :: CoIn(v.cos, g) == Some(id) <==> StatusIn(v.cos, g) == Running
  {
    RunnerThere(v);
    forall g | StatusIn(v.cos, g) == Running ensures CoIn(v.cos, g) == Some(id) {
      OnlyRunning(v, g.id);
    }
  }

  lemma WaitingIsNormal(v: View, id: nat)
    requires Core(v) && InnermostIs(v, id)
    ensures forall g :: Waiting(v, g) ==> StatusIn(v.cos, g) == Normal
  {
    InnermostFacts(v, id);
    var chain := ChainOf(v.acts);
    if |chain| > 1 { assert v.cos[chain[|chain| - 2]].value.status == Normal; }
  }

  lemma ReleaseOk(v: View, i: nat)
    requires Ok(v) && Lives(v.cos, i) && (v.cos[i].value.status == Suspended || v.cos[i].value.status == Dead)
    ensures Ok(v.(cos := v.cos[i := None], free := v.free + [i]))
  {
    ReleaseCore(v, i);
    hide Core, Waits, WellStacked, ResumersInOrder, RunningInOrder;
  }

  lemma ReleaseCore(v: View, i: nat)
    requires Core(v) && Lives(v.cos, i) && (v.cos[i].value.status == Suspended || v.cos[i].value.status == Dead)
    ensures Core(v.(cos := v.cos[i := None], free := v.free + [i]))
  {
    SuspendedOff(v, i);
    var cos', chain := v.cos[i := None], ChainOf(v.acts);
    forall k | 0 <= k < |chain| ensures Lives(cos', chain[k]) && chain[k] != i {
      assert Lives(v.cos, chain[k]);
    }
    ActsKept(v.cos, cos', v.acts);
    assert FreeIds(cos', v.free + [i]) && OffChain(cos', chain);
    hide ActsOk, FreeIds, OffChain;
  }

  lemma RunnerThere(v: View)
    requires Core(v)
    ensures var chain := ChainOf(v.acts);
      chain != [] ==>
        && Lives(v.cos, chain[|chain| - 1]) && v.cos[chain[|chain| - 1]].value.th == v.running
        && v.cos[chain[|chain| - 1]].value.status == Running
  {
  }

  lemma OnlyRunning(v: View, i: nat)
    requires Core(v) && Lives(v.cos, i) && v.cos[i].value.status == Running
    ensures InnermostId(ChainOf(v.acts)) == Some(i)
  {
    var chain := ChainOf(v.acts);
    assert i in chain;
    var k :| 0 <= k < |chain| && chain[k] == i;
  }

  lemma CreateOk(v: View, w: View, id: nat, co: Co)
    requires Ok(v) && co == Co(v.nextRef, v.nextTh, Suspended, false, 0)
    requires w == v.(cos := w.cos, free := w.free, threads := v.threads[v.nextTh := Thread([], None)],
                     nextRef := v.nextRef + 1, nextTh := v.nextTh + 1)
    requires if |v.free| > 0
      then id == v.free[|v.free| - 1] && id < |v.cos| && w.free == v.free[..|v.free| - 1]
        && w.cos == v.cos[id := Some(co)]
             else id == |v.cos| && w.free == v.free && w.cos == v.cos + [Some(co)]
    ensures Ok(w) && !Lives(v.cos, id) && Lives(w.cos, id) && w.cos[id].value == co
    ensures forall i: nat :: i != id ==>
      (Lives(w.cos, i) <==> Lives(v.cos, i)) && (Lives(v.cos, i) ==> w.cos[i] == v.cos[i])
  {
    CreatedFresh(v, w, id, co);
    CreateCore(v, w, id, co);
    RunningOld(v);
    hide Core;
    CreatePoints(v, w, id);
  }

  lemma CreatedFresh(v: View, w: View, id: nat, co: Co)
    requires FreeIds(v.cos, v.free)
    requires if |v.free| > 0 then id == v.free[|v.free| - 1] && id < |v.cos| && w.cos == v.cos[id := Some(co)]
             else id == |v.cos| && w.cos == v.cos + [Some(co)]
    ensures !Lives(v.cos, id) && Lives(w.cos, id) && w.cos[id].value == co
    ensures forall i: nat :: i != id ==>
      (Lives(w.cos, i) <==> Lives(v.cos, i)) && (Lives(v.cos, i) ==> w.cos[i] == v.cos[i])
  {
    if |v.free| > 0 { assert id in v.free; }
  }

  lemma CreatePoints(v: View, w: View, id: nat)
    requires Points(v) && v.running < v.nextTh && forall i :: Lives(v.cos, i) ==> v.cos[i].value.th < v.nextTh
    requires forall j {:trigger v.acts[j]} :: 0 <= j < |v.acts| && v.acts[j].Resumed? ==> v.acts[j].resumerTh < v.nextTh
    requires w == v.(cos := w.cos, free := w.free, threads := v.threads[v.nextTh := Thread([], None)],
                     nextRef := v.nextRef + 1, nextTh := v.nextTh + 1)
    requires Lives(w.cos, id) && w.cos[id].value.th == v.nextTh && w.cos[id].value.status == Suspended
    requires !w.cos[id].value.started
    requires forall i: nat :: i != id ==>
      (Lives(w.cos, i) <==> Lives(v.cos, i)) && (Lives(v.cos, i) ==> w.cos[i] == v.cos[i])
    requires v.nextTh > 0
    ensures Points(w)
  {
    hide Waits, WellStacked;
    assert ResumersInOrder(w.threads, w.acts);
    hide ResumersInOrder;
  }

  /** Threads in use have been given out. */
  lemma RunningOld(v: View)
    requires Core(v)
    ensures v.running < v.nextTh && forall i :: Lives(v.cos, i) ==> v.cos[i].value.th < v.nextTh
    ensures forall j {:trigger v.acts[j]} :: 0 <= j < |v.acts| && v.acts[j].Resumed? ==> v.acts[j].resumerTh < v.nextTh
  {
    RunnerThere(v);
    forall j {:trigger v.acts[j]} | 0 <= j < |v.acts| && v.acts[j].Resumed? ensures v.acts[j].resumerTh < v.nextTh {
      assert ActOk(v.cos, v.acts, j);
    }
  }

  lemma CreateCore(v: View, w: View, id: nat, co: Co)
    requires Core(v) && co == Co(v.nextRef, v.nextTh, Suspended, false, 0) && !Lives(v.cos, id)
    requires w ==
      v.(cos := w.cos, free := w.free, threads := w.threads, nextRef := v.nextRef + 1, nextTh := v.nextTh + 1)
    requires if |v.free| > 0
      then id == v.free[|v.free| - 1] && id < |v.cos| && w.free == v.free[..|v.free| - 1]
        && w.cos == v.cos[id := Some(co)]
             else id == |v.cos| && w.free == v.free && w.cos == v.cos + [Some(co)]
    ensures Core(w)
  {
    var chain := ChainOf(v.acts);
    forall i | 0 <= i < |chain| ensures Lives(w.cos, chain[i]) && w.cos[chain[i]] == v.cos[chain[i]] {
      assert Lives(v.cos, chain[i]);
    }
    forall x | x in chain ensures x != id && Lives(v.cos, x) {
    }
    ActsKept(v.cos, w.cos, v.acts);
    hide ActsOk;
    forall i: nat | true ensures i in w.free <==> i in v.free && i != id {
      if |v.free| > 0 {
        assert v.free == w.free + [id];
      }
    }
  }

  // ---- instructions, re-entries and returns ----

  /** The loop that runs, by the frame it entered at. */
  function LoopEntry(a: Activation): nat {
    if a.Resumed? then a.entry else if a.Reentry? then a.saved else 0
  }

  /** The innermost entry frame, 0 without one. */
  function InnermostEntry(frames: seq<bool>): nat {
    if EntryFrames(frames) == [] then 0 else EntryFrames(frames)[|EntryFrames(frames)| - 1]
  }

  lemma LastLoop(acts: seq<Activation>)
    requires |acts| > 0 && IsLoop(acts[|acts| - 1])
    ensures |LoopsOf(acts)| > 0 && LoopsOf(acts)[|LoopsOf(acts)| - 1] == LoopEntry(acts[|acts| - 1])
    ensures acts[|acts| - 1].Reentry? ==> LoopsOf(acts[..|acts| - 1]) == LoopsOf(acts)[..|LoopsOf(acts)| - 1]
  {
  }

  /** A host function is called, by an instruction or by a re-entry. */
  lemma HostCalledOk(v: View, site: Site)
    requires Ok(v) && v.mode == Runs && (!site.FromHost? ==> RunsLua(v))
    ensures Ok(Pushed(v, HostFn(site)))
  {
    PushedCore(v, HostFn(site));
    BehindPushed(v, HostFn(site));
    LoopsPushed(v.acts, HostFn(site));
    hide Core, Behind;
  }

  lemma HostReturnedOk(v: View)
    requires Ok(v) && v.mode == Runs && |v.acts| > 0 && v.acts[|v.acts| - 1].HostFn?
    ensures v.nCcalls >= (if Counts(v.acts[|v.acts| - 1]) then 1 else 0) && Ok(Popped(v))
  {
    PoppedCore(v);
    BehindPopped(v);
    hide Core, Behind;
  }

  /** A Lua function is called: a frame more. */
  lemma LuaCalledOk(v: View)
    requires Ok(v) && v.mode == Runs
    ensures Ok(WithThread(v, Thread(v.threads[v.running].frames + [false], v.threads[v.running].pending)))
  {
    var t := Thread(v.threads[v.running].frames + [false], v.threads[v.running].pending);
    FramePushed(v.threads[v.running].frames, false);
    BehindThread(v, t);
    CoreOnly(v, t, Runs);
    hide Core, Behind;
  }

  /** A re-entry starts a loop of its own on an entry frame. */
  lemma LuaReenteredOk(v: View)
    requires Ok(v) && v.mode == Runs
    ensures var t := v.threads[v.running];
      Ok(Pushed(WithThread(v, Thread(t.frames + [true], t.pending)), Reentry(|t.frames|)))
  {
    var t := v.threads[v.running];
    var t', a := Thread(t.frames + [true], t.pending), Reentry(|t.frames|);
    var w := WithThread(v, t');
    FramePushed(t.frames, true);
    BehindThread(v, t');
    CoreOnly(v, t', Runs);
    PushedCore(w, a);
    BehindPushed(w, a);
    LoopsPushed(w.acts, a);
    hide Core, Behind;
  }

  /** A frame returns. If it is the one its loop entered at, the loop ends. */
  lemma FrameReturned(v: View)
    requires Points(v) && RunsLua(v)
    ensures var frames, a := v.threads[v.running].frames, v.acts[|v.acts| - 1];
      && |frames| > 0 && LoopEntry(a) < |frames|
      && (|frames| - 1 > LoopEntry(a) ==> EntryFrames(frames[..|frames| - 1]) == EntryFrames(frames))
      && (|frames| - 1 <= LoopEntry(a) && a.Reentry? ==>
        EntryFrames(frames[..|frames| - 1]) == LoopsOf(v.acts[..|v.acts| - 1]))
  {
    var frames := v.threads[v.running].frames;
    LastLoop(v.acts);
    EntryFramesBelow(frames);
    FramesCut(frames, LoopEntry(v.acts[|v.acts| - 1]));
  }

  lemma ReturnedOk(v: View)
    requires Ok(v) && RunsLua(v)
    ensures var t, a := v.threads[v.running], v.acts[|v.acts| - 1];
      |t.frames| > 0 &&
      var w := WithThread(v, Thread(t.frames[..|t.frames| - 1], t.pending));
      && Core(w) && Behind(w)
      && (|t.frames| - 1 > LoopEntry(a) ==> Ok(w))
      && (|t.frames| - 1 <= LoopEntry(a) && a.Reentry? ==> w.nCcalls > 0 && Ok(Popped(w)))
  {
    var t, a := v.threads[v.running], v.acts[|v.acts| - 1];
    FrameReturned(v);
    var t' := Thread(t.frames[..|t.frames| - 1], t.pending);
    var w := WithThread(v, t');
    CoreOnly(v, t', Runs);
    BehindThread(v, t');
    if a.Reentry? {
      PoppedCore(w);
      BehindPopped(w);
    }
    hide Core, Behind;
  }

  // ---- signals on their way ----

  /** doCall and doTailCall get a signal back from a host function: for the sentinel they record where
      to resume. */
  function CallUnwound(v: View): View
    requires v.mode.Unwinds? && |v.acts| > 0 && v.running in v.threads
  {
    var t, a := v.threads[v.running], v.acts[|v.acts| - 1];
    var w := if v.mode.sig == Sentinel && a.HostFn? && !a.site.FromHost?
      then WithThread(v,
        t.(pending := Some(Point(|t.frames| - 1, a.site.dst, NResults(a.site), InnermostEntry(t.frames))))) else v;
    w.(acts := v.acts[..|v.acts| - 1])
  }

  /** A tail call wants all results. */
  function NResults(site: Site): int {
    if site.CallInstr? then site.nresults else -1
  }

  lemma CallUnwoundOk(v: View)
    requires Ok(v) && v.mode.Unwinds? && |v.acts| > 0 && !Counts(v.acts[|v.acts| - 1])
    ensures Ok(CallUnwound(v))
  {
    var t, n := v.threads[v.running], |v.acts| - 1;
    var w := CallUnwound(v);
    var t' := w.threads[v.running];
    assert v.threads[v.running := t] == v.threads;
    BehindThread(v, t');
    CoreOnly(v, t', v.mode);
    PoppedCore(WithThread(v, t'));
    BehindPopped(WithThread(v, t'));
    assert w == Popped(WithThread(v, t'));
    assert LoopsOf(v.acts) == LoopsOf(v.acts[..n]);
    assert n > 0 && IsLoop(v.acts[n - 1]) && v.acts[..n][n - 1] == v.acts[n - 1];
    if v.mode.sig == Sentinel {
      LastLoop(v.acts[..n]);
      assert LoopsOf(v.acts[..n]) == [0];
    }
    hide Core, Behind;
  }

  /** Who gets what a re-entry returns: host code has it in hand, the loop of an instruction that
      re-entered returns it. */
  function Handed(acts: seq<Activation>, sig: Signal): Control {
    if acts == [] || acts[|acts| - 1].HostFn? then Runs else Unwinds(sig)
  }

  /** A re-entry gets a signal back from its loop: its frames are cut, and the sentinel becomes the
      boundary error. */
  function ReentryUnwound(v: View): View
    requires v.mode.Unwinds? && |v.acts| > 0 && v.running in v.threads && v.nCcalls > 0
  {
    var t, a, below := v.threads[v.running], v.acts[|v.acts| - 1], v.acts[..|v.acts| - 1];
    var frames := if a.Reentry? && a.saved < |t.frames| then t.frames[..a.saved] else t.frames;
    var t' := Thread(frames, if v.mode.sig == Sentinel then None else t.pending);
    v.(threads := v.threads[v.running := t'], acts := below, nCcalls := v.nCcalls - 1, mode := Handed(below, Error))
  }

  lemma ReentryUnwoundOk(v: View)
    requires Ok(v) && v.mode.Unwinds? && |v.acts| > 0 && v.acts[|v.acts| - 1].Reentry?
    ensures v.nCcalls > 0 && Ok(ReentryUnwound(v))
  {
    var t := v.threads[v.running];
    LastLoop(v.acts);
    FramesCut(t.frames, LoopEntry(v.acts[|v.acts| - 1]));
    PoppedCore(v);
    var w := ReentryUnwound(v);
    var t' := w.threads[v.running];
    BehindThread(v, t');
    CoreOnly(v, t', v.mode);
    PoppedCore(WithThread(v, t'));
    BehindPopped(WithThread(v, t'));
    CoreOnly(Popped(WithThread(v, t')), t', w.mode);
    assert w == InMode(Popped(WithThread(v, t')), w.mode);
    hide Core, Behind;
  }

  /** A re-entry gets a signal back from the host function it called. */
  function HostReentryUnwound(v: View): View
    requires v.mode.Unwinds? && |v.acts| > 0 && v.nCcalls > 0
  {
    var below := v.acts[..|v.acts| - 1];
    v.(acts := below, nCcalls := v.nCcalls - 1, mode := Handed(below, v.mode.sig))
  }

  lemma HostReentryUnwoundOk(v: View)
    requires Ok(v) && v.mode.Unwinds? && |v.acts| > 0 && v.acts[|v.acts| - 1] == HostFn(FromHost)
    ensures v.nCcalls > 0 && Ok(HostReentryUnwound(v))
  {
    PoppedCore(v);
    BehindPopped(v);
    var w := HostReentryUnwound(v);
    CoreOnly(Popped(v), v.threads[v.running], w.mode);
    assert w == InMode(Popped(v), w.mode);
    hide Core, Behind;
  }

  lemma RaisedOk(v: View, m: Control)
    requires Ok(v) && v.mode == Runs && (m == Runs || (m == Unwinds(Error) && v.acts != []))
    ensures Ok(InMode(v, m))
  {
    CoreOnly(v, v.threads[v.running], m);
    hide Core, WellStacked, ThreadsInOrder, ResumersInOrder;
  }

  lemma YieldedOk(v: View)
    requires Ok(v) && v.mode == Runs && CalledByBody(v.acts)
    ensures Ok(InMode(v, Unwinds(Sentinel)))
  {
    CoreOnly(v, v.threads[v.running], Unwinds(Sentinel));
    hide Core, WellStacked, ThreadsInOrder, ResumersInOrder;
  }

  // ---- what Yield checks ----

  lemma {:induction false} CDepthGrows(acts: seq<Activation>, k: nat)
    requires k <= |acts|
    ensures CDepth(acts[..k]) <= CDepth(acts)
    ensures forall j :: k <= j < |acts| && Counts(acts[j]) ==> CDepth(acts[..k]) < CDepth(acts)
    decreases |acts|
  {
    if k < |acts| {
      var init := acts[..|acts| - 1];
      CDepthGrows(init, k);
      assert init[..k] == acts[..k];
    } else {
      assert acts[..k] == acts;
    }
  }

  /** The innermost resume in the activations. */
  lemma {:induction false} LastResume(acts: seq<Activation>) returns (j: nat)
    requires ChainOf(acts) != []
    ensures j < |acts| && acts[j].Resumed? && InnermostId(ChainOf(acts)) == Some(acts[j].id)
    ensures forall i :: j < i < |acts| ==> !acts[i].Resumed?
    decreases |acts|
  {
    var n := |acts| - 1;
    if acts[n].Resumed? {
      j := n;
    } else {
      j := LastResume(acts[..n]);
    }
  }

  /** The C-call depth is the one its resume set exactly when an instruction of the coroutine's own
      loop called the host function that runs. */
  lemma BoundaryIsBase(v: View)
    requires Ok(v) && |v.acts| > 0 && v.acts[|v.acts| - 1].HostFn?
    ensures var c := InnermostId(ChainOf(v.acts));
      CalledByBody(v.acts) <==> c.Some? && Lives(v.cos, c.value) && v.nCcalls <= v.cos[c.value].value.baseCcalls
    ensures CalledByBody(v.acts) ==> InnermostId(ChainOf(v.acts)) == Some(v.acts[|v.acts| - 2].id)
  {
    var n := |v.acts| - 1;
    if CalledByBody(v.acts) {
      assert v.acts[..n][..n - 1] == v.acts[..n - 1];
      assert v.acts[..n] == v.acts[..n - 1] + [v.acts[n - 1]];
      assert v.acts == v.acts[..n] + [v.acts[n]];
      ChainPush(v.acts[..n], v.acts[n]);
      ChainPush(v.acts[..n - 1], v.acts[n - 1]);
      CDepthPushed(v.acts[..n - 1], v.acts[n - 1]);
      CDepthPushed(v.acts[..n], v.acts[n]);
      assert ActOk(v.cos, v.acts, n - 1);
    } else if ChainOf(v.acts) != [] {
      var j := LastResume(v.acts);
      assert ActOk(v.cos, v.acts, j);
      CDepthGrows(v.acts, j + 1);
      assert v.acts[..j + 1] == v.acts[..j] + [v.acts[j]];
      CDepthPushed(v.acts[..j], v.acts[j]);
      if !Counts(v.acts[n]) {
        assert IsLoop(v.acts[n - 1]) && v.acts[n - 1].Reentry?;
      }
    }
  }

  /** While the sentinel is on its way, no re-entry is between it and the resume: the interception at
      the boundary never has anything to intercept. */
  lemma SentinelMeetsNoBoundary(v: View)
    requires Ok(v) && v.mode == Unwinds(Sentinel)
    ensures !v.acts[|v.acts| - 1].Reentry? && v.acts[|v.acts| - 1] != HostFn(FromHost)
    ensures InnermostId(ChainOf(v.acts)).Some?
  {
    var n := |v.acts| - 1;
    assert v.acts == v.acts[..n] + [v.acts[n]];
    ChainPush(v.acts[..n], v.acts[n]);
    if CalledByBody(v.acts) {
      assert v.acts[..n] == v.acts[..n - 1] + [v.acts[n - 1]];
      ChainPush(v.acts[..n - 1], v.acts[n - 1]);
    }
  }

  // ---- statuses and suspended threads over a step ----

  /** The status of g after the resume of h answered `done`, refused a fresh coroutine its frame or its
      C call (`killed`), or did nothing. */
  ghost function ResumedStatus(v: View, h: Handle, done: bool, killed: bool, g: Handle): Status {
    var s := StatusIn(v.cos, g);
    if done then (if g == h then Running else if s == Running then Normal else s)
    else if killed && g == h then Dead else s
  }

  /** The status of g after the innermost resume ended with `fate`, if it did. */
  ghost function LeftStatus(v: View, fate: Option<Status>, g: Handle): Status {
    var s := StatusIn(v.cos, g);
    if fate.None? then s else if s == Running then fate.value else if Waiting(v, g) then Running else s
  }

  /** What a signal means for the innermost coroutine. */
  ghost function Fate(acts: seq<Activation>, mode: Control): Option<Status> {
    if InnermostResumed(acts) && mode.Unwinds? then Some(if mode.sig == Sentinel then Suspended else Dead) else None
  }

  /** Record i is the same coroutine, suspended before and after. */
  ghost predicate StaysSuspended(v: View, w: View, i: int) {
    && Lives(v.cos, i) && Lives(w.cos, i) && v.cos[i].value.ref == w.cos[i].value.ref
    && v.cos[i].value.status == Suspended && w.cos[i].value.status == Suspended
  }

  /** A coroutine that stays suspended keeps its frames and its point. */
  ghost predicate SuspendedKept(v: View, w: View) {
    forall i {:trigger StaysSuspended(v, w, i)} :: StaysSuspended(v, w, i) ==>
      var th := v.cos[i].value.th;
      && w.cos[i].value.th == th && w.cos[i].value.started == v.cos[i].value.started
      && th in v.threads && th in w.threads && w.threads[th] == v.threads[th]
  }

  /** A started coroutine goes on where its point says: the point, which names its top frame, is taken, its
      frames are as they were, and the loop is the one the point names. */
  ghost predicate GoesOn(v: View, id: nat, w: View) {
    && Lives(v.cos, id)
    && var th := v.cos[id].value.th;
    && th in v.threads && Waits(v.threads[th])
    && th in w.threads && w.threads[th] == Thread(v.threads[th].frames, None)
    && InnermostResumed(w.acts) && w.acts[|w.acts| - 1].entry == v.threads[th].pending.value.entryDepth
  }

  ghost predicate SameRecords(cos: Registry, cos': Registry) {
    SameThreadIds(cos, cos') && forall i: nat :: Lives(cos, i) ==> cos'[i].value.started == cos[i].value.started
  }

  /** A collection spares what runs or waits for what runs. */
  predicate SparesRooted(cos: Registry, unreached: set<nat>) {
    forall i | 0 <= i < |cos| ::
      cos[i].Some? && (cos[i].value.status == Running || cos[i].value.status == Normal) ==>
        cos[i].value.ref !in unreached
  }

  lemma RunningThread(v: View)
    requires Ok(v)
    ensures Core(v) && v.running in v.threads && v.threads[v.running := v.threads[v.running]] == v.threads
  {
  }

  lemma SuspendedThread(v: View, id: nat)
    requires Ok(v) && Lives(v.cos, id) && v.cos[id].value.status == Suspended
    ensures var t, th := v.threads, v.cos[id].value.th;
      th in t && if v.cos[id].value.started then Waits(t[th]) else t[th] == Thread([], None)
  {
  }

  lemma CreatedKept(v: View, w: View, id: nat)
    requires Ok(v) && !Lives(v.cos, id) && w.threads == v.threads[v.nextTh := Thread([], None)]
    requires forall i: nat :: i != id ==>
      (Lives(w.cos, i) <==> Lives(v.cos, i)) && (Lives(v.cos, i) ==> w.cos[i] == v.cos[i])
    ensures SuspendedKept(v, w)
  {
    RunningOld(v);
  }

  lemma EnterKept(v: View, id: nat, t: Thread, entry: nat)
    requires Ok(v) && Lives(v.cos, id) && v.cos[id].value.status == Suspended
    ensures SuspendedKept(v, EnteredView(v, id, t, entry))
  {
    EnterOthers(v, id, t, entry);
    forall i | Lives(v.cos, i) && v.cos[i].value.status == Suspended ensures v.cos[i].value.th in v.threads {
    }
    hide Core, Points;
  }

  lemma LeaveKept(v: View, id: nat, co: Co)
    requires Core(v) && Behind(v) && InnermostIs(v, id)
    requires Lives(v.cos, id) && v.nCcalls > 0 && |v.threadChain| > 0
    requires v.acts[|v.acts| - 1].resumer.Some? ==> Lives(v.cos, v.acts[|v.acts| - 1].resumer.value)
    ensures SuspendedKept(v, LeftView(v, id, co))
  {
    InnermostFacts(v, id);
    forall i | Lives(v.cos, i) && v.cos[i].value.status == Suspended ensures v.cos[i].value.th in v.threads && i != id {
    }
    hide Core, Behind;
  }

  lemma ThreadKept(v: View, t: Thread)
    requires Core(v) && Behind(v)
    ensures SuspendedKept(v, WithThread(v, t))
  {
    ThreadsApart(v);
    forall i | Lives(v.cos, i) && v.cos[i].value.status == Suspended
      ensures v.cos[i].value.th in v.threads && v.cos[i].value.th != v.running
    {
      SuspendedOff(v, i);
    }
    hide Core, Behind;
  }

  /** Suspended coroutines may go, or die, but none is new or other than before. */
  lemma FewerKept(v: View, w: View)
    requires Ok(v) && w.threads == v.threads
    requires forall i :: Lives(w.cos, i) && w.cos[i].value.status == Suspended ==>
      Lives(v.cos, i) && w.cos[i] == v.cos[i]
    ensures SuspendedKept(v, w)
  {
    forall i | StaysSuspended(v, w, i) ensures v.cos[i].value.th in v.threads {
    }
    hide Core, Points;
  }

  lemma KeptLikewise(v: View, w: View, x: View)
    requires SuspendedKept(v, w) && x.cos == w.cos && x.threads == w.threads
    ensures SuspendedKept(v, x)
  {
    forall i | StaysSuspended(v, x, i) ensures StaysSuspended(v, w, i) {
    }
  }

  /** Nobody is left suspended by a coroutine's death. */
  lemma DeadLeaves(v: View, id: nat, co: Co)
    requires Lives(v.cos, id) && InnermostIs(v, id) && v.nCcalls > 0 && |v.threadChain| > 0
    requires v.acts[|v.acts| - 1].resumer.Some? ==> Lives(v.cos, v.acts[|v.acts| - 1].resumer.value)
    requires co.status == Dead
    ensures var w := LeftView(v, id, co);
      forall i :: Lives(w.cos, i) && w.cos[i].value.status == Suspended ==> Lives(v.cos, i) && v.cos[i] == w.cos[i]
  {
  }

  lemma RunningKept(v: View, w: View)
    requires Ok(v) && w.cos == v.cos && w.running == v.running && v.running in w.threads
    requires w.threads == v.threads[v.running := w.threads[v.running]]
    ensures SuspendedKept(v, w)
  {
    ThreadKept(v, w.threads[v.running]);
    hide Core, Points;
  }

  lemma SuspendedKeptTwice(v: View, w: View, x: View)
    requires SuspendedKept(v, w) && SuspendedKept(w, x)
    requires forall i :: StaysSuspended(v, x, i) ==> StaysSuspended(v, w, i)
    ensures SuspendedKept(v, x)
  {
    forall i | StaysSuspended(v, x, i) ensures StaysSuspended(v, w, i) && StaysSuspended(w, x, i) {
    }
  }

  lemma BodyInnermost(acts: seq<Activation>)
    requires CalledByBody(acts)
    ensures InnermostId(ChainOf(acts)) == Some(acts[|acts| - 2].id)
  {
    var n := |acts| - 1;
    assert acts == acts[..n] + [acts[n]];
    ChainPush(acts[..n], acts[n]);
    assert acts[..n] == acts[..n - 1] + [acts[n - 1]];
    ChainPush(acts[..n - 1], acts[n - 1]);
  }

  lemma RunnerStarted(v: View, id: nat)
    requires Core(v) && InnermostId(ChainOf(v.acts)) == Some(id)
    ensures Lives(v.cos, id) && v.cos[id].value.th == v.running && v.cos[id].value.started
    ensures v.cos[id].value.status == Running
  {
    RunnerThere(v);
  }

  /** The coroutine whose body called the host function that runs. */
  lemma YieldingCo(v: View)
    requires Ok(v) && CalledByBody(v.acts)
    ensures var id := v.acts[|v.acts| - 2].id;
      && Lives(v.cos, id) && v.cos[id].value.th == v.running && v.cos[id].value.started
      && v.cos[id].value.status == Running
    ensures v.running in v.threads
  {
    hide Core, Behind;
    BodyInnermost(v.acts);
    RunnerStarted(v, v.acts[|v.acts| - 2].id);
  }
}
