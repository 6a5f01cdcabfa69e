/** The one-way tier machine (internal/bridge/bridge.go:128-330, 436-756, 799-835,
    internal/bridge/profile.go:12-130, internal/bridge/analyzer.go:155-172).

    Prototypes are numbered. What the backend answers may change from one question to the next, so
    each event brings its answers with it. */
module TierMachine {

  datatype Compilability = Unknown | Compilable | NotCompilable

  /** Why a prototype was excluded at compile time: the bits a backend cannot lift, and the two
      placeholder bits it can. */
  datatype Reasons = Reasons(structural: bool, placeholder: bool)

  datatype Proto = Proto(codeLen: nat, verdict: Compilability, reasons: Reasons)

  datatype Tier = Interp | Gibbous | Stuck

  datatype FloorExempt = Unasked | Exempt | NotExempt

  datatype Profile = Profile(entryCount: nat, backEdge: seq<nat>, comp: Compilability, tier: Tier, compileTried: bool,
                             recheckedAtEntry: nat, floorExempt: FloorExempt)

  /** Which of its optional questions a backend answers. */
  datatype Backend = NoBackend | Backend(minLen: nat, hasExempter: bool, hasGater: bool)

  datatype Answers = Answers(supports: bool, exempts: bool, worth: bool, compiles: bool)

  const HOT_BACK_EDGE: nat := 1000
  const HOT_ENTRY: nat := 200
  const MIN_PROMOTABLE_LEN: nat := 10
  const RETRY_WINDOW: nat := 64

  /** The verdict burned into a prototype at compile time; the backend is asked only when nothing
      else excludes it. */
  function Burned(codeLen: nat, structural: bool, selfCall: bool, supported: bool): Proto {
    if structural || selfCall then Proto(codeLen, NotCompilable, Reasons(structural, selfCall))
    else if supported then Proto(codeLen, Compilable, Reasons(false, false))
    else Proto(codeLen, NotCompilable, Reasons(false, true))
  }

  /** A prototype called compilable has no reason against it. */
  predicate Sound(p: Proto) {
    p.verdict == Compilable ==> !p.reasons.structural && !p.reasons.placeholder
  }

  lemma BurnedSound(codeLen: nat, structural: bool, selfCall: bool, supported: bool)
    ensures Sound(Burned(codeLen, structural, selfCall, supported))
    ensures Burned(codeLen, structural, selfCall, supported).reasons.structural == structural
  {
  }

  type Profiles = map<nat, Profile>

  ghost function StuckIn(ps: Profiles): set<nat> {
    set p | p in ps && ps[p].tier == Stuck
  }

  ghost function Total(s: seq<nat>): nat {
    if s == [] then 0 else Total(s[..|s| - 1]) + s[|s| - 1]
  }

  lemma {:induction false} TotalUpdate(s: seq<nat>, i: nat, v: nat)
    requires i < |s|
    ensures Total(s[i := v]) + s[i] == Total(s) + v
    decreases |s|
  {
    var n := |s| - 1;
    if i < n {
      TotalUpdate(s[..n], i, v);
      assert s[i := v][..n] == s[..n][i := v];
    } else {
      assert s[i := v][..n] == s[..n];
    }
  }

  lemma {:induction false} TotalBound(s: seq<nat>, b: nat)
    requires forall i :: 0 <= i < |s| ==> s[i] <= b
    ensures Total(s) <= b * |s|
    decreases |s|
  {
    if s != [] {
      TotalBound(s[..|s| - 1], b);
      assert b * |s| == b * (|s| - 1) + b;
    }
  }

  lemma {:induction false} TotalZero(n: nat)
    ensures Total(seq(n, _ => 0)) == 0
    decreases n
  {
    if n > 0 {
      TotalZero(n - 1);
      assert seq(n, _ => 0)[..n - 1] == seq(n - 1, _ => 0);
    }
  }

  /** What is counted of a prototype: backend rechecks, and how often each back edge allowed one
      more. */
  datatype Counts = Counts(rechecks: nat, rearms: seq<nat>)

  function Reached(b: bool): nat {
    if b then 1 else 0
  }

  /** A back edge allows one more recheck when it is first taken, and when it gets hot; `changes`
      counts the times the threshold moved. */
  ghost predicate CountsOk(pd: Profile, k: Counts, hot: nat, changes: nat, codeLen: nat) {
    && |k.rearms| == codeLen
    && (pd.backEdge == [] || |pd.backEdge| == codeLen)
    && pd.recheckedAtEntry <= pd.entryCount + 1
    && k.rechecks <= pd.entryCount + Total(k.rearms) + Reached(pd.recheckedAtEntry == pd.entryCount + 1)
    && forall i :: 0 <= i < codeLen ==>
         k.rearms[i] <= changes
           + (if pd.backEdge == [] then 0 else Reached(pd.backEdge[i] >= 1) + Reached(pd.backEdge[i] >= hot))
  }

  /** Entries and back edges counted are the same. */
  predicate SameHeat(a: Profile, b: Profile) {
    a.entryCount == b.entryCount && a.backEdge == b.backEdge
  }

  /** The counters of two profiles agree. */
  predicate SameCounters(a: Profile, b: Profile) {
    a.entryCount == b.entryCount && a.backEdge == b.backEdge && a.recheckedAtEntry == b.recheckedAtEntry
  }

  lemma CountsSame(pd: Profile, pd': Profile, k: Counts, hot: nat, changes: nat, n: nat)
    requires CountsOk(pd, k, hot, changes, n) && SameCounters(pd, pd')
    ensures CountsOk(pd', k, hot, changes, n)
  {
  }

  lemma CountsNew(verdict: Compilability, hot: nat, changes: nat, n: nat)
    ensures CountsOk(Profile(0, [], verdict, Interp, false, 0, Unasked), Counts(0, seq(n, _ => 0)), hot, changes, n)
  {
    TotalZero(n);
  }

  lemma CountsEnter(pd: Profile, k: Counts, hot: nat, changes: nat, n: nat)
    requires CountsOk(pd, k, hot, changes, n)
    ensures CountsOk(pd.(entryCount := pd.entryCount + 1), k, hot, changes, n)
  {
  }

  lemma CountsRecheck(pd: Profile, k: Counts, hot: nat, changes: nat, n: nat)
    requires CountsOk(pd, k, hot, changes, n) && pd.recheckedAtEntry != pd.entryCount + 1
    ensures CountsOk(pd.(recheckedAtEntry := pd.entryCount + 1), k.(rechecks := k.rechecks + 1), hot, changes, n)
  {
  }

  lemma CountsAllocated(pd: Profile, k: Counts, hot: nat, changes: nat, n: nat)
    requires CountsOk(pd, k, hot, changes, n) && pd.backEdge == []
    ensures CountsOk(pd.(backEdge := seq(n, _ => 0)), k, hot, changes, n)
  {
  }

  lemma EdgesSized(pd: Profile, k: Counts, hot: nat, changes: nat, n: nat)
    requires CountsOk(pd, k, hot, changes, n)
    ensures pd.backEdge == [] || |pd.backEdge| == n
  {
  }

  /** Counting a back edge, and what its first and its hot passage do. */
  lemma CountsBackEdge(pd: Profile, k: Counts, hot: nat, changes: nat, n: nat, pc: nat)
    requires CountsOk(pd, k, hot, changes, n) && pc < n && |pd.backEdge| == n
    ensures |k.rearms| == n
    ensures var hits := pd.backEdge[pc] + 1;
      var pd' := pd.(backEdge := pd.backEdge[pc := hits]);
      if hits == 1 || hits == hot
      then CountsOk(pd'.(recheckedAtEntry := 0), k.(rearms := k.rearms[pc := k.rearms[pc] + 1]), hot, changes, n)
      else CountsOk(pd', k, hot, changes, n)
  {
    TotalUpdate(k.rearms, pc, k.rearms[pc] + 1);
    hide Total;
  }

  /** Every profile's counts are in order, and none it calls compilable or promoted is excluded. */
  ghost predicate ProfilesOk(ps: Profiles, counts: map<nat, Counts>, protos: seq<Proto>, hot: nat, changes: nat) {
    && counts.Keys == ps.Keys
    && forall p :: p in ps ==>
         && p < |protos| && CountsOk(ps[p], counts[p], hot, changes, protos[p].codeLen)
         && (ps[p].comp == Compilable || ps[p].tier == Gibbous ==> !protos[p].reasons.structural)
  }

  lemma PutProfile(ps: Profiles, counts: map<nat, Counts>, protos: seq<Proto>, hot: nat, changes: nat, p: nat,
                   pd: Profile, k: Counts)
    requires ProfilesOk(ps, counts, protos, hot, changes) && p < |protos|
    requires CountsOk(pd, k, hot, changes, protos[p].codeLen)
    requires pd.comp == Compilable || pd.tier == Gibbous ==> !protos[p].reasons.structural
    ensures ProfilesOk(ps[p := pd], counts[p := k], protos, hot, changes)
  {
    hide CountsOk;
  }

  lemma ThresholdsMoved(ps: Profiles, counts: map<nat, Counts>, protos: seq<Proto>, hot: nat, hot': nat, changes: nat)
    requires ProfilesOk(ps, counts, protos, hot, changes)
    ensures ProfilesOk(ps, counts, protos, hot', changes + 1)
  {
  }

  lemma SameKeys(ps: Profiles, counts: map<nat, Counts>, protos: seq<Proto>, hot: nat, changes: nat)
    requires ProfilesOk(ps, counts, protos, hot, changes)
    ensures counts.Keys == ps.Keys
  {
  }

  lemma GetProfile(ps: Profiles, counts: map<nat, Counts>, protos: seq<Proto>, hot: nat, changes: nat, p: nat)
    requires ProfilesOk(ps, counts, protos, hot, changes) && p in ps
    ensures p in counts && p < |protos| && CountsOk(ps[p], counts[p], hot, changes, protos[p].codeLen)
    ensures counts[p := counts[p]] == counts && ps.Keys == counts.Keys
    ensures ps[p].comp == Compilable || ps[p].tier == Gibbous ==> !protos[p].reasons.structural
  {
  }

  /** So the backend is asked at most once per entry, once more, and twice per instruction while the
      thresholds stand. */
  lemma RechecksBounded(pd: Profile, k: Counts, hot: nat, changes: nat, codeLen: nat)
    requires CountsOk(pd, k, hot, changes, codeLen)
    ensures k.rechecks <= pd.entryCount + 1 + (2 + changes) * codeLen
  {
    TotalBound(k.rearms, 2 + changes);
  }

  /** Tiers only move away from the interpreter. */
  ghost predicate OneWay(before: Profiles, after: Profiles) {
    forall p :: p in before ==> p in after && (before[p].tier != Interp ==> after[p].tier == before[p].tier)
  }

  /** A profile as it is, or as it is before anything was counted. */
  function Seen(ps: Profiles, p: nat, verdict: Compilability): Profile {
    if p in ps then ps[p] else Profile(0, [], verdict, Interp, false, 0, Unasked)
  }

  /** Back-edge counts, zero before any was taken. */
  function Counted(pd: Profile, n: nat): (r: seq<nat>)
    ensures |r| == n
  {
    if |pd.backEdge| == n then pd.backEdge else seq(n, _ => 0)
  }

  // ---- what an event should make of a profile ----

  function Floor(backend: Backend): nat {
    if backend.Backend? && backend.minLen > 0 then backend.minLen else MIN_PROMOTABLE_LEN
  }

  /** Short, and not exempted by an earlier or a present answer. */
  predicate TooShort(pd: Profile, proto: Proto, backend: Backend, ans: Answers) {
    && proto.codeLen < Floor(backend)
    && !(backend.Backend? && backend.hasExempter
      && (pd.floorExempt == Exempt || (pd.floorExempt == Unasked && ans.exempts)))
  }

  /** The exemption question is asked once, and only where it matters. */
  function Asked(pd: Profile, proto: Proto, backend: Backend, ans: Answers): Profile {
    if proto.codeLen < Floor(backend) && backend.Backend? && backend.hasExempter && pd.floorExempt == Unasked
    then pd.(floorExempt := if ans.exempts then Exempt else NotExempt) else pd
  }

  predicate Accepts(proto: Proto, backend: Backend, ans: Answers) {
    !proto.reasons.structural && backend.Backend? && ans.supports
  }

  /** The burned verdict may be out of date. */
  predicate Doubted(pd: Profile, proto: Proto, backend: Backend, forceAll: bool) {
    pd.comp != Compilable && (forceAll || (backend.Backend? && proto.reasons.placeholder))
  }

  predicate AskedThisEntry(pd: Profile) {
    pd.recheckedAtEntry == pd.entryCount + 1
  }

  function Reexamined(pd: Profile, proto: Proto, backend: Backend, ans: Answers): Profile {
    pd.(recheckedAtEntry := pd.entryCount + 1, comp := if Accepts(proto, backend, ans) then Compilable else pd.comp)
  }

  /** Why an interpreted prototype stays, sticks or moves up. */
  datatype Verdict = Waits | Excluded | Declined | Failed | Promoted

  function Judged(entryCount: nat, compilable: bool, backend: Backend, forceAll: bool, ans: Answers): Verdict {
    if !compilable then (if forceAll && entryCount < RETRY_WINDOW then Waits else Excluded)
    else if !forceAll && backend.Backend? && backend.hasGater && !ans.worth then Declined
    else if backend.Backend? && ans.compiles then Promoted else Failed
  }

  /** The five ways it can go. */
  lemma JudgedExactly(entryCount: nat, compilable: bool, backend: Backend, forceAll: bool, ans: Answers)
    ensures var v := Judged(entryCount, compilable, backend, forceAll, ans);
      var again, compiled := forceAll && entryCount < 64, backend.Backend? && ans.compiles;
      var declined := !forceAll && backend.Backend? && backend.hasGater && !ans.worth;
      && (v == Waits <==> !compilable && again) && (v == Excluded <==> !compilable && !again)
      && (v == Declined <==> compilable && declined) && (v == Failed <==> compilable && !declined && !compiled)
      && (v == Promoted <==> compilable && !declined && compiled)
  {
  }

  function Ruled(pd: Profile, v: Verdict): Profile {
    if v == Waits then pd else pd.(tier := if v == Promoted then Gibbous else Stuck, compileTried := true)
  }

  /** The decision itself, after another look at the prototype when there is doubt. */
  function Concluded(pd: Profile, proto: Proto, backend: Backend, forceAll: bool, doubted: bool, ans: Answers)
    : Profile
  {
    var q := if doubted then Reexamined(pd, proto, backend, ans) else pd;
    Ruled(q, Judged(q.entryCount, q.comp == Compilable, backend, forceAll, ans))
  }

  function Considered(pd: Profile, proto: Proto, backend: Backend, forceAll: bool, onMain: bool,
                      ans: Answers): Profile {
    var doubted := Doubted(pd, proto, backend, forceAll);
    if pd.tier != Interp || !onMain || (doubted && AskedThisEntry(pd)) then pd
    else Concluded(pd, proto, backend, forceAll, doubted, ans)
  }

  /** What a hook past its threshold does. */
  function Triggered(pd: Profile, proto: Proto, backend: Backend, forceAll: bool, onMain: bool, ans: Answers): Profile {
    if forceAll then Considered(pd, proto, backend, forceAll, onMain, ans)
    else if TooShort(pd, proto, backend, ans) then Asked(pd, proto, backend, ans)
    else Considered(Asked(pd, proto, backend, ans), proto, backend, forceAll, onMain, ans)
  }

  /** One more passage of a back edge; its first and its hot one allow a fresh look. */
  function Passed(pd: Profile, n: nat, pc: int, hot: nat): Profile {
    var q := pd.(backEdge := Counted(pd, n));
    if !(0 <= pc < n) then q
    else
      var hits := q.backEdge[pc] + 1;
      var r := q.(backEdge := q.backEdge[pc := hits]);
      if hits == 1 || hits == hot
      then r.(recheckedAtEntry := 0, floorExempt := if r.floorExempt == NotExempt then Unasked else r.floorExempt)
        else r
  }

  /** The switches and thresholds an event is judged under. */
  datatype Settings = Settings(backend: Backend, forceAll: bool, tierOff: bool, hotEntry: nat, hotBackEdge: nat)

  function Entered(was: Profile, proto: Proto, c: Settings, onMain: bool, ans: Answers): Profile {
    var counted := was.(entryCount := was.entryCount + 1);
    if c.tierOff || was.tier != Interp then was
    else if counted.entryCount >= c.hotEntry || c.forceAll
      then Triggered(counted, proto, c.backend, c.forceAll, onMain, ans)
    else counted
  }

  function Jumped(was: Profile, proto: Proto, c: Settings, pc: int, onMain: bool, ans: Answers): Profile {
    if c.tierOff || was.tier != Interp then was
    else
      PassedFrame(was, proto.codeLen, pc, c.hotBackEdge);
      var counted := Passed(was, proto.codeLen, pc, c.hotBackEdge);
      if 0 <= pc < proto.codeLen && (counted.backEdge[pc] >= c.hotBackEdge || c.forceAll)
      then Triggered(counted, proto, c.backend, c.forceAll, onMain, ans) else counted
  }

  /** The promotion decision has the backend look at a prototype again: interpreted, on the main thread,
      its burned verdict doubted, and not asked about in this entry. */
  predicate LooksAgain(pd: Profile, proto: Proto, backend: Backend, forceAll: bool, onMain: bool) {
    pd.tier == Interp && onMain && Doubted(pd, proto, backend, forceAll) && !AskedThisEntry(pd)
  }

  /** So does a hook past its threshold, unless the floor keeps the prototype out. */
  predicate AsksAnew(pd: Profile, proto: Proto, backend: Backend, forceAll: bool, onMain: bool, ans: Answers) {
    LooksAgain(pd, proto, backend, forceAll, onMain) && (forceAll || !TooShort(pd, proto, backend, ans))
  }

  predicate EntryAsks(was: Profile, proto: Proto, c: Settings, onMain: bool, ans: Answers) {
    var counted := was.(entryCount := was.entryCount + 1);
    && !c.tierOff && was.tier == Interp && (c.forceAll || counted.entryCount >= c.hotEntry)
    && AsksAnew(counted, proto, c.backend, c.forceAll, onMain, ans)
  }

  predicate JumpAsks(was: Profile, proto: Proto, c: Settings, pc: int, onMain: bool, ans: Answers) {
    && !c.tierOff && was.tier == Interp && 0 <= pc < proto.codeLen
    && (c.forceAll || Counted(was, proto.codeLen)[pc] + 1 >= c.hotBackEdge)
    && AsksAnew(Passed(was, proto.codeLen, pc, c.hotBackEdge), proto, c.backend, c.forceAll, onMain, ans)
  }

  /** A passage counts one at its own instruction and nothing anywhere else. */
  lemma PassedFrame(pd: Profile, n: nat, pc: int, hot: nat)
    ensures var q := Passed(pd, n, pc, hot);
      && |q.backEdge| == n && q.tier == pd.tier && q.entryCount == pd.entryCount && q.comp == pd.comp
      && forall i :: 0 <= i < n ==> q.backEdge[i] == Counted(pd, n)[i] + Reached(i == pc)
  {
  }

  /** A trigger promotes exactly when all of this holds: main thread; forced, or long enough or
      exempt; called compilable, or doubted, not yet asked about in this entry and accepted by the
      backend; forced, or worth it; and it compiles. */
  lemma PromotedExactly(pd: Profile, proto: Proto, backend: Backend, forceAll: bool, onMain: bool, ans: Answers)
    requires pd.tier == Interp
    ensures var exempted := pd.floorExempt == Exempt || (pd.floorExempt == Unasked && ans.exempts);
      Triggered(pd, proto, backend, forceAll, onMain, ans).tier == Gibbous <==>
      && onMain && backend.Backend? && ans.compiles
      && (forceAll || ClearsFloor(proto, backend, exempted))
      && (forceAll || !backend.hasGater || ans.worth)
      && (pd.comp == Compilable ||
            (&& (forceAll || proto.reasons.placeholder) && pd.recheckedAtEntry != pd.entryCount + 1
             && !proto.reasons.structural && ans.supports))
  {
  }

  /** Long enough, 10 instructions unless the backend says how many, or exempted. */
  predicate ClearsFloor(proto: Proto, backend: Backend, exempted: bool) {
    || proto.codeLen >= (if backend.Backend? && backend.minLen > 0 then backend.minLen else 10)
    || (backend.Backend? && backend.hasExempter && exempted)
  }

  /** It sticks the prototype to the interpreter exactly when it gets to the decision, and that is: not
      compilable, and not to be tried again because forced within the first 64 entries; not worth it,
      unless forced; or no compiled code. */
  lemma StuckExactly(pd: Profile, proto: Proto, backend: Backend, forceAll: bool, onMain: bool, ans: Answers)
    requires pd.tier == Interp
    ensures var doubted := pd.comp != Compilable && (forceAll || (backend.Backend? && proto.reasons.placeholder));
      var exempted := pd.floorExempt == Exempt || (pd.floorExempt == Unasked && ans.exempts);
      var compilable := pd.comp == Compilable ||
        (doubted && !proto.reasons.structural && backend.Backend? && ans.supports);
      Triggered(pd, proto, backend, forceAll, onMain, ans).tier == Stuck <==>
        && onMain && !(doubted && pd.recheckedAtEntry == pd.entryCount + 1)
        && (forceAll || ClearsFloor(proto, backend, exempted))
        && (if !compilable then !(forceAll && pd.entryCount < 64)
            else !backend.Backend? || !ans.compiles || (!forceAll && backend.hasGater && !ans.worth))
  {
  }

  /** An entry promotes exactly when tiers are on, it is forced or the entry makes the count reach the
      threshold, and the trigger promotes. */
  lemma EntryPromotes(was: Profile, proto: Proto, c: Settings, onMain: bool, ans: Answers)
    requires was.tier == Interp
    ensures var exempted := was.floorExempt == Exempt || (was.floorExempt == Unasked && ans.exempts);
      Entered(was, proto, c, onMain, ans).tier == Gibbous <==>
        && !c.tierOff && (c.forceAll || was.entryCount + 1 >= c.hotEntry)
        && onMain && c.backend.Backend? && ans.compiles && (c.forceAll || ClearsFloor(proto, c.backend, exempted))
        && (c.forceAll || !c.backend.hasGater || ans.worth)
        && (was.comp == Compilable ||
              (&& (c.forceAll || proto.reasons.placeholder) && was.recheckedAtEntry != was.entryCount + 2
               && !proto.reasons.structural && ans.supports))
  {
    hide Triggered, ClearsFloor;
    var counted := was.(entryCount := was.entryCount + 1);
    PromotedExactly(counted, proto, c.backend, c.forceAll, onMain, ans);
    assert counted.recheckedAtEntry == was.recheckedAtEntry && counted.tier == Interp;
  }

  /** What a trigger leaves on record of its questions: the floor's answer, asked for once and only below the
      floor; that the backend was asked in this entry; and what it said. */
  lemma TriggerRecords(pd: Profile, proto: Proto, backend: Backend, forceAll: bool, onMain: bool, ans: Answers)
    requires pd.tier == Interp
    ensures var q := Triggered(pd, proto, backend, forceAll, onMain, ans);
      var floor := if backend.Backend? && backend.minLen > 0 then backend.minLen else 10;
      var asks := !forceAll && proto.codeLen < floor && backend.Backend? && backend.hasExempter;
      var exempted := pd.floorExempt == Exempt || (pd.floorExempt == Unasked && ans.exempts);
      var looks := onMain && pd.comp != Compilable && pd.recheckedAtEntry != pd.entryCount + 1
        && (forceAll || ClearsFloor(proto, backend, exempted))
        && (forceAll || (backend.Backend? && proto.reasons.placeholder));
      var accepts := !proto.reasons.structural && backend.Backend? && ans.supports;
      && q.floorExempt == (if asks && pd.floorExempt == Unasked then (if ans.exempts then Exempt else NotExempt)
                           else pd.floorExempt)
      && q.recheckedAtEntry == (if looks then pd.entryCount + 1 else pd.recheckedAtEntry)
      && q.comp == (if looks && accepts then Compilable else pd.comp)
      && (q.compileTried <==> pd.compileTried || q.tier != Interp)
  {
  }

  /** An entry counts one, nothing with tiers off or outside the interpreter; below the threshold that is
      all it does. */
  lemma EntryFrame(was: Profile, proto: Proto, c: Settings, onMain: bool, ans: Answers)
    ensures var now := Entered(was, proto, c, onMain, ans);
      if c.tierOff || was.tier != Interp then now == was
      else
        && now.entryCount == was.entryCount + 1 && now.backEdge == was.backEdge
        && (!c.forceAll && was.entryCount + 1 < c.hotEntry ==> now == was.(entryCount := was.entryCount + 1))
  {
    TriggeredFrame(was.(entryCount := was.entryCount + 1), proto, c.backend, c.forceAll, onMain, ans);
    hide Triggered;
  }

  /** A back edge counts one at its own instruction, under the same switches. */
  lemma JumpFrame(was: Profile, proto: Proto, c: Settings, pc: int, onMain: bool, ans: Answers)
    ensures var now := Jumped(was, proto, c, pc, onMain, ans);
      if c.tierOff || was.tier != Interp then now == was
      else
        && now.entryCount == was.entryCount && |now.backEdge| == proto.codeLen
        && forall i :: 0 <= i < proto.codeLen ==>
             now.backEdge[i] == (if |was.backEdge| == proto.codeLen then was.backEdge[i] else 0) + Reached(i == pc)
  {
    PassedFrame(was, proto.codeLen, pc, c.hotBackEdge);
    TriggeredFrame(Passed(was, proto.codeLen, pc, c.hotBackEdge), proto, c.backend, c.forceAll, onMain, ans);
    hide Triggered, Passed;
  }

  /** A back edge likewise, by the count at its instruction; the first passage there and the one that
      reaches the threshold forget that the backend was asked in this entry, and that it exempted nothing. */
  lemma JumpPromotes(was: Profile, proto: Proto, c: Settings, pc: nat, onMain: bool, ans: Answers)
    requires was.tier == Interp && pc < proto.codeLen
    ensures var hits := 1 + if |was.backEdge| == proto.codeLen then was.backEdge[pc] else 0;
      var anew := hits == 1 || hits == c.hotBackEdge;
      var unasked := was.floorExempt == Unasked || (anew && was.floorExempt == NotExempt);
      Jumped(was, proto, c, pc, onMain, ans).tier == Gibbous <==>
        && !c.tierOff && (c.forceAll || hits >= c.hotBackEdge) && onMain && c.backend.Backend? && ans.compiles
        && (c.forceAll || ClearsFloor(proto, c.backend, was.floorExempt == Exempt || (unasked && ans.exempts)))
        && (c.forceAll || !c.backend.hasGater || ans.worth)
        && (was.comp == Compilable ||
              (&& (c.forceAll || proto.reasons.placeholder) && (anew || was.recheckedAtEntry != was.entryCount + 1)
               && !proto.reasons.structural && ans.supports))
  {
    PassedFrame(was, proto.codeLen, pc, c.hotBackEdge);
    PromotedExactly(Passed(was, proto.codeLen, pc, c.hotBackEdge), proto, c.backend, c.forceAll, onMain, ans);
    hide Triggered, ClearsFloor;
  }

  /** Off the main thread a trigger asks about the floor at most; what has left the interpreter, it
      leaves alone; and it counts nothing. */
  lemma TriggeredFrame(pd: Profile, proto: Proto, backend: Backend, forceAll: bool, onMain: bool, ans: Answers)
    ensures var q := Triggered(pd, proto, backend, forceAll, onMain, ans);
      && SameHeat(q, pd)
      && (!onMain ==> q.(floorExempt := pd.floorExempt) == pd)
      && (pd.tier != Interp ==> q.tier == pd.tier)
      && (q.tier != Interp && pd.tier == Interp ==> q.compileTried)
  {
  }

  class Bridge {
    const protos: seq<Proto>
    var profiles: Profiles
    var codes: set<nat>
    var backend: Backend
    var forceAll: bool
    var tierOff: bool
    var hotEntry: nat
    var hotBackEdge: nat
    var stuckNotCompilable: nat
    var stuckDeclined: nat
    var stuckCompileFailed: nat
    ghost var counts: map<nat, Counts>
    ghost var changes: nat

    ghost predicate Valid()
      reads this
    {
      && hotBackEdge > 0
      && ProfilesOk(profiles, counts, protos, hotBackEdge, changes)
      && Installed()
      && stuckNotCompilable + stuckDeclined + stuckCompileFailed == |StuckIn(profiles)|
    }

    function Under(): Settings
      reads this
    {
      Settings(backend, forceAll, tierOff, hotEntry, hotBackEdge)
    }

    /** Code is installed for exactly the promoted prototypes. */
    ghost predicate Installed()
      reads this
    {
      forall p :: p in codes <==> p in profiles && profiles[p].tier == Gibbous
    }

    /** How often the backend was asked to look at q again. */
    ghost function Asks(q: nat): nat
      reads this
    {
      if q in counts then counts[q].rechecks else 0
    }

    constructor (protos: seq<Proto>, backend: Backend)
      requires forall i :: 0 <= i < |protos| ==> Sound(protos[i])
      ensures Valid() && this.protos == protos && profiles == map[] && codes == {}
    {
      this.protos, this.backend := protos, backend;
      profiles, codes, counts, changes := map[], {}, map[], 0;
      forceAll, tierOff, hotEntry, hotBackEdge := false, false, HOT_ENTRY, HOT_BACK_EDGE;
      stuckNotCompilable, stuckDeclined, stuckCompileFailed := 0, 0, 0;
    }

    /** A prototype's profile, made on first sight from what was burned into it. */
    method ProfileOf(p: nat) returns (pd: Profile)
      requires Valid() && p < |protos| && Sound(protos[p])
      modifies `profiles, `counts
      ensures Valid() && pd == Seen(old(profiles), p, protos[p].verdict)
      ensures forall q :: Asks(q) == old(Asks(q))
      ensures profiles == old(profiles)[p := pd]
    {
      hide ProfilesOk, CountsOk;
      if p !in profiles {
        CountsNew(protos[p].verdict, hotBackEdge, changes, protos[p].codeLen);
        SameKeys(profiles, counts, protos, hotBackEdge, changes);
        PutProfile(profiles, counts, protos, hotBackEdge, changes, p,
          Profile(0, [], protos[p].verdict, Interp, false, 0, Unasked), Counts(0, seq(protos[p].codeLen, _ => 0)));
        pd := Profile(0, [], protos[p].verdict, Interp, false, 0, Unasked);
        counts := counts[p := Counts(0, seq(protos[p].codeLen, _ => 0))];
        profiles := profiles[p := pd];
        assert StuckIn(profiles) == StuckIn(old(profiles));
        return;
      }
      pd := profiles[p];
    }

    /** The short-prototype floor, unless the backend exempts this one; its answer is kept. */
    method FlooredOut(p: nat, ans: Answers) returns (floored: bool)
      requires Valid() && p in profiles && profiles[p].tier == Interp
      modifies `profiles
      ensures Valid() && p < |protos|
      ensures profiles == old(profiles)[p := Asked(old(profiles)[p], protos[p], backend, ans)]
      ensures floored <==> TooShort(old(profiles)[p], protos[p], backend, ans)
      ensures var was := old(profiles)[p].floorExempt;
        floored <==> !ClearsFloor(protos[p], backend, was == Exempt || (was == Unasked && ans.exempts))
    {
      hide ProfilesOk, CountsOk;
      GetProfile(profiles, counts, protos, hotBackEdge, changes, p);
      var pd := profiles[p];
      if protos[p].codeLen >= Floor(backend) {
        return false;
      }
      if !(backend.Backend? && backend.hasExempter) {
        return true;
      }
      if pd.floorExempt == Unasked {
        pd := pd.(floorExempt := if ans.exempts then Exempt else NotExempt);
        CountsSame(profiles[p], pd, counts[p], hotBackEdge, changes, protos[p].codeLen);
        PutProfile(profiles, counts, protos, hotBackEdge, changes, p, pd, counts[p]);
        Replaced(profiles, p, pd);
        profiles := profiles[p := pd];
      }
      return pd.floorExempt == NotExempt;
    }

    /** Asks the backend anew about a prototype only placeholder bits exclude. */
    method Recheck(p: nat, ans: Answers) returns (comp: Compilability)
      requires p < |protos|
      ensures comp == if Accepts(protos[p], backend, ans) then Compilable else NotCompilable
      ensures comp == Compilable <==> !protos[p].reasons.structural && backend.Backend? && ans.supports
    {
      if protos[p].reasons.structural {
        return NotCompilable;
      }
      if backend.NoBackend? || !ans.supports {
        return NotCompilable;
      }
      return Compilable;
    }

    /** One recheck, remembered for this entry. */
    method Reexamine(p: nat, ans: Answers) returns (comp: Compilability)
      requires Valid() && p in profiles && profiles[p].tier == Interp && !AskedThisEntry(profiles[p])
      requires profiles[p].comp != Compilable
      modifies `profiles, `counts
      ensures Valid() && p < |protos|
      ensures comp == if Accepts(protos[p], backend, ans) then Compilable else NotCompilable
      ensures profiles == old(profiles)[p := Reexamined(old(profiles)[p], protos[p], backend, ans)]
      ensures forall q :: Asks(q) == old(Asks(q)) + Reached(q == p)
    {
      hide ProfilesOk, CountsOk;
      GetProfile(profiles, counts, protos, hotBackEdge, changes, p);
      var pd := profiles[p];
      CountsRecheck(pd, counts[p], hotBackEdge, changes, protos[p].codeLen);
      pd := pd.(recheckedAtEntry := pd.entryCount + 1);
      ghost var pd1, k := pd, counts[p].(rechecks := counts[p].rechecks + 1);
      comp := Recheck(p, ans);
      if comp == Compilable {
        pd := pd.(comp := Compilable);
      }
      CountsSame(pd1, pd, k, hotBackEdge, changes, protos[p].codeLen);
      PutProfile(profiles, counts, protos, hotBackEdge, changes, p, pd, k);
      Replaced(profiles, p, pd);
      counts := counts[p := k];
      profiles := profiles[p := pd];
    }

    /** The promotion decision. */
    method ConsiderPromotion(p: nat, onMain: bool, ans: Answers)
      requires Valid() && p in profiles
      modifies this
      ensures Valid() && p < |protos|
      ensures backend == old(backend) && forceAll == old(forceAll) && tierOff == old(tierOff)
      ensures hotEntry == old(hotEntry) && hotBackEdge == old(hotBackEdge) && changes == old(changes)
      ensures profiles == old(profiles)[p := Considered(old(profiles)[p], protos[p], backend, forceAll, onMain, ans)]
      ensures forall q ::
        Asks(q) == old(Asks(q)) + Reached(q == p && LooksAgain(old(profiles)[p], protos[p], backend, forceAll, onMain))
    {
      hide ProfilesOk, CountsOk, StuckIn, Concluded, Bridge.Installed;
      GetProfile(profiles, counts, protos, hotBackEdge, changes, p);
      var pd := profiles[p];
      if pd.tier != Interp {
        return;
      }
      if !onMain {
        return;
      }
      var needsAutoRecheck := backend.Backend? && protos[p].reasons.placeholder;
      var doubted := pd.comp != Compilable && (forceAll || needsAutoRecheck);
      if doubted && pd.recheckedAtEntry == pd.entryCount + 1 {
        return;
      }
      Conclude(p, doubted, ans);
    }

    /** The decision, after another look when the burned verdict is doubted. */
    method Conclude(p: nat, doubted: bool, ans: Answers)
      requires Valid() && p in profiles && profiles[p].tier == Interp
      requires doubted ==> profiles[p].comp != Compilable && !AskedThisEntry(profiles[p])
      modifies `profiles, `counts, `codes, `stuckNotCompilable, `stuckDeclined, `stuckCompileFailed
      ensures Valid() && p < |protos|
      ensures profiles == old(profiles)[p := Concluded(old(profiles)[p], protos[p], backend, forceAll, doubted, ans)]
      ensures forall q :: Asks(q) == old(Asks(q)) + Reached(q == p && doubted)
    {
      hide ProfilesOk, CountsOk, StuckIn, Judged, Ruled, Accepts, Bridge.Installed;
      GetProfile(profiles, counts, protos, hotBackEdge, changes, p);
      var comp := profiles[p].comp;
      if doubted {
        comp := Reexamine(p, ans);
      }
      Decide(p, comp, ans);
    }

    /** What becomes of an interpreted prototype with this verdict. */
    method Decide(p: nat, comp: Compilability, ans: Answers)
      requires Valid() && p in profiles && profiles[p].tier == Interp
      requires comp == Compilable <==> profiles[p].comp == Compilable
      modifies `profiles, `codes, `stuckNotCompilable, `stuckDeclined, `stuckCompileFailed
      ensures Valid()
      ensures var v := Judged(old(profiles)[p].entryCount, comp == Compilable, backend, forceAll, ans);
        && profiles == old(profiles)[p := Ruled(old(profiles)[p], v)]
        && codes == (if v == Promoted then old(codes) + {p} else old(codes))
        && stuckNotCompilable == old(stuckNotCompilable) + Reached(v == Excluded)
        && stuckDeclined == old(stuckDeclined) + Reached(v == Declined)
        && stuckCompileFailed == old(stuckCompileFailed) + Reached(v == Failed)
      ensures var again := forceAll && old(profiles)[p].entryCount < 64;
        var declined := !forceAll && backend.Backend? && backend.hasGater && !ans.worth;
        var compiled := backend.Backend? && ans.compiles;
        && stuckNotCompilable == old(stuckNotCompilable) + (if comp != Compilable && !again then 1 else 0)
        && stuckDeclined == old(stuckDeclined) + (if comp == Compilable && declined then 1 else 0)
        && stuckCompileFailed ==
           old(stuckCompileFailed) + (if comp == Compilable && !declined && !compiled then 1 else 0)
        && (p in codes <==> p in old(codes) || (comp == Compilable && !declined && compiled))
        && profiles[p].tier == if comp != Compilable then (if again then Interp else Stuck)
                               else if !declined && compiled then Gibbous else Stuck
    {
      hide ProfilesOk, CountsOk, StuckIn, Judged;
      JudgedExactly(profiles[p].entryCount, comp == Compilable, backend, forceAll, ans);
      GetProfile(profiles, counts, protos, hotBackEdge, changes, p);
      var pd := profiles[p];
      if comp != Compilable {
        if forceAll && pd.entryCount < RETRY_WINDOW {
          return;
        }
        Stick(p, pd);
        stuckNotCompilable := stuckNotCompilable + 1;
        return;
      }
      if !forceAll {
        if backend.Backend? && backend.hasGater && !ans.worth {
          Stick(p, pd);
          stuckDeclined := stuckDeclined + 1;
          return;
        }
      }
      pd := pd.(compileTried := true);
      if backend.NoBackend? || !ans.compiles {
        Stick(p, pd);
        stuckCompileFailed := stuckCompileFailed + 1;
        return;
      }
      Install(p, pd);
    }

    method Install(p: nat, pd: Profile)
      requires Valid() && p in profiles && p < |protos| && profiles[p].tier == Interp && SameCounters(profiles[p], pd)
      requires !protos[p].reasons.structural
      modifies `profiles, `codes
      ensures Valid() && profiles == old(profiles)[p := pd.(tier := Gibbous)] && codes == old(codes) + {p}
    {
      hide ProfilesOk, CountsOk, StuckIn;
      GetProfile(profiles, counts, protos, hotBackEdge, changes, p);
      CountsSame(profiles[p], pd.(tier := Gibbous), counts[p], hotBackEdge, changes, protos[p].codeLen);
      PutProfile(profiles, counts, protos, hotBackEdge, changes, p, pd.(tier := Gibbous), counts[p]);
      Replaced(profiles, p, pd.(tier := Gibbous));
      codes := codes + {p};
      profiles := profiles[p := pd.(tier := Gibbous)];
    }

    method Stick(p: nat, pd: Profile)
      requires p in profiles && profiles[p].tier == Interp && pd.tier == Interp && SameCounters(profiles[p], pd)
      requires pd.comp == profiles[p].comp
      requires ProfilesOk(profiles, counts, protos, hotBackEdge, changes)
      modifies `profiles
      ensures profiles == old(profiles)[p := pd.(tier := Stuck, compileTried := true)]
      ensures ProfilesOk(profiles, counts, protos, hotBackEdge, changes)
      ensures |StuckIn(profiles)| == |StuckIn(old(profiles))| + 1
    {
      hide ProfilesOk, CountsOk;
      GetProfile(profiles, counts, protos, hotBackEdge, changes, p);
      CountsSame(profiles[p], pd.(tier := Stuck, compileTried := true), counts[p], hotBackEdge, changes,
        protos[p].codeLen);
      PutProfile(profiles, counts, protos, hotBackEdge, changes, p, pd.(tier := Stuck, compileTried := true),
        counts[p]);
      profiles := profiles[p := pd.(tier := Stuck, compileTried := true)];
      assert StuckIn(profiles) == StuckIn(old(profiles)) + {p};
    }

    /** A function is entered. */
    method OnEnter(p: nat, onMain: bool, ans: Answers)
      requires Valid() && p < |protos| && Sound(protos[p])
      modifies this
      ensures Valid() && OneWay(old(profiles), profiles) && Under() == old(Under()) && changes == old(changes)
      ensures profiles ==
        old(profiles)[p := Entered(Seen(old(profiles), p, protos[p].verdict), protos[p], Under(), onMain, ans)]
      ensures var asks := EntryAsks(Seen(old(profiles), p, protos[p].verdict), protos[p], Under(), onMain, ans);
        forall q :: Asks(q) == old(Asks(q)) + Reached(q == p && asks)
    {
      hide ProfilesOk, CountsOk, StuckIn, Triggered, Passed, Bridge.Installed;
      var pd := ProfileOf(p);
      if tierOff {
        return;
      }
      if pd.tier != Interp {
        return;
      }
      var entries := CountEntry(p);
      if entries >= hotEntry || forceAll {
        PromoteUnlessFloored(p, onMain, ans);
      }
    }

    method CountEntry(p: nat) returns (entries: nat)
      requires Valid() && p in profiles && profiles[p].tier == Interp
      modifies `profiles
      ensures Valid() && entries == old(profiles)[p].entryCount + 1
      ensures profiles == old(profiles)[p := old(profiles)[p].(entryCount := entries)]
    {
      hide ProfilesOk, CountsOk;
      var pd := profiles[p];
      GetProfile(profiles, counts, protos, hotBackEdge, changes, p);
      CountsEnter(pd, counts[p], hotBackEdge, changes, protos[p].codeLen);
      pd := pd.(entryCount := pd.entryCount + 1);
      PutProfile(profiles, counts, protos, hotBackEdge, changes, p, pd, counts[p]);
      Replaced(profiles, p, pd);
      profiles := profiles[p := pd];
      entries := pd.entryCount;
    }

    /** What both sampling hooks do past their threshold. */
    method PromoteUnlessFloored(p: nat, onMain: bool, ans: Answers)
      requires Valid() && p in profiles && profiles[p].tier == Interp
      modifies this
      ensures Valid() && p < |protos|
      ensures backend == old(backend) && forceAll == old(forceAll) && tierOff == old(tierOff)
      ensures hotEntry == old(hotEntry) && hotBackEdge == old(hotBackEdge) && changes == old(changes)
      ensures profiles == old(profiles)[p := Triggered(old(profiles)[p], protos[p], backend, forceAll, onMain, ans)]
      ensures var asks := AsksAnew(old(profiles)[p], protos[p], backend, forceAll, onMain, ans);
        forall q :: Asks(q) == old(Asks(q)) + Reached(q == p && asks)
    {
      hide ProfilesOk, CountsOk, StuckIn;
      if !forceAll {
        var floored := FlooredOut(p, ans);
        if floored {
          return;
        }
      }
      ConsiderPromotion(p, onMain, ans);
    }

    /** A loop jumps back to pc. */
    method OnBackEdge(p: nat, pc: int, onMain: bool, ans: Answers)
      requires Valid() && p < |protos| && Sound(protos[p])
      modifies this
      ensures Valid() && OneWay(old(profiles), profiles) && Under() == old(Under()) && changes == old(changes)
      ensures profiles ==
        old(profiles)[p := Jumped(Seen(old(profiles), p, protos[p].verdict), protos[p], Under(), pc, onMain, ans)]
      ensures var asks := JumpAsks(Seen(old(profiles), p, protos[p].verdict), protos[p], Under(), pc, onMain, ans);
        forall q :: Asks(q) == old(Asks(q)) + Reached(q == p && asks)
    {
      hide ProfilesOk, CountsOk, StuckIn, Triggered, Passed, Bridge.Installed;
      var pd := ProfileOf(p);
      if tierOff {
        return;
      }
      if pd.tier != Interp {
        return;
      }
      PassedFrame(pd, protos[p].codeLen, pc, hotBackEdge);
      var hits := CountBackEdge(p, pc);
      if hits > 0 && (hits >= hotBackEdge || forceAll) {
        PromoteUnlessFloored(p, onMain, ans);
      }
    }

    /** Counts a back edge, 0 when pc is none of this prototype's. Its first and its hot passage
        allow one more recheck and one more exemption question. */
    method CountBackEdge(p: nat, pc: int) returns (hits: nat)
      requires Valid() && p in profiles && profiles[p].tier == Interp
      modifies `profiles, `counts
      ensures Valid() && p < |protos|
      ensures hits == if 0 <= pc < protos[p].codeLen then Counted(old(profiles)[p], protos[p].codeLen)[pc] + 1 else 0
      ensures profiles == old(profiles)[p := Passed(old(profiles)[p], protos[p].codeLen, pc, hotBackEdge)]
      ensures forall q :: Asks(q) == old(Asks(q))
    {
      hide ProfilesOk, CountsOk;
      GetProfile(profiles, counts, protos, hotBackEdge, changes, p);
      var pd := profiles[p];
      EdgesSized(pd, counts[p], hotBackEdge, changes, protos[p].codeLen);
      ghost var k := PassedCounts(pd, counts[p], hotBackEdge, changes, protos[p].codeLen, pc);
      if pd.backEdge == [] {
        pd := pd.(backEdge := seq(protos[p].codeLen, _ => 0));
      }
      hits := 0;
      if 0 <= pc < |pd.backEdge| {
        hits := pd.backEdge[pc] + 1;
        pd := pd.(backEdge := pd.backEdge[pc := hits]);
        if hits == 1 || hits == hotBackEdge {
          pd := pd.(recheckedAtEntry := 0);
          if pd.floorExempt == NotExempt {
            pd := pd.(floorExempt := Unasked);
          }
        }
      }
      PutProfile(profiles, counts, protos, hotBackEdge, changes, p, pd, k);
      Replaced(profiles, p, pd);
      counts := counts[p := k];
      profiles := profiles[p := pd];
    }

    /** What a call looks up: installed code, unless tiers are switched off. */
    function GibbousCodeOf(p: nat): bool
      reads this
    {
      !tierOff && p in codes
    }

    method SetForceAll(on: bool)
      requires Valid()
      modifies `forceAll
      ensures Valid() && forceAll == on
    {
      forceAll := on;
    }

    method SetTierEnabled(enabled: bool)
      requires Valid()
      modifies `tierOff
      ensures Valid() && tierOff == !enabled
      ensures forall p :: GibbousCodeOf(p) <==> enabled && p in profiles && profiles[p].tier == Gibbous
    {
      tierOff := !enabled;
    }

    method SetHotThresholds(entry: nat, backEdge: nat)
      requires Valid()
      modifies `hotEntry, `hotBackEdge, `changes
      ensures Valid() && changes == old(changes) + 1
      ensures hotEntry == (if entry > 0 then entry else old(hotEntry))
      ensures hotBackEdge == (if backEdge > 0 then backEdge else old(hotBackEdge))
    {
      ThresholdsMoved(profiles, counts, protos, hotBackEdge, if backEdge > 0 then backEdge else hotBackEdge, changes);
      hide ProfilesOk, CountsOk;
      if entry > 0 {
        hotEntry := entry;
      }
      if backEdge > 0 {
        hotBackEdge := backEdge;
      }
      changes := changes + 1;
    }
  }

  lemma Replaced(ps: Profiles, p: nat, pd: Profile)
    requires p in ps && ps[p].tier != Stuck && pd.tier != Stuck
    ensures StuckIn(ps[p := pd]) == StuckIn(ps)
  {
  }

  // ---- whole runs ----

  datatype Event =
    | Enter(p: nat, onMain: bool, ans: Answers)
    | BackEdge(p: nat, pc: int, onMain: bool, ans: Answers)
    | ForceAll(on: bool)
    | TierEnabled(on: bool)
    | Thresholds(entry: nat, backEdge: nat)

  /** Profiles and settings after an event, from its data alone. */
  function Next(ps: Profiles, c: Settings, protos: seq<Proto>, e: Event): (Profiles, Settings) {
    if e.Enter? && e.p < |protos| then
      (ps[e.p := Entered(Seen(ps, e.p, protos[e.p].verdict), protos[e.p], c, e.onMain, e.ans)], c)
    else if e.BackEdge? && e.p < |protos| then
      (ps[e.p := Jumped(Seen(ps, e.p, protos[e.p].verdict), protos[e.p], c, e.pc, e.onMain, e.ans)], c)
    else if e.ForceAll? then (ps, c.(forceAll := e.on))
    else if e.TierEnabled? then (ps, c.(tierOff := !e.on))
    else if e.Thresholds? then
      (ps, c.(hotEntry := if e.entry > 0 then e.entry else c.hotEntry,
              hotBackEdge := if e.backEdge > 0 then e.backEdge else c.hotBackEdge))
    else (ps, c)
  }

  function After(ps: Profiles, c: Settings, protos: seq<Proto>, es: seq<Event>): (Profiles, Settings) {
    if es == [] then (ps, c)
    else var (ps', c') := After(ps, c, protos, es[..|es| - 1]); Next(ps', c', protos, es[|es| - 1])
  }

  /** The event may move prototype p up: it is its own, on the main thread, with tiers on and a
      backend that compiles it, and forced or past its threshold. */
  predicate MayPromote(ps: Profiles, c: Settings, protos: seq<Proto>, e: Event, p: nat)
    requires p < |protos|
  {
    var was := Seen(ps, p, protos[p].verdict);
    && (e.Enter? || e.BackEdge?) && e.p == p && e.onMain && !c.tierOff && c.backend.Backend? && e.ans.compiles
    && (c.forceAll || e.ans.worth || !c.backend.hasGater)
    && (e.Enter? ==> c.forceAll || was.entryCount + 1 >= c.hotEntry)
    && (e.BackEdge? ==>
          && 0 <= e.pc < protos[p].codeLen
          && (c.forceAll || Counted(was, protos[p].codeLen)[e.pc] + 1 >= c.hotBackEdge))
  }

  lemma StepHasCause(ps: Profiles, c: Settings, protos: seq<Proto>, e: Event, p: nat)
    requires p < |protos| && (p in ps ==> ps[p].tier != Gibbous)
    requires var ps' := Next(ps, c, protos, e).0; p in ps' && ps'[p].tier == Gibbous
    ensures MayPromote(ps, c, protos, e, p)
  {
    var was := Seen(ps, p, protos[p].verdict);
    if e.Enter? {
      PromotedExactly(was.(entryCount := was.entryCount + 1), protos[p], c.backend, c.forceAll, e.onMain, e.ans);
    } else if e.BackEdge? {
      PassedFrame(was, protos[p].codeLen, e.pc, c.hotBackEdge);
      PromotedExactly(Passed(was, protos[p].codeLen, e.pc, c.hotBackEdge), protos[p], c.backend, c.forceAll,
        e.onMain, e.ans);
    }
    hide Triggered;
  }

  /** No promotion without a cause: behind a prototype promoted in a run there is one event that may
      promote it, at a moment when it was not promoted yet. */
  lemma {:induction false} PromotionHasCause(ps: Profiles, c: Settings, protos: seq<Proto>, es: seq<Event>, p: nat)
    returns (k: nat)
    requires p < |protos| && (p in ps ==> ps[p].tier != Gibbous)
    requires var ps' := After(ps, c, protos, es).0; p in ps' && ps'[p].tier == Gibbous
    ensures k < |es|
    ensures var (psk, ck) := After(ps, c, protos, es[..k]);
      (p in psk ==> psk[p].tier != Gibbous) && MayPromote(psk, ck, protos, es[k], p)
    decreases |es|
  {
    hide Next, MayPromote;
    var init := es[..|es| - 1];
    var (ps1, c1) := After(ps, c, protos, init);
    if p in ps1 && ps1[p].tier == Gibbous {
      k := PromotionHasCause(ps, c, protos, init, p);
      assert init[..k] == es[..k];
    } else {
      StepHasCause(ps1, c1, protos, es[|es| - 1], p);
      k := |es| - 1;
    }
  }

  // ---- how often the backend is asked ----

  /** So an event has the backend look at prototype p again. */
  predicate Rechecks(ps: Profiles, c: Settings, protos: seq<Proto>, e: Event, p: nat)
    requires p < |protos|
  {
    var was := Seen(ps, p, protos[p].verdict);
    if e.Enter? then e.p == p && EntryAsks(was, protos[p], c, e.onMain, e.ans)
    else e.BackEdge? && e.p == p && JumpAsks(was, protos[p], c, e.pc, e.onMain, e.ans)
  }

  function RechecksIn(ps: Profiles, c: Settings, protos: seq<Proto>, es: seq<Event>, p: nat): nat
    requires p < |protos|
  {
    if es == [] then 0
    else
      var (ps', c') := After(ps, c, protos, es[..|es| - 1]);
      RechecksIn(ps, c, protos, es[..|es| - 1], p) + Reached(Rechecks(ps', c', protos, es[|es| - 1], p))
  }

  lemma TriggeredCounts(pd: Profile, proto: Proto, backend: Backend, forceAll: bool, onMain: bool, ans: Answers,
                        k: Counts, hot: nat, changes: nat, n: nat)
    requires CountsOk(pd, k, hot, changes, n)
    ensures var asks := AsksAnew(pd, proto, backend, forceAll, onMain, ans);
      CountsOk(Triggered(pd, proto, backend, forceAll, onMain, ans), k.(rechecks := k.rechecks + Reached(asks)),
               hot, changes, n)
  {
    var q := Triggered(pd, proto, backend, forceAll, onMain, ans);
    if AsksAnew(pd, proto, backend, forceAll, onMain, ans) {
      CountsRecheck(pd, k, hot, changes, n);
      var pd' := pd.(recheckedAtEntry := pd.entryCount + 1);
      assert SameCounters(pd', q);
      CountsSame(pd', q, k.(rechecks := k.rechecks + 1), hot, changes, n);
    } else {
      assert SameCounters(pd, q);
      CountsSame(pd, q, k, hot, changes, n);
    }
    hide CountsOk;
  }

  /** One event keeps a prototype's counts in order, its recheck counted. */
  lemma StepCounts(ps: Profiles, c: Settings, protos: seq<Proto>, e: Event, p: nat, k: Counts, changes: nat)
    returns (k': Counts)
    requires p < |protos| && c.hotBackEdge > 0
    requires CountsOk(Seen(ps, p, protos[p].verdict), k, c.hotBackEdge, changes, protos[p].codeLen)
    ensures var (ps', c') := Next(ps, c, protos, e);
      && k'.rechecks == k.rechecks + Reached(Rechecks(ps, c, protos, e, p)) && c'.hotBackEdge > 0
      && CountsOk(Seen(ps', p, protos[p].verdict), k', c'.hotBackEdge,
                  changes + (if e.Thresholds? then 1 else 0), protos[p].codeLen)
  {
    var was, n, hot := Seen(ps, p, protos[p].verdict), protos[p].codeLen, c.hotBackEdge;
    k' := k;
    if (e.Enter? || e.BackEdge?) && e.p == p && !c.tierOff && was.tier == Interp {
      if e.Enter? {
        k' := EnterCounts(was, protos[p], c, e.onMain, e.ans, k, changes);
      } else {
        k' := JumpCounts(was, protos[p], c, e.pc, e.onMain, e.ans, k, changes);
      }
    } else if e.Thresholds? {
      CountsLater(was, k, hot, Next(ps, c, protos, e).1.hotBackEdge, changes, n);
    }
    hide CountsOk, Triggered, AsksAnew, Passed;
  }

  lemma CountsLater(pd: Profile, k: Counts, hot: nat, hot': nat, changes: nat, n: nat)
    requires CountsOk(pd, k, hot, changes, n)
    ensures CountsOk(pd, k, hot', changes + 1, n)
  {
  }

  lemma EnterCounts(was: Profile, proto: Proto, c: Settings, onMain: bool, ans: Answers, k: Counts, changes: nat)
    returns (k': Counts)
    requires CountsOk(was, k, c.hotBackEdge, changes, proto.codeLen) && !c.tierOff && was.tier == Interp
    ensures CountsOk(Entered(was, proto, c, onMain, ans), k', c.hotBackEdge, changes, proto.codeLen)
    ensures k'.rechecks == k.rechecks + Reached(EntryAsks(was, proto, c, onMain, ans))
  {
    hide CountsOk, Triggered, AsksAnew;
    CountsEnter(was, k, c.hotBackEdge, changes, proto.codeLen);
    var counted := was.(entryCount := was.entryCount + 1);
    k' := k;
    if counted.entryCount >= c.hotEntry || c.forceAll {
      TriggeredCounts(counted, proto, c.backend, c.forceAll, onMain, ans, k, c.hotBackEdge, changes, proto.codeLen);
      k' := k.(rechecks := k.rechecks + Reached(AsksAnew(counted, proto, c.backend, c.forceAll, onMain, ans)));
    }
  }

  lemma PassedCounts(was: Profile, k: Counts, hot: nat, changes: nat, n: nat, pc: int) returns (k': Counts)
    requires CountsOk(was, k, hot, changes, n) && hot > 0
    ensures CountsOk(Passed(was, n, pc, hot), k', hot, changes, n) && k'.rechecks == k.rechecks
  {
    k' := k;
    EdgesSized(was, k, hot, changes, n);
    var q := was.(backEdge := Counted(was, n));
    if was.backEdge == [] {
      CountsAllocated(was, k, hot, changes, n);
      assert q == was.(backEdge := seq(n, _ => 0)) || n == 0;
    }
    assert CountsOk(q, k, hot, changes, n);
    if 0 <= pc < n {
      CountsBackEdge(q, k, hot, changes, n, pc);
      var hits := q.backEdge[pc] + 1;
      if hits == 1 || hits == hot {
        k' := k.(rearms := k.rearms[pc := k.rearms[pc] + 1]);
        var r := q.(backEdge := q.backEdge[pc := hits]).(recheckedAtEntry := 0);
        CountsSame(r, Passed(was, n, pc, hot), k', hot, changes, n);
      }
    }
    hide CountsOk;
  }

  lemma JumpCounts(was: Profile, proto: Proto, c: Settings, pc: int, onMain: bool, ans: Answers, k: Counts,
                   changes: nat)
    returns (k': Counts)
    requires CountsOk(was, k, c.hotBackEdge, changes, proto.codeLen) && !c.tierOff && was.tier == Interp
    requires c.hotBackEdge > 0
    ensures CountsOk(Jumped(was, proto, c, pc, onMain, ans), k', c.hotBackEdge, changes, proto.codeLen)
    ensures k'.rechecks == k.rechecks + Reached(JumpAsks(was, proto, c, pc, onMain, ans))
  {
    PassedFrame(was, proto.codeLen, pc, c.hotBackEdge);
    hide CountsOk, Triggered, AsksAnew, Passed;
    k' := PassedCounts(was, k, c.hotBackEdge, changes, proto.codeLen, pc);
    var counted := Passed(was, proto.codeLen, pc, c.hotBackEdge);
    if 0 <= pc < proto.codeLen && (counted.backEdge[pc] >= c.hotBackEdge || c.forceAll) {
      TriggeredCounts(counted, proto, c.backend, c.forceAll, onMain, ans, k', c.hotBackEdge, changes, proto.codeLen);
      k' := k'.(rechecks := k'.rechecks + Reached(AsksAnew(counted, proto, c.backend, c.forceAll, onMain, ans)));
    }
  }

  lemma {:induction false} RunCounts(ps: Profiles, c: Settings, protos: seq<Proto>, es: seq<Event>, p: nat, k: Counts,
                                     changes: nat)
    returns (k': Counts)
    requires p < |protos| && c.hotBackEdge > 0
    requires CountsOk(Seen(ps, p, protos[p].verdict), k, c.hotBackEdge, changes, protos[p].codeLen)
    ensures var (ps', c') := After(ps, c, protos, es);
      && k'.rechecks == k.rechecks + RechecksIn(ps, c, protos, es, p) && c'.hotBackEdge > 0
      && CountsOk(Seen(ps', p, protos[p].verdict), k', c'.hotBackEdge, changes + ThresholdEvents(es), protos[p].codeLen)
    decreases |es|
  {
    hide CountsOk, Next, Rechecks, Seen;
    k' := k;
    if es != [] {
      var init := es[..|es| - 1];
      k' := RunCounts(ps, c, protos, init, p, k, changes);
      var (ps1, c1) := After(ps, c, protos, init);
      k' := StepCounts(ps1, c1, protos, es[|es| - 1], p, k', changes + ThresholdEvents(init));
    }
  }

  /** Over any events, from a prototype never seen before: the backend looks at it at most once per entry,
      once more, and per instruction twice and once for every change of thresholds. */
  lemma RunRechecks(ps: Profiles, c: Settings, protos: seq<Proto>, es: seq<Event>, p: nat)
    requires p < |protos| && c.hotBackEdge > 0 && p !in ps
    ensures RechecksIn(ps, c, protos, es, p) <=
      Seen(After(ps, c, protos, es).0, p, protos[p].verdict).entryCount + 1
      + (2 + ThresholdEvents(es)) * protos[p].codeLen
  {
    hide After, RechecksIn, ThresholdEvents, CountsOk;
    var n := protos[p].codeLen;
    CountsNew(protos[p].verdict, c.hotBackEdge, 0, n);
    var k := RunCounts(ps, c, protos, es, p, Counts(0, seq(n, _ => 0)), 0);
    var (ps', c') := After(ps, c, protos, es);
    RechecksBounded(Seen(ps', p, protos[p].verdict), k, c'.hotBackEdge, ThresholdEvents(es), n);
  }

  function ThresholdEvents(es: seq<Event>): nat {
    if es == [] then 0 else ThresholdEvents(es[..|es| - 1]) + (if es[|es| - 1].Thresholds? then 1 else 0)
  }

  /** After any events: the backend was asked about each prototype at most entries + 1 + (2 + threshold
      changes) * length times; tiers moved one way; code is installed for exactly the promoted
      prototypes, none of them structurally excluded; the three counters count the stuck ones. Profiles
      and settings follow from the events alone. */
  method Run(b: Bridge, events: seq<Event>)
    requires b.Valid() && forall i :: 0 <= i < |b.protos| ==> Sound(b.protos[i])
    modifies b
    ensures b.Valid() && OneWay(old(b.profiles), b.profiles) && b.Installed()
    ensures (b.profiles, b.Under()) == After(old(b.profiles), old(b.Under()), b.protos, events)
    ensures b.changes == old(b.changes) + ThresholdEvents(events)
    ensures forall p :: p in b.codes ==> p < |b.protos| && !b.protos[p].reasons.structural
    ensures forall p :: p in b.profiles ==> p < |b.protos| && p in b.counts
    ensures b.stuckNotCompilable + b.stuckDeclined + b.stuckCompileFailed == |StuckIn(b.profiles)|
    ensures forall p: nat :: p < |b.protos| ==>
      b.Asks(p) == old(b.Asks(p)) + RechecksIn(old(b.profiles), old(b.Under()), b.protos, events, p)
    ensures forall p :: p in b.profiles ==>
      b.counts[p].rechecks <= b.profiles[p].entryCount + 1 + (2 + b.changes) * b.protos[p].codeLen
  {
    hide CountsOk, Next, Rechecks;
    var k := 0;
    while k < |events|
      invariant 0 <= k <= |events| && b.Valid() && OneWay(old(b.profiles), b.profiles)
      invariant b.changes == old(b.changes) + ThresholdEvents(events[..k])
      invariant (b.profiles, b.Under()) == After(old(b.profiles), old(b.Under()), b.protos, events[..k])
      invariant forall p: nat :: p < |b.protos| ==>
        b.Asks(p) == old(b.Asks(p)) + RechecksIn(old(b.profiles), old(b.Under()), b.protos, events[..k], p)
    {
      assert events[..k + 1][..k] == events[..k];
      Handle(b, events[k]);
      k := k + 1;
    }
    assert events[..k] == events;
    forall p | p in b.profiles
      ensures p in b.counts && p < |b.protos|
      ensures b.counts[p].rechecks <= b.profiles[p].entryCount + 1 + (2 + b.changes) * b.protos[p].codeLen
    {
      GetProfile(b.profiles, b.counts, b.protos, b.hotBackEdge, b.changes, p);
      RechecksBounded(b.profiles[p], b.counts[p], b.hotBackEdge, b.changes, b.protos[p].codeLen);
    }
  }

  method Handle(b: Bridge, e: Event)
    requires b.Valid() && forall i :: 0 <= i < |b.protos| ==> Sound(b.protos[i])
    modifies b
    ensures b.Valid() && OneWay(old(b.profiles), b.profiles)
    ensures (b.profiles, b.Under()) == Next(old(b.profiles), old(b.Under()), b.protos, e)
    ensures forall p: nat :: p < |b.protos| ==>
      b.Asks(p) == old(b.Asks(p)) + Reached(Rechecks(old(b.profiles), old(b.Under()), b.protos, e, p))
    ensures b.changes == old(b.changes) + if e.Thresholds? then 1 else 0
  {
    hide CountsOk, Entered, Jumped, EntryAsks, JumpAsks;
    if e.Enter? {
      if e.p < |b.protos| { b.OnEnter(e.p, e.onMain, e.ans); }
    } else if e.BackEdge? {
      if e.p < |b.protos| { b.OnBackEdge(e.p, e.pc, e.onMain, e.ans); }
    } else if e.ForceAll? {
      b.SetForceAll(e.on);
    } else if e.TierEnabled? {
      b.SetTierEnabled(e.on);
    } else {
      b.SetHotThresholds(e.entry, e.backEdge);
    }
  }
}
