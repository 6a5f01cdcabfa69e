/** Calls, returns and varargs on the value stack (internal/crescent/frame.go:68-205,
    internal/crescent/call.go:107-263, 415-450, internal/crescent/state.go:1904-1941). */
module CallFrames {
  import opened Values
  import opened FramePacking
  import opened FrameStack

  const MAX_LUA_CALL_DEPTH: nat := 20000

  /** What a call needs of a function's prototype. */
  datatype Proto = Proto(numParams: nat, isVararg: bool, maxStack: nat)

  /** What is found in the called slot. */
  datatype Callee = LuaFunction(pid: nat, cl: nat, proto: Proto) | HostFunction | NotFunction

  datatype CallResult = Entered | StackOverflow | NotCallable | HostInLuaFrame

  // ---- what a call is to leave ----

  function Args(stack: seq<Value>, funcIdx: nat, nargs: nat): (r: seq<Value>)
    requires funcIdx + 1 + nargs <= |stack|
    ensures |r| == nargs
  {
    stack[funcIdx + 1..funcIdx + 1 + nargs]
  }

  /** The arguments past the declared parameters, kept by a vararg function only. */
  function Extras(args: seq<Value>, p: Proto): seq<Value> {
    if p.isVararg && |args| > p.numParams then args[p.numParams..] else []
  }

  /** n values: those given, then nil. */
  function Padded(vs: seq<Value>, n: nat): (r: seq<Value>)
    ensures |r| == n
  {
    seq(n, i => if 0 <= i < |vs| then vs[i] else Nil)
  }

  lemma PaddedIs(vs: seq<Value>, n: nat)
    ensures n <= |vs| ==> Padded(vs, n) == vs[..n]
    ensures n >= |vs| ==> Padded(vs, n)[..|vs|] == vs && forall i :: |vs| <= i < n ==> Padded(vs, n)[i] == Nil
  {
  }

  /** The first n of the values, then nil. */
  function Registers(args: seq<Value>, p: Proto): (r: seq<Value>)
    requires p.numParams <= p.maxStack
    ensures |r| == p.maxStack
  {
    seq(p.maxStack, i => if 0 <= i < p.numParams && i < |args| then args[i] else Nil)
  }

  /** The varargs a frame finds below its base: as many as its 16-bit count says. */
  function Varargs(stack: seq<Value>, base: nat, n: nat): seq<Value>
    requires n <= base <= |stack|
  {
    stack[base - n..base]
  }

  /** The stack with the extra arguments in front of the declared ones. */
  function Reshuffled(stack: seq<Value>, funcIdx: nat, numFixed: nat, nVarargs: nat): (r: seq<Value>)
    requires funcIdx + 1 + numFixed + nVarargs <= |stack|
    ensures |r| == |stack|
  {
    var a := funcIdx + 1;
    stack[..a] + stack[a + numFixed..a + numFixed + nVarargs] + stack[a..a + numFixed]
      + stack[a + numFixed + nVarargs..]
  }

  /** n values moved from src down to dst. */
  function MovedDown(s: seq<Value>, dst: nat, src: nat, n: nat): (r: seq<Value>)
    requires dst <= src && src + n <= |s|
    ensures |r| == |s|
  {
    s[..dst] + s[src..src + n] + s[dst + n..]
  }

  /** n values moved up by `up` slots. */
  function MovedUp(s: seq<Value>, at: nat, up: nat, n: nat): (r: seq<Value>)
    requires at + up + n <= |s|
    ensures |r| == |s|
  {
    s[..at + up] + s[at..at + n] + s[at + up + n..]
  }

  function CopiedIn(s: seq<Value>, lo: nat, vs: seq<Value>): (r: seq<Value>)
    requires lo + |vs| <= |s|
    ensures |r| == |s|
  {
    s[..lo] + vs + s[lo + |vs|..]
  }

  lemma DownStep(s: seq<Value>, dst: nat, src: nat, k: nat)
    requires dst <= src && src + k < |s|
    ensures var m := MovedDown(s, dst, src, k);
      m[src + k] == s[src + k] && m[dst + k := s[src + k]] == MovedDown(s, dst, src, k + 1)
  {
  }

  lemma UpStep(s: seq<Value>, at: nat, up: nat, n: nat, k: nat)
    requires at + up + n <= |s| && k < n
    ensures var m := MovedUp(s, at + (k + 1), up, n - (k + 1));
      m[at + k] == s[at + k] && m[at + k + up := s[at + k]] == MovedUp(s, at + k, up, n - k)
  {
  }

  lemma UpNone(s: seq<Value>, at: nat, up: nat)
    requires at + up <= |s|
    ensures MovedUp(s, at, up, 0) == s
  {
  }

  lemma CopyStep(s: seq<Value>, lo: nat, vs: seq<Value>, k: nat)
    requires lo + |vs| <= |s| && k < |vs|
    ensures CopiedIn(s, lo, vs[..k])[lo + k := vs[k]] == CopiedIn(s, lo, vs[..k + 1])
  {
  }

  method SetSlot(a: array<Value>, i: nat, v: Value)
    requires i < a.Length
    modifies a
    ensures a[..] == old(a[..])[i := v]
  {
    a[i] := v;
  }

  /** Slot by slot, from low to high. */
  method MoveDown(a: array<Value>, dst: nat, src: nat, n: nat)
    requires dst <= src && src + n <= a.Length
    modifies a
    ensures a[..] == MovedDown(old(a[..]), dst, src, n)
  {
    ghost var was := a[..];
    assert MovedDown(was, dst, src, 0) == was;
    hide MovedDown;
    var k := 0;
    while k < n
      invariant 0 <= k <= n && a[..] == MovedDown(was, dst, src, k)
    {
      DownStep(was, dst, src, k);
      SetSlot(a, dst + k, a[src + k]);
      k := k + 1;
    }
  }

  /** The same upwards, from high to low. */
  method MoveUp(a: array<Value>, at: nat, up: nat, n: nat)
    requires at + up + n <= a.Length
    modifies a
    ensures a[..] == MovedUp(old(a[..]), at, up, n)
  {
    ghost var was := a[..];
    hide MovedUp;
    UpNone(was, at + n, up);
    var k := n;
    while k > 0
      invariant 0 <= k <= n && a[..] == MovedUp(was, at + k, up, n - k)
    {
      UpStep(was, at, up, n, k - 1);
      k := k - 1;
      SetSlot(a, at + k + up, a[at + k]);
    }
  }

  method CopyIn(a: array<Value>, lo: nat, vs: seq<Value>)
    requires lo + |vs| <= a.Length
    modifies a
    ensures a[..] == CopiedIn(old(a[..]), lo, vs)
  {
    ghost var was := a[..];
    assert CopiedIn(was, lo, vs[..0]) == was;
    hide CopiedIn;
    var k := 0;
    while k < |vs|
      invariant 0 <= k <= |vs| && a[..] == CopiedIn(was, lo, vs[..k])
    {
      CopyStep(was, lo, vs, k);
      SetSlot(a, lo + k, vs[k]);
      k := k + 1;
    }
    assert vs[..k] == vs;
  }

  /** `want` values from the n at `from`, padded with nil. */
  method CopyPadded(a: array<Value>, from: nat, n: nat, to: nat, want: nat)
    requires from + n <= to && to + want <= a.Length
    modifies a
    ensures a[..to] == old(a[..to]) && a[to..to + want] == Padded(old(a[from..from + n]), want)
  {
    ghost var vs := a[from..from + n];
    ghost var low := a[..to];
    var k := 0;
    while k < want
      invariant 0 <= k <= want && a[..to] == low
      invariant a[to..to + k] == Padded(vs, k)
    {
      assert k < n ==> a[from + k] == a[..to][from + k] == low[from + k] == vs[k];
      a[to + k] := if k < n then a[from + k] else Nil;
      k := k + 1;
      assert a[to..to + k] == a[to..to + k - 1] + [a[to + k - 1]];
      assert Padded(vs, k) == Padded(vs, k - 1) + [if k - 1 < n then vs[k - 1] else Nil];
    }
  }

  method FillNil(a: array<Value>, lo: nat, hi: nat)
    requires hi <= a.Length
    modifies a
    ensures a[..] == Nilled(old(a[..]), lo, hi)
  {
    ghost var was := a[..];
    var i := lo;
    while i < hi
      invariant lo <= i && (i <= hi || i == lo)
      invariant forall j :: 0 <= j < a.Length ==> a[j] == (if lo <= j < i then Nil else was[j])
    {
      a[i] := Nil;
      i := i + 1;
    }
  }

  /** The stack with nils at lo..hi. */
  function Nilled(stack: seq<Value>, lo: nat, hi: nat): (r: seq<Value>)
    ensures |r| == |stack|
  {
    seq(|stack|, i requires 0 <= i < |stack| => if lo <= i < hi then Nil else stack[i])
  }

  /** Moves the extra arguments below the declared ones. */
  method Reshuffle(a: array<Value>, funcIdx: nat, numFixed: nat, nVarargs: nat)
    requires funcIdx + 1 + numFixed + nVarargs <= a.Length
    modifies a
    ensures a[..] == Reshuffled(old(a[..]), funcIdx, numFixed, nVarargs)
  {
    hide MovedUp, CopiedIn, Reshuffled;
    ghost var was := a[..];
    var buf := a[funcIdx + 1 + numFixed..funcIdx + 1 + numFixed + nVarargs];
    MoveUp(a, funcIdx + 1, nVarargs, numFixed);
    CopyIn(a, funcIdx + 1, buf);
    ReshuffledInTwo(was, funcIdx, numFixed, nVarargs);
  }

  lemma ReshuffledInTwo(s: seq<Value>, funcIdx: nat, n: nat, v: nat)
    requires funcIdx + 1 + n + v <= |s|
    ensures var f := funcIdx + 1;
      CopiedIn(MovedUp(s, f, v, n), f, s[f + n..f + n + v]) == Reshuffled(s, funcIdx, n, v)
  {
    var f := funcIdx + 1;
    var m := MovedUp(s, f, v, n);
    assert m[..f] == s[..f];
    assert m[f + v..] == s[f..f + n] + s[f + v + n..];
  }

  class LuaThread {
    const ci: FrameThread
    const protoOf: nat -> Proto
    var slots: array<Value>
    var top: nat
    var pendingHostFrames: nat
    var pendingTailDepth: nat

    constructor (stackCap: nat, ciCap: nat, protoOf: nat -> Proto)
      ensures Valid() && ci.Frames() == [] && fresh(ci) && fresh(ci.seg) && fresh(slots)
      ensures this.protoOf == protoOf && slots.Length == stackCap && top == 0
    {
      ci := new FrameThread(ciCap);
      slots := new Value[stackCap](_ => Int(0));
      this.protoOf := protoOf;
      top, pendingHostFrames, pendingTailDepth := 0, 0, 0;
    }

    ghost predicate Valid()
      reads this, ci, ci.seg, slots
    {
      ci.Valid() && top <= slots.Length && pendingHostFrames < P8 && pendingTailDepth < P8
    }

    /** Room for n slots; slots below top move along. */
    method EnsureStack(n: nat)
      requires top <= slots.Length
      modifies `slots
      ensures slots.Length >= n && slots.Length >= old(slots.Length)
      ensures if n <= old(slots.Length) then slots == old(slots)
              else fresh(slots) && slots.Length == Enlarged(old(slots.Length), n)
      ensures n > old(slots.Length) ==>
        slots.Length >= 2 * old(slots.Length) && slots.Length >= n + 8 && slots.Length in {2 * old(slots.Length), n + 8}
      ensures slots[..top] == old(slots[..top])
    {
      if n > slots.Length {
        var newCap := n + 8;
        if 2 * slots.Length > newCap {
          newCap := 2 * slots.Length;
        }
        var s := new Value[newCap](_ => Int(0));
        var i := 0;
        while i < top
          invariant 0 <= i <= top && slots == old(slots) && slots[..] == old(slots[..])
          invariant s[..i] == slots[..i]
        {
          s[i] := slots[i];
          i := i + 1;
        }
        slots := s;
      }
    }

    /** Enters a Lua function: its extra arguments go below the base, its declared ones and nils
        fill its registers, and a frame for it is pushed. */
    method EnterLuaFrame(funcIdx: nat, nargs: nat, nresults: int, entry: bool, callee: Callee, depthRoom: nat)
      returns (r: CallResult)
      requires Valid() && funcIdx + 1 + nargs <= top && Fits(nresults, P16)
      requires callee.LuaFunction? ==>
        && callee.pid < P32 && callee.cl < P64 && callee.proto.numParams <= callee.proto.maxStack
        && 2 * (funcIdx + 1 + nargs + callee.proto.maxStack) < P32
      modifies this`slots, this`top, this`pendingHostFrames, this`pendingTailDepth, slots, ci, ci.seg
      ensures Valid() && (slots == old(slots) || fresh(slots)) && (ci.seg == old(ci.seg) || fresh(ci.seg))
      ensures r == (if old(ci.ciDepth) >= 20000 + depthRoom then StackOverflow
                    else if callee.NotFunction? then NotCallable
                    else if callee.HostFunction? then HostInLuaFrame else Entered)
      ensures r != Entered ==>
        slots == old(slots) && slots[..] == old(slots[..]) && ci.Frames() == old(ci.Frames()) && top == old(top)
      ensures r == Entered ==>
        var args, p := Args(old(slots[..]), funcIdx, nargs), callee.proto;
        var base, hf, td := funcIdx + 1 + |Extras(args, p)|, old(pendingHostFrames), old(pendingTailDepth);
        && ci.Frames() == old(ci.Frames()) + [NewFrame(funcIdx, |Extras(args, p)|, nresults, entry, callee, hf, td)]
        && top == base + p.maxStack
        && Laid(slots[..], old(slots[..]), funcIdx, args, p)
        && pendingHostFrames == 0 && pendingTailDepth == 0
      ensures r == Entered ==>
        var n := ExtraCount(callee.proto, nargs);
        && ci.Frames() == old(ci.Frames()) + [ci.cur] && top == ci.cur.base + callee.proto.maxStack
        && Starts(ci.cur, funcIdx, n, nresults, entry, false, callee, old(pendingHostFrames), old(pendingTailDepth))
        && LaidOut(slots[..], old(slots[..]), funcIdx, funcIdx, nargs, n, callee.proto)
    {
      hide Unpack, FramesOf, Typed, InField, Reshuffled, Nilled, SegOk, LaidOut, Laid, Extras;
      if ci.ciDepth >= MAX_LUA_CALL_DEPTH + depthRoom {
        return StackOverflow;
      }
      if callee.NotFunction? {
        return NotCallable;
      }
      if callee.HostFunction? {
        return HostInLuaFrame;
      }
      var p := callee.proto;
      var nVarargs := 0;
      if nargs > p.numParams && p.isVararg {
        nVarargs := nargs - p.numParams;
      }
      ghost var s0 := slots[..];
      ExtrasCounted(Args(s0, funcIdx, nargs), p);
      LayOut(funcIdx, nargs, nVarargs, p);
      EnteredLaid(slots[..], s0, funcIdx, nargs, p);
      var hf, td := pendingHostFrames, pendingTailDepth;
      pendingHostFrames, pendingTailDepth := 0, 0;
      var f := NewFrame(funcIdx, nVarargs, nresults, entry, callee, hf, td);
      NewFrameFits(funcIdx, nVarargs, nresults, entry, callee, hf, td);
      ci.Push(f);
      TopFrame(ci);
      top := funcIdx + 1 + nVarargs + p.maxStack;
      return Entered;
    }

    /** The stack work of entering a function. */
    method LayOut(funcIdx: nat, nargs: nat, nVarargs: nat, p: Proto)
      requires top <= slots.Length && funcIdx + 1 + nargs <= top && p.numParams <= p.maxStack
      requires nVarargs == |Extras(Args(slots[..], funcIdx, nargs), p)|
      modifies this`slots, slots
      ensures (slots == old(slots) || fresh(slots)) && slots.Length >= old(slots.Length)
      ensures funcIdx + 1 + nVarargs + p.maxStack <= slots.Length
      ensures Laid(slots[..], old(slots[..]), funcIdx, Args(old(slots[..]), funcIdx, nargs), p)
    {
      hide Reshuffled, Nilled;
      var numFixed := p.numParams;
      var base := funcIdx + 1 + nVarargs;
      var need := base + p.maxStack;
      ghost var s0 := slots[..];
      if need > slots.Length {
        EnsureStack(need);
      }
      ghost var s1 := slots[..];
      if nVarargs > 0 {
        Reshuffle(slots, funcIdx, numFixed, nVarargs);
      } else if nargs < numFixed {
        FillNil(slots, base + nargs, base + numFixed);
      }
      ghost var s2 := slots[..];
      FillNil(slots, base + numFixed, base + p.maxStack);
      LaidHolds(s0, s1, s2, slots[..], funcIdx, nargs, nVarargs, p);
    }

    /** All n values below base to r, and the top after them. */
    method AllVarargs(base: nat, n: nat, r: nat)
      requires n <= base <= top <= slots.Length && base <= r
      modifies this`slots, this`top, slots
      ensures (slots == old(slots) || fresh(slots)) && slots.Length >= old(slots.Length)
      ensures slots[..base] == old(slots[..base])
      ensures top == r + n <= slots.Length && slots[r..r + n] == Varargs(old(slots[..]), base, n)
    {
      hide CopiedIn;
      ghost var s0 := slots[..];
      var need := r + n;
      if need > slots.Length {
        EnsureStack(need);
      }
      ghost var s1 := slots[..];
      var vals := slots[base - n..base];
      CopyIn(slots, r, vals);
      VarargHolds(s0, s1, slots[..], top, base, n, r);
      top := need;
    }

    /** VARARG: the frame's extra arguments into registers from `a` on; all of them and a new top
        when b is 0, else b - 1 registers padded with nil. */
    method DoVararg(a: nat, b: nat)
      requires Valid() && ci.ciDepth > 0 && 0 <= ci.cur.base <= top && ci.cur.nVarargs <= ci.cur.base
      requires b > 0 ==> ci.cur.base + a + b - 1 <= slots.Length
      modifies this`slots, this`top, slots
      ensures Valid() && (slots == old(slots) || fresh(slots)) && slots.Length >= old(slots.Length)
      ensures ci.cur == old(ci.cur)
      ensures var base, r := ci.cur.base, ci.cur.base + a;
        var vs := old(slots[..])[base - ci.cur.nVarargs..base];
        && slots[..base] == old(slots[..base])
        && (b == 0 ==> top == r + |vs| && r + |vs| <= slots.Length && slots[r..r + |vs|] == vs)
        && (b > 0 ==> top == old(top) && slots[r..r + b - 1] == Padded(vs, b - 1))
    {
      hide CopiedIn, Padded;
      var n, base := ci.cur.nVarargs, ci.cur.base;
      var vbase := base - n;
      ghost var vs := Varargs(slots[..], base, n);
      ghost var s0 := slots[..];
      if b == 0 {
        AllVarargs(base, n, base + a);
        return;
      }
      CopyPadded(slots, vbase, n, base + a, b - 1);
      assert slots[..base] == slots[..base + a][..base] == s0[..base];
    }

    /** __call: the callee becomes the first argument. The caller then writes the handler at
        funcIdx. */
    method InsertCallSelf(funcIdx: nat, nargs: nat)
      requires Valid() && funcIdx + 1 + nargs <= top
      modifies this`slots, this`top, slots
      ensures Valid() && (slots == old(slots) || fresh(slots))
      ensures top >= funcIdx + 2 + nargs && slots[..funcIdx + 1] == old(slots[..funcIdx + 1])
      ensures Args(slots[..], funcIdx, nargs + 1) == [old(slots[funcIdx])] + Args(old(slots[..]), funcIdx, nargs)
    {
      hide MovedUp, Args;
      var need := funcIdx + 2 + nargs;
      ghost var s0 := slots[..];
      EnsureStack(need);
      ghost var s1 := slots[..];
      MoveUp(slots, funcIdx, 1, nargs + 1);
      CallSelfHolds(s0, s1, slots[..], top, funcIdx, nargs);
      if need > top {
        top := need;
      }
    }

    /** TAILCALL of a Lua function: callee and arguments slide down onto the present frame's
        callee, whose frame the new one replaces, inheriting what its caller expects. */
    method DoTailCall(a: nat, b: nat, callee: Callee, depthRoom: nat) returns (r: CallResult)
      requires Valid() && ci.ciDepth > 0 && callee.LuaFunction? && 0 <= ci.cur.funcIdx < ci.cur.base
      requires callee.pid < P32 && callee.cl < P64 && callee.proto.numParams <= callee.proto.maxStack
      requires ci.cur.base + a + (if b == 0 then 1 else b) <= top
      requires 2 * (top + callee.proto.maxStack) < P32
      modifies this`slots, this`top, this`pendingHostFrames, this`pendingTailDepth, slots, ci, ci.seg
      ensures Valid()
      ensures var was, dst, f := old(ci.cur), old(ci.cur).funcIdx, old(ci.cur).base + a;
        var nargs := if b == 0 then old(top) - f - 1 else b - 1;
        var args, p := Args(old(slots[..]), f, nargs), callee.proto;
        && (r == Entered || r == StackOverflow)
        && (r == StackOverflow <==> old(ci.ciDepth) > 20000 + depthRoom)
        && (r == Entered ==>
              && ci.Frames() == old(ci.Frames())[..old(ci.ciDepth) - 1]
                 + [NewFrame(dst, |Extras(args, p)|, was.nresults, was.entry, callee, was.hostFrames,
                             (was.tailDepth + 1) % P8).(tailcall := true)]
              && TopInSync(ci.seg[..], ci.ciDepth, ci.cur)
              && top == dst + 1 + |Extras(args, p)| + p.maxStack
              && Laid(slots[..], MovedDown(old(slots[..]), dst, f, nargs + 1), dst, args, p))
      ensures r == Entered ==>
        var was, f := old(ci.cur), old(ci.cur).base + a;
        var nargs := if b == 0 then old(top) - f - 1 else b - 1;
        var n := ExtraCount(callee.proto, nargs);
        && ci.Frames() == old(ci.Frames())[..old(ci.ciDepth) - 1] + [ci.cur]
        && top == ci.cur.base + callee.proto.maxStack
        && Starts(ci.cur, was.funcIdx, n, was.nresults, was.entry, true, callee, was.hostFrames,
                  (was.tailDepth + 1) % 256)
        && LaidOut(slots[..], old(slots[..]), was.funcIdx, f, nargs, n, callee.proto)
    {
      hide Unpack, FramesOf, InField, SegOk, Nilled, MovedDown, Laid, NewFrame, Extras, TopInSync, LaidOut, Starts;
      var funcIdx := ci.cur.base + a;
      var nargs := if b == 0 then top - funcIdx - 1 else b - 1;
      var dst := ci.cur.funcIdx;
      ghost var s0, fs := slots[..], ci.Frames();
      MoveDown(slots, dst, funcIdx, nargs + 1);
      SlidArgs(s0, dst, funcIdx, nargs);
      ghost var s1 := slots[..];
      var parentNRes, parentEntry := ci.cur.nresults, ci.cur.entry;
      var parentHostFrames, parentTailDepth := ci.cur.hostFrames, (ci.cur.tailDepth + 1) % P8;
      NResultsFit(ci.cur);
      var _ := ci.Pop();
      assert ci.Frames() == fs[..|fs| - 1];
      pendingHostFrames := parentHostFrames;
      pendingTailDepth := parentTailDepth;
      r := EnterLuaFrame(dst, nargs, parentNRes, parentEntry, callee, depthRoom);
      if r == Entered {
        SlidLaid(slots[..], s1, s0, dst, funcIdx, nargs, callee.proto);
        ghost var top := ci.cur;
        MarkTail();
        TopFrame(ci);
        StartsTail(top, dst, ExtraCount(callee.proto, nargs), parentNRes, parentEntry, callee, parentHostFrames,
                   parentTailDepth);
      }
    }

    /** The tail-call flag of the top frame, mirrored at once. */
    method MarkTail()
      requires Valid() && ci.ciDepth > 0
      modifies ci`cur, ci.seg
      ensures Valid() && |old(ci.Frames())| == ci.ciDepth && TopInSync(ci.seg[..], ci.ciDepth, ci.cur)
      ensures var fs := old(ci.Frames());
        ci.Frames() == fs[..|fs| - 1] + [fs[|fs| - 1].(tailcall := true)]
    {
      hide FramesOf, Typed, InField, SegOk, TopInSync;
      TopFrame(ci);
      TailFlagFits(ci.cur);
      ci.SetCur(ci.cur.(tailcall := true));
      ci.ReMirrorTop();
    }

    /** RETURN: the results replace the callee and its frame goes; as many as the caller wants,
        all of them when it wants -1. True when the interpreter loop that entered at entryDepth is
        done. */
    method DoReturn(a: nat, b: nat, entryDepth: nat) returns (terminate: bool)
      requires Valid() && ci.ciDepth > 0 && 0 <= ci.cur.funcIdx < ci.cur.base
      requires ci.cur.base + a + (if b == 0 then 0 else b - 1) <= slots.Length
      requires b == 0 ==> ci.cur.base + a <= top
      requires ci.cur.funcIdx + ci.cur.nresults <= slots.Length
      requires ci.ciDepth > 1 ==>
        var c := ci.Frames()[ci.ciDepth - 2]; 0 <= c.base && c.base + protoOf(c.protoID).maxStack <= slots.Length
      modifies this`top, slots, ci
      ensures Valid() && slots == old(slots) && ci.seg == old(ci.seg)
      ensures ci.Frames() + [old(ci.cur)] == old(ci.Frames())
      ensures terminate <==> ci.ciDepth <= entryDepth
      ensures var dst, src, want := old(ci.cur).funcIdx, old(ci.cur).base + a, old(ci.cur).nresults;
        var nret := if b == 0 then old(top) - src else b - 1;
        && slots[..dst] == old(slots[..dst])
        && (want < 0 ==> slots[dst..dst + nret] == old(slots[src..src + nret]) && top == dst + nret)
        && (want >= 0 ==>
              && slots[dst..dst + want] == Padded(old(slots[src..src + nret]), want)
              && top == if ci.ciDepth > 0 then ci.cur.base + protoOf(ci.cur.protoID).maxStack else dst + want)
    {
      hide Unpack, FramesOf, Typed, InField, SegOk, Nilled, Padded, MovedDown;
      var nret := if b == 0 then top - (ci.cur.base + a) else b - 1;
      var dst, src := ci.cur.funcIdx, ci.cur.base + a;
      ghost var s0 := slots[..];
      MoveDown(slots, dst, src, nret);
      var wantedN := ci.cur.nresults;
      LeaveFrame();
      ReturnedHolds(s0, slots[..], dst, src, nret, wantedN);
      terminate := Settle(dst, nret, wantedN, entryDepth);
    }

    /** The top frame goes; its caller's is the hot one. */
    method LeaveFrame()
      requires Valid() && ci.ciDepth > 0
      modifies ci
      ensures Valid() && ci.seg == old(ci.seg) && ci.ciDepth == old(ci.ciDepth) - 1
      ensures ci.Frames() + [old(ci.cur)] == old(ci.Frames())
      ensures ci.ciDepth > 0 ==> ci.cur == old(ci.Frames())[ci.ciDepth - 1]
    {
      hide Unpack, FramesOf, Typed, InField, SegOk;
      ghost var fs := ci.Frames();
      TopFrame(ci);
      var _ := ci.Pop();
      assert ci.ciDepth > 0 ==> ci.Frames()[ci.ciDepth - 1] == fs[ci.ciDepth - 1];
      TopFrame(ci);
    }

    /** The slots past the results and the top, once the frame is gone. */
    method Settle(dst: nat, nret: nat, wantedN: int, entryDepth: nat) returns (terminate: bool)
      requires dst + wantedN <= slots.Length && dst + nret <= slots.Length
      requires ci.ciDepth > 0 ==> 0 <= ci.cur.base && ci.cur.base + protoOf(ci.cur.protoID).maxStack <= slots.Length
      modifies this`top, slots
      ensures slots[..] == if wantedN < 0 then old(slots[..]) else Nilled(old(slots[..]), dst + nret, dst + wantedN)
      ensures top == (if wantedN < 0 then dst + nret
                      else if ci.ciDepth > 0 then ci.cur.base + protoOf(ci.cur.protoID).maxStack else dst + wantedN)
      ensures terminate <==> ci.ciDepth <= entryDepth
    {
      hide Nilled;
      if wantedN < 0 {
        top := dst + nret;
      } else {
        FillNil(slots, dst + nret, dst + wantedN);
        if ci.ciDepth > entryDepth {
          top := ci.cur.base + protoOf(ci.cur.protoID).maxStack;
        } else {
          top := dst + wantedN;
        }
      }
      if ci.ciDepth <= entryDepth {
        if wantedN >= 0 {
          if ci.ciDepth > 0 {
            top := ci.cur.base + protoOf(ci.cur.protoID).maxStack;
          } else {
            top := dst + wantedN;
          }
        }
        return true;
      }
      return false;
    }
  }

  lemma TopFrame(t: FrameThread)
    requires t.Valid()
    ensures t.ciDepth > 0 ==> t.Frames()[t.ciDepth - 1] == t.cur
  {
  }

  lemma SlidArgs(s: seq<Value>, dst: nat, src: nat, nargs: nat)
    requires dst <= src && src + nargs + 1 <= |s|
    ensures Args(MovedDown(s, dst, src, nargs + 1), dst, nargs) == Args(s, src, nargs)
  {
  }

  lemma NResultsFit(f: Frame)
    requires InField(f)
    ensures Fits(f.nresults, P16)
  {
  }

  lemma TailFlagFits(f: Frame)
    requires Typed(f) && InField(f)
    ensures Typed(f.(tailcall := true)) && InField(f.(tailcall := true))
  {
  }

  lemma CallSelfHolds(s0: seq<Value>, s1: seq<Value>, s2: seq<Value>, top: nat, funcIdx: nat, nargs: nat)
    requires funcIdx + 1 + nargs <= top <= |s0| && top <= |s1| && s1[..top] == s0[..top]
    requires funcIdx + 2 + nargs <= |s1| && s2 == MovedUp(s1, funcIdx, 1, nargs + 1)
    ensures s2[..funcIdx + 1] == s0[..funcIdx + 1]
    ensures Args(s2, funcIdx, nargs + 1) == [s0[funcIdx]] + Args(s0, funcIdx, nargs)
  {
    forall i | 0 <= i <= funcIdx + nargs ensures s1[i] == s0[i] {
      assert s1[..top][i] == s0[..top][i];
    }
  }

  lemma VarargHolds(s0: seq<Value>, s1: seq<Value>, s2: seq<Value>, top: nat, base: nat, n: nat, r: nat)
    requires n <= base <= top <= |s0| && top <= |s1| && s1[..top] == s0[..top] && base <= r && r + n <= |s1|
    requires s2 == CopiedIn(s1, r, s1[base - n..base])
    ensures s2[..base] == s0[..base] && s2[r..r + n] == Varargs(s0, base, n)
  {
    forall i | 0 <= i < base ensures s1[i] == s0[i] {
      assert s1[..top][i] == s0[..top][i];
    }
  }

  lemma ReturnedHolds(s0: seq<Value>, s1: seq<Value>, dst: nat, src: nat, nret: nat, want: int)
    requires dst <= src && src + nret <= |s0| && dst + want <= |s0|
    requires s1 == MovedDown(s0, dst, src, nret)
    ensures want < 0 ==> s1[..dst] == s0[..dst] && s1[dst..dst + nret] == s0[src..src + nret]
    ensures want >= 0 ==> var s2 := Nilled(s1, dst + nret, dst + want);
      s2[..dst] == s0[..dst] && s2[dst..dst + want] == Padded(s0[src..src + nret], want)
  {
  }

  /** VARARG in a frame just entered gives exactly the extra arguments of the call, as long as their
      number fits 16 bits; past that the frame's count no longer says how many there are. */
  lemma VarargsAreExtras(now: seq<Value>, was: seq<Value>, funcIdx: nat, args: seq<Value>, p: Proto)
    requires p.numParams <= p.maxStack && Laid(now, was, funcIdx, args, p)
    ensures var n := |Extras(args, p)|;
      Varargs(now, funcIdx + 1 + n, n % P16) == Extras(args, p) <==> n < P16
  {
    var n := |Extras(args, p)|;
    var base := funcIdx + 1 + n;
    if n < P16 {
      assert now[base - n..base] == now[funcIdx + 1..base];
    } else {
      assert |Varargs(now, base, n % P16)| == n % P16 < n;
    }
  }

  /** f(1, 1, ...) with 65536 arguments and no declared parameter: inside, `...` is empty. */
  method LostVarargs() returns (given: nat, received: seq<Value>)
    ensures given == P16 && received == []
  {
    hide Unpack, FramesOf, Typed, InField, SegOk, Laid;
    given := P16;
    var t := new LuaThread(given + 1, 1, _ => Proto(0, true, 1));
    forall i | 0 <= i <= given { t.slots[i] := Int(1); }
    t.top := given + 1;
    var r := t.EnterLuaFrame(0, given, 1, true, LuaFunction(0, 0, Proto(0, true, 1)), 0);
    assert r == Entered;
    TopFrame(t.ci);
    t.DoVararg(0, 0);
    received := t.slots[t.ci.cur.base..t.top];
  }

  /** How many arguments a function gets past its declared parameters: none unless it is vararg. */
  function ExtraCount(p: Proto, nargs: nat): nat {
    if p.isVararg && nargs > p.numParams then nargs - p.numParams else 0
  }

  lemma ExtrasCounted(args: seq<Value>, p: Proto)
    ensures |Extras(args, p)| == ExtraCount(p, |args|)
  {
  }

  /** A frame at its start, field by field: n extra arguments, counted in 16 bits, before its base, and 31
      tail calls at most on record. */
  ghost predicate Starts(f: Frame, funcIdx: nat, n: nat, nresults: int, entry: bool, tailcall: bool, callee: Callee,
                         hostFrames: nat, tailDepth: nat)
    requires callee.LuaFunction?
  {
    && f.funcIdx == funcIdx && f.base == funcIdx + 1 + n && f.top == f.base + callee.proto.numParams && f.pc == 0
    && f.protoID == callee.pid && f.cl == callee.cl && f.nVarargs == n % 65536
    && f.nresults == nresults && f.entry == entry && f.tailcall == tailcall && !f.gibbous
    && f.hostFrames == hostFrames && f.tailDepth == if tailDepth > 31 then 31 else tailDepth
  }

  lemma StartsTail(f: Frame, funcIdx: nat, n: nat, nresults: int, entry: bool, callee: Callee, hf: nat, td: nat)
    requires callee.LuaFunction? && Starts(f, funcIdx, n, nresults, entry, false, callee, hf, td)
    ensures Starts(f.(tailcall := true), funcIdx, n, nresults, entry, true, callee, hf, td)
  {
  }

  /** The stack then, slot by slot: callee and arguments came from src; below dst all as before, at dst the
      callee, then the n arguments past the declared ones, then the declared ones and nil in every other
      register. */
  ghost predicate LaidOut(now: seq<Value>, was: seq<Value>, dst: nat, src: nat, nargs: nat, n: nat, p: Proto) {
    && dst <= src && src + 1 + nargs <= |was| && dst + 1 + n + p.maxStack <= |now|
    && (n > 0 ==> p.numParams + n <= nargs)
    && now[..dst] == was[..dst] && now[dst] == was[src]
    && (n > 0 ==> now[dst + 1..dst + 1 + n] == was[src + 1 + p.numParams..src + 1 + p.numParams + n])
    && forall j :: dst + 1 + n <= j < dst + 1 + n + p.maxStack ==>
         var i := j - (dst + 1 + n);
         now[j] == if i < p.numParams && i < nargs then was[src + 1 + i] else Nil
  }

  lemma EnteredLaid(now: seq<Value>, was: seq<Value>, funcIdx: nat, nargs: nat, p: Proto)
    requires funcIdx + 1 + nargs <= |was| && p.numParams <= p.maxStack
    requires Laid(now, was, funcIdx, Args(was, funcIdx, nargs), p)
    ensures LaidOut(now, was, funcIdx, funcIdx, nargs, ExtraCount(p, nargs), p)
  {
    var args, n := Args(was, funcIdx, nargs), ExtraCount(p, nargs);
    var base := funcIdx + 1 + n;
    ExtrasCounted(args, p);
    assert now[..funcIdx] == now[..funcIdx + 1][..funcIdx] == was[..funcIdx];
    assert now[funcIdx] == now[..funcIdx + 1][funcIdx] == was[..funcIdx + 1][funcIdx];
    if n > 0 { assert args[p.numParams..] == was[funcIdx + 1 + p.numParams..funcIdx + 1 + nargs]; }
    hide Extras;
    forall j | base <= j < base + p.maxStack
      ensures now[j] == if j - base < p.numParams && j - base < nargs then was[funcIdx + 1 + (j - base)] else Nil
    {
      assert now[j] == now[base..base + p.maxStack][j - base] == Registers(args, p)[j - base];
    }
  }

  lemma SlidLaid(now: seq<Value>, slid: seq<Value>, was: seq<Value>, dst: nat, src: nat, nargs: nat, p: Proto)
    requires dst <= src && src + nargs + 1 <= |was| && slid == MovedDown(was, dst, src, nargs + 1)
    requires LaidOut(now, slid, dst, dst, nargs, ExtraCount(p, nargs), p)
    ensures LaidOut(now, was, dst, src, nargs, ExtraCount(p, nargs), p)
  {
    var n := ExtraCount(p, nargs);
    assert forall j :: dst <= j <= dst + nargs ==> slid[j] == was[src + (j - dst)];
    assert slid[..dst] == was[..dst];
    hide MovedDown;
    if n > 0 {
      assert slid[dst + 1 + p.numParams..dst + 1 + p.numParams + n]
        == was[src + 1 + p.numParams..src + 1 + p.numParams + n];
    }
  }

  /** The frame of a call: the vararg count is kept in 16 bits and the tail depth saturates. */
  function NewFrame(funcIdx: nat, nVarargs: nat, nresults: int, entry: bool, callee: Callee, hf: nat, td: nat): Frame
    requires callee.LuaFunction?
  {
    var base := funcIdx + 1 + nVarargs;
    Frame(base, funcIdx, base + callee.proto.numParams, 0, callee.pid, nresults, false, entry, false, hf,
      Saturated(td), callee.cl, nVarargs % P16)
  }

  lemma NewFrameFits(funcIdx: nat, nVarargs: nat, nresults: int, entry: bool, callee: Callee, hf: nat, td: nat)
    requires callee.LuaFunction? && callee.pid < P32 && callee.cl < P64 && Fits(nresults, P16) && hf < P8
    requires 2 * (funcIdx + 1 + nVarargs + callee.proto.numParams) < P32
    ensures var f := NewFrame(funcIdx, nVarargs, nresults, entry, callee, hf, td); Typed(f) && InField(f)
  {
  }

  /** The stack after entering: up to the callee as before, then the extra arguments, then the
      registers. */
  ghost predicate Laid(now: seq<Value>, was: seq<Value>, funcIdx: nat, args: seq<Value>, p: Proto)
    requires p.numParams <= p.maxStack
  {
    var base := funcIdx + 1 + |Extras(args, p)|;
    && base + p.maxStack <= |now| && funcIdx + 1 <= |was|
    && now[..funcIdx + 1] == was[..funcIdx + 1]
    && now[funcIdx + 1..base] == Extras(args, p)
    && now[base..base + p.maxStack] == Registers(args, p)
  }

  /** What the three moves of an entry make of a stack. */
  ghost predicate LaidFrom(s1: seq<Value>, s2: seq<Value>, s3: seq<Value>, args: seq<Value>, funcIdx: nat,
                           nVarargs: nat, p: Proto) {
    && p.numParams <= p.maxStack && nVarargs == |Extras(args, p)| && funcIdx + 1 + |args| <= |s1|
    && s1[funcIdx + 1..funcIdx + 1 + |args|] == args && funcIdx + 1 + nVarargs + p.maxStack <= |s1|
    && s2 == (if nVarargs > 0 then Reshuffled(s1, funcIdx, p.numParams, nVarargs)
              else if |args| < p.numParams then Nilled(s1, funcIdx + 1 + |args|, funcIdx + 1 + p.numParams) else s1)
    && s3 == Nilled(s2, funcIdx + 1 + nVarargs + p.numParams, funcIdx + 1 + nVarargs + p.maxStack)
  }

  lemma LaidBelow(s1: seq<Value>, s2: seq<Value>, s3: seq<Value>, args: seq<Value>, funcIdx: nat, nVarargs: nat,
                  p: Proto, i: nat)
    requires LaidFrom(s1, s2, s3, args, funcIdx, nVarargs, p) && i <= funcIdx
    ensures s3[i] == s1[i]
  {
  }

  lemma LaidExtra(s1: seq<Value>, s2: seq<Value>, s3: seq<Value>, args: seq<Value>, funcIdx: nat, nVarargs: nat,
                  p: Proto, i: nat)
    requires LaidFrom(s1, s2, s3, args, funcIdx, nVarargs, p) && i < nVarargs
    ensures s3[funcIdx + 1 + i] == Extras(args, p)[i]
  {
    assert s1[funcIdx + 1 + p.numParams + i] == s1[funcIdx + 1..funcIdx + 1 + |args|][p.numParams + i];
  }

  lemma LaidRegister(s1: seq<Value>, s2: seq<Value>, s3: seq<Value>, args: seq<Value>, funcIdx: nat, nVarargs: nat,
                     p: Proto, i: nat)
    requires LaidFrom(s1, s2, s3, args, funcIdx, nVarargs, p) && i < p.maxStack
    ensures s3[funcIdx + 1 + nVarargs + i] == Registers(args, p)[i]
  {
    if i < |args| && i < p.numParams {
      assert s1[funcIdx + 1 + i] == s1[funcIdx + 1..funcIdx + 1 + |args|][i];
    }
  }

  lemma LaidHolds(s0: seq<Value>, s1: seq<Value>, s2: seq<Value>, s3: seq<Value>, funcIdx: nat, nargs: nat,
                  nVarargs: nat, p: Proto)
    requires funcIdx + 1 + nargs <= |s0| <= |s1| && s1[..funcIdx + 1 + nargs] == s0[..funcIdx + 1 + nargs]
    requires p.numParams <= p.maxStack && nVarargs == |Extras(Args(s0, funcIdx, nargs), p)|
    requires funcIdx + 1 + nVarargs + p.maxStack <= |s1|
    requires s2 == if nVarargs > 0 then Reshuffled(s1, funcIdx, p.numParams, nVarargs)
      else if nargs < p.numParams then Nilled(s1, funcIdx + 1 + nargs, funcIdx + 1 + p.numParams) else s1
    requires s3 == Nilled(s2, funcIdx + 1 + nVarargs + p.numParams, funcIdx + 1 + nVarargs + p.maxStack)
    ensures Laid(s3, s0, funcIdx, Args(s0, funcIdx, nargs), p)
  {
    hide Reshuffled, Nilled, Registers, Extras;
    var args, f := Args(s0, funcIdx, nargs), funcIdx + 1;
    var k := f + nargs;
    assert s1[f..k] == s1[..k][f..k] == s0[..k][f..k] == args;
    forall i: nat | i < f ensures s3[i] == s0[i] {
      LaidBelow(s1, s2, s3, args, funcIdx, nVarargs, p, i);
      assert s1[..k][i] == s0[..k][i];
    }
    forall i: nat | i < nVarargs ensures s3[f + i] == Extras(args, p)[i] {
      LaidExtra(s1, s2, s3, args, funcIdx, nVarargs, p, i);
    }
    forall i: nat | i < p.maxStack ensures s3[f + nVarargs + i] == Registers(args, p)[i] {
      LaidRegister(s1, s2, s3, args, funcIdx, nVarargs, p, i);
    }
    assert s3[f..f + nVarargs] == Extras(args, p);
    assert s3[f + nVarargs..f + nVarargs + p.maxStack] == Registers(args, p);
    assert s3[..f] == s0[..f];
  }
}
