/** A thread's call frames (internal/crescent/state.go:1518-1661, 1765-1817,
    internal/crescent/frame.go:176-218, internal/crescent/call.go:94-105).

    Frames live packed in a segment that is replaced when it grows; the top frame lives in `cur`,
    which may be newer than its packed form. */
module FrameStack {
  import opened FramePacking

  const CI_WORDS: nat := 5

  /** The five words of frame d. */
  function At(seg: seq<nat>, d: nat): Words
    requires CI_WORDS * d + 5 <= |seg|
  {
    Words(seg[CI_WORDS * d], seg[CI_WORDS * d + 1], seg[CI_WORDS * d + 2], seg[CI_WORDS * d + 3], seg[CI_WORDS * d + 4])
  }

  /** A plain stack of frames: what the segment holds below the top, then cur. */
  ghost function FramesOf(seg: seq<nat>, depth: nat, cur: Frame): (fs: seq<Frame>)
    requires CI_WORDS * depth <= |seg|
    ensures |fs| == depth
  {
    seq(depth, d requires 0 <= d < depth => if d == depth - 1 then cur else Unpack(At(seg, d)))
  }

  ghost predicate SegOk(seg: seq<nat>, cap: nat) {
    |seg| == CI_WORDS * cap && forall i :: 0 <= i < |seg| ==> seg[i] < P64
  }

  lemma AtFits(seg: seq<nat>, cap: nat, d: nat)
    requires SegOk(seg, cap) && d < cap
    ensures Fit64(At(seg, d)) && Typed(Unpack(At(seg, d))) && InField(Unpack(At(seg, d)))
  {
    UnpackFits(At(seg, d));
  }

  /** The packed top frame is as new as cur. */
  ghost predicate TopInSync(seg: seq<nat>, depth: nat, cur: Frame)
    requires CI_WORDS * depth <= |seg|
  {
    depth > 0 ==> Unpack(At(seg, depth - 1)) == cur
  }

  /** The capacity a segment grows to: double it, or what is needed and eight more if that is more. */
  function Enlarged(cap: nat, need: nat): nat {
    if 2 * cap > need + 8 then 2 * cap else need + 8
  }

  class FrameThread {
    var seg: array<nat>
    var ciCap: nat
    var ciDepth: nat
    var cur: Frame

    constructor (cap: nat)
      ensures Valid() && fresh(seg) && Frames() == []
    {
      seg := new nat[CI_WORDS * cap](_ => 0);
      ciCap, ciDepth := cap, 0;
      cur := Frame(0, 0, 0, 0, 0, 0, false, false, false, 0, 0, 0, 0);
    }

    ghost predicate Valid()
      reads this, seg
    {
      && SegOk(seg[..], ciCap) && ciDepth <= ciCap
      && (ciDepth > 0 ==> Typed(cur) && InField(cur))
    }

    ghost function Frames(): (fs: seq<Frame>)
      reads this, seg
      requires Valid()
      ensures |fs| == ciDepth
    {
      FramesOf(seg[..], ciDepth, cur)
    }

    /** Packs a frame into the segment at a depth. */
    method WriteCISeg(d: nat, f: Frame)
      requires SegOk(seg[..], ciCap) && d < ciCap && Typed(f) && InField(f)
      modifies seg
      ensures SegOk(seg[..], ciCap) && Unpack(At(seg[..], d)) == f
      ensures forall e: nat :: e < ciCap && e != d ==> At(seg[..], e) == At(old(seg[..]), e)
    {
      PackFits(f);
      PackRoundTrip(f);
      var w := Pack(f);
      hide Pack, Unpack, Typed, InField;
      seg[CI_WORDS * d] := w.w0;
      seg[CI_WORDS * d + 1] := w.w1;
      seg[CI_WORDS * d + 2] := w.w2;
      seg[CI_WORDS * d + 3] := w.w3;
      seg[CI_WORDS * d + 4] := w.w4;
      assert At(seg[..], d) == w;
    }

    method ReadCISeg(d: nat) returns (f: Frame)
      requires SegOk(seg[..], ciCap) && d < ciCap
      ensures f == Unpack(At(seg[..], d)) && Typed(f) && InField(f)
    {
      AtFits(seg[..], ciCap, d);
      f := Unpack(Words(seg[CI_WORDS * d], seg[CI_WORDS * d + 1], seg[CI_WORDS * d + 2], seg[CI_WORDS * d + 3],
                        seg[CI_WORDS * d + 4]));
    }

    /** Moves the segment to a larger one, which nobody can see. */
    method GrowCISeg(need: nat)
      requires Valid()
      modifies `seg, `ciCap
      ensures Valid() && fresh(seg) && ciCap == Enlarged(old(ciCap), need)
      ensures ciCap >= 2 * old(ciCap) && ciCap >= need + 8 && (ciCap == 2 * old(ciCap) || ciCap == need + 8)
      ensures forall d: nat :: d < ciDepth ==> At(seg[..], d) == At(old(seg[..]), d)
      ensures Frames() == old(Frames())
    {
      var newCap := need + 8;
      if 2 * ciCap > newCap {
        newCap := 2 * ciCap;
      }
      var n := new nat[CI_WORDS * newCap](_ => 0);
      var copyFrames := if ciDepth > ciCap then ciCap else ciDepth;
      var w := 0;
      while w < copyFrames * CI_WORDS
        invariant 0 <= w <= copyFrames * CI_WORDS
        invariant seg == old(seg) && ciCap == old(ciCap) && seg[..] == old(seg[..])
        invariant forall i :: 0 <= i < w ==> n[i] == seg[i]
        invariant forall i :: w <= i < n.Length ==> n[i] == 0
      {
        n[w] := seg[w];
        w := w + 1;
      }
      seg, ciCap := n, newCap;
    }

    /** Flushes cur, makes room, and loads the new top frame. */
    method Push(f: Frame)
      requires Valid() && Typed(f) && InField(f)
      modifies this, seg
      ensures Valid() && (seg == old(seg) || fresh(seg))
      ensures Frames() == old(Frames()) + [f]
      ensures TopInSync(seg[..], ciDepth, cur)
    {
      hide Unpack, Typed, InField;
      ghost var fs := Frames();
      if ciDepth > 0 {
        WriteCISeg(ciDepth - 1, cur);
      }
      var depth := ciDepth;
      if depth >= ciCap {
        GrowCISeg(depth + 1);
      }
      ghost var s1 := seg[..];
      assert forall d: nat :: d < depth ==> Unpack(At(s1, d)) == fs[d];
      cur := f;
      ciDepth := depth + 1;
      WriteCISeg(depth, cur);
    }

    /** Takes the top frame off and reloads the one below from the segment. */
    method Pop() returns (f: Frame)
      requires Valid() && ciDepth > 0
      modifies this
      ensures Valid() && seg == old(seg)
      ensures f == old(cur) && old(Frames()) == Frames() + [f]
    {
      hide Unpack, Typed, InField;
      f := cur;
      ciDepth := ciDepth - 1;
      if ciDepth > 0 {
        cur := ReadCISeg(ciDepth - 1);
      }
    }

    /** The interpreter advances the top frame in place. */
    method SetCur(f: Frame)
      requires Valid() && ciDepth > 0 && Typed(f) && InField(f)
      modifies `cur
      ensures Valid() && Frames() == old(Frames())[ciDepth - 1 := f]
    {
      cur := f;
    }

    method ReMirrorTop()
      requires Valid()
      modifies seg
      ensures Valid() && Frames() == old(Frames()) && TopInSync(seg[..], ciDepth, cur)
    {
      hide Unpack, Typed, InField;
      if ciDepth > 0 {
        WriteCISeg(ciDepth - 1, cur);
      }
    }

    method CiAt(d: nat) returns (f: Frame)
      requires Valid() && d < ciDepth
      ensures f == Frames()[d]
    {
      if d == ciDepth - 1 {
        return cur;
      }
      f := ReadCISeg(d);
    }

    /** Drops frames down to a depth and reloads the top from the segment. That is plain truncation
        exactly when some frame is dropped, none is left, or the packed top was not behind cur. */
    method TruncateCI(n: nat)
      requires Valid() && n <= ciDepth
      modifies `ciDepth, `cur
      ensures Valid() && ciDepth == n
      ensures Frames() == old(Frames())[..n] <==> n < old(ciDepth) || n == 0 || TopInSync(seg[..], n, old(cur))
    {
      hide Typed, InField;
      ghost var was := Frames();
      ciDepth := n;
      if n > 0 {
        cur := ReadCISeg(n - 1);
        assert Frames()[n - 1] == cur && was[n - 1] == if n == old(ciDepth) then old(cur) else cur;
      }
    }

    /** The depth of the innermost frame that started an interpreter loop, 0 when there is none. */
    method EntryDepth() returns (d: nat)
      requires Valid()
      ensures (exists e: nat :: e < ciDepth && Frames()[e].entry) ==>
        d < ciDepth && Frames()[d].entry && forall e: nat :: d < e < ciDepth ==> !Frames()[e].entry
      ensures (forall e: nat :: e < ciDepth ==> !Frames()[e].entry) ==> d == 0
    {
      hide Unpack, Typed, InField;
      var i := ciDepth;
      while i > 0
        invariant i <= ciDepth
        invariant forall e: nat :: i <= e < ciDepth ==> !Frames()[e].entry
      {
        i := i - 1;
        var f := CiAt(i);
        if f.entry {
          return i;
        }
      }
      return 0;
    }
  }

  // ---- whole runs ----

  datatype StackOp = PushFrame(f: Frame) | PopFrame | SetTop(f: Frame) | Truncate(n: nat) | Mirror | Grow(need: nat)

  /** The same operation on a plain stack; one that does not apply does nothing. */
  ghost function Plain(fs: seq<Frame>, op: StackOp): seq<Frame> {
    if op.PushFrame? then (if Typed(op.f) && InField(op.f) then fs + [op.f] else fs)
    else if op.PopFrame? then (if |fs| > 0 then fs[..|fs| - 1] else fs)
    else if op.SetTop? then (if |fs| > 0 && Typed(op.f) && InField(op.f) then fs[|fs| - 1 := op.f] else fs)
    else if op.Truncate? then (if op.n < |fs| then fs[..op.n] else fs)
    else fs
  }

  ghost function PlainRun(fs: seq<Frame>, ops: seq<StackOp>): seq<Frame> {
    if ops == [] then fs else Plain(PlainRun(fs, ops[..|ops| - 1]), ops[|ops| - 1])
  }

  /** After any sequence of operations the frames are those of a plain stack. */
  method Run(t: FrameThread, ops: seq<StackOp>)
    requires t.Valid()
    modifies t, t.seg
    ensures t.Valid() && t.Frames() == PlainRun(old(t.Frames()), ops)
  {
    hide Unpack;
    var k := 0;
    while k < |ops|
      invariant 0 <= k <= |ops| && t.Valid() && (t.seg == old(t.seg) || fresh(t.seg))
      invariant t.Frames() == PlainRun(old(t.Frames()), ops[..k])
    {
      assert ops[..k + 1][..k] == ops[..k];
      Apply(t, ops[k]);
      k := k + 1;
    }
    assert ops[..k] == ops;
  }

  method Apply(t: FrameThread, op: StackOp)
    requires t.Valid()
    modifies t, t.seg
    ensures t.Valid() && (t.seg == old(t.seg) || fresh(t.seg))
    ensures t.Frames() == Plain(old(t.Frames()), op)
  {
    hide Unpack, FramesOf;
    match op
    case PushFrame(f) => if Typed(f) && InField(f) { t.Push(f); }
    case PopFrame => if t.ciDepth > 0 { var _ := t.Pop(); }
    case SetTop(f) => if t.ciDepth > 0 && Typed(f) && InField(f) { t.SetCur(f); }
    case Truncate(n) => if n < t.ciDepth { t.TruncateCI(n); }
    case Mirror => t.ReMirrorTop();
    case Grow(need) => if need > t.ciCap { t.GrowCISeg(need); }
  }
}
