/** A call frame in five 64-bit words (internal/crescent/state.go:1520-1591).

    A word is a number below 2^64: shifting left by k multiplies by 2^k, shifting right divides,
    masking is the remainder, and or-ing fields that share no bit adds them. */
module FramePacking {

  const P5: nat := 0x20
  const P8: nat := 0x100
  const P16: nat := 0x1_0000
  const P32: nat := 0x1_0000_0000
  const P48: nat := 0x1_0000_0000_0000
  const P49: nat := 0x2_0000_0000_0000
  const P50: nat := 0x4_0000_0000_0000
  const P51: nat := 0x8_0000_0000_0000
  const P59: nat := 0x800_0000_0000_0000
  const P64: nat := 0x1_0000_0000_0000_0000

  /** Go's callInfo. The int fields are machine ints there; the others have the width given by
      `Typed`. */
  datatype Frame = Frame(
    base: int, funcIdx: int, top: int, pc: int, protoID: nat, nresults: int,
    tailcall: bool, entry: bool, gibbous: bool, hostFrames: nat, tailDepth: nat, cl: nat, nVarargs: nat)

  /** The unsigned fields have their Go types: uint32, uint8, uint8, a 64-bit reference, uint16. */
  predicate Typed(f: Frame) {
    f.protoID < P32 && f.hostFrames < P8 && f.tailDepth < P8 && f.cl < P64 && f.nVarargs < P16
  }

  datatype Words = Words(w0: nat, w1: nat, w2: nat, w3: nat, w4: nat)

  /** Conversion to an unsigned type of m values. */
  function Unsigned(x: int, m: nat): (u: nat)
    requires m > 0
    ensures u < m
  {
    x % m
  }

  /** Conversion of an unsigned value to the signed type of the same width. */
  function Signed(u: nat, m: nat): int {
    if 2 * u < m then u else u - m
  }

  function Bit(b: bool): nat {
    if b then 1 else 0
  }

  /** protoID, then 16 bits of nresults, three flags, 8 bits of hostFrames, 5 of tailDepth, which
      saturates. */
  function PackWord2(f: Frame): nat {
    f.protoID + Unsigned(f.nresults, P16) * P32
    + Bit(f.tailcall) * P48 + Bit(f.entry) * P49 + Bit(f.gibbous) * P50 + f.hostFrames * P51
      + Saturated(f.tailDepth) * P59
  }

  function Pack(f: Frame): Words {
    Words(Unsigned(f.base, P32) + Unsigned(f.funcIdx, P32) * P32,
          Unsigned(f.top, P32) + Unsigned(f.pc, P32) * P32,
          PackWord2(f), f.cl, f.nVarargs)
  }

  function Unpack(w: Words): Frame {
    Frame(Signed(w.w0 % P32, P32), Signed(w.w0 / P32 % P32, P32),
          Signed(w.w1 % P32, P32), Signed(w.w1 / P32 % P32, P32),
          w.w2 % P32, Signed(w.w2 / P32 % P16, P16),
          w.w2 / P48 % 2 != 0, w.w2 / P49 % 2 != 0, w.w2 / P50 % 2 != 0,
          w.w2 / P51 % P8, w.w2 / P59 % P5, w.w3, w.w4 % P16)
  }

  predicate Fits(x: int, m: nat) {
    2 * x >= -(m as int) && 2 * x < m
  }

  /** What the packed form can hold. */
  predicate InField(f: Frame) {
    && Fits(f.base, P32) && Fits(f.funcIdx, P32) && Fits(f.top, P32) && Fits(f.pc, P32)
    && Fits(f.nresults, P16) && f.tailDepth <= 0x1F
  }

  lemma SignedBack(x: int, m: nat)
    requires m == P16 || m == P32
    ensures Signed(Unsigned(x, m), m) == x <==> Fits(x, m)
  {
  }

  lemma PairParts(lo: nat, hi: nat)
    requires lo < P32 && hi < P32
    ensures (lo + hi * P32) % P32 == lo && (lo + hi * P32) / P32 % P32 == hi
  {
  }

  /** A number read past its lowest part. */
  lemma Above(lo: nat, hi: nat, m: nat)
    requires lo < m && m in {P32, P48, P49, P50, P51, P59}
    ensures (lo + hi * m) / m == hi && (lo + hi * m) % m == lo
  {
  }

  lemma LowFields(p: nat, n: nat, rest: nat)
    requires p < P32 && n < P16
    ensures var w := p + n * P32 + rest * P48; w % P32 == p && w / P32 % P16 == n && w / P48 == rest
  {
    Above(p, n + rest * P16, P32);
    Above(p + n * P32, rest, P48);
  }

  lemma FlagField(low: nat, a: nat, rest: nat, m: nat)
    requires low < m && a < 2 && m in {P48, P49, P50}
    ensures (low + (a + 2 * rest) * m) / m % 2 == a
  {
    Above(low, a + 2 * rest, m);
  }

  lemma TopFields(low: nat, h: nat, t: nat)
    requires low < P51 && h < P8 && t < P5
    ensures var w := low + (h + t * P8) * P51; w / P51 % P8 == h && w / P59 % P5 == t && w < P64
  {
    Above(low, h + t * P8, P51);
    Above(low + h * P51, t, P59);
  }

  function Saturated(tailDepth: nat): nat {
    if tailDepth > 0x1F then 0x1F else tailDepth
  }

  /** Each field of word 2 comes back, tailDepth saturated. */
  lemma Word2Parts(f: Frame)
    requires Typed(f)
    ensures var w := PackWord2(f);
      && w % P32 == f.protoID && w / P32 % P16 == Unsigned(f.nresults, P16)
      && (w / P48 % 2 != 0 <==> f.tailcall) && (w / P49 % 2 != 0 <==> f.entry) && (w / P50 % 2 != 0 <==> f.gibbous)
      && w / P51 % P8 == f.hostFrames && w / P59 % P5 == Saturated(f.tailDepth) && w < P64
  {
    var n, a, b, c, h := Unsigned(f.nresults, P16), Bit(f.tailcall), Bit(f.entry), Bit(f.gibbous), f.hostFrames;
    var t, p := Saturated(f.tailDepth), f.protoID;
    var w := PackWord2(f);
    var g := h + t * P8;
    WordForms(p, n, a, b, c, h, t);
    LowFields(p, n, a + 2 * b + 4 * c + 8 * g);
    FlagField(p + n * P32, a, b + 2 * c + 4 * g, P48);
    FlagField(p + n * P32 + a * P48, b, c + 2 * g, P49);
    FlagField(p + n * P32 + a * P48 + b * P49, c, g, P50);
    TopFields(p + n * P32 + a * P48 + b * P49 + c * P50, h, t);
  }

  /** One sum, cut at each field. */
  lemma WordForms(p: nat, n: nat, a: nat, b: nat, c: nat, h: nat, t: nat)
    ensures var w, g := p + n * P32 + a * P48 + b * P49 + c * P50 + h * P51 + t * P59, h + t * P8;
      && w == p + n * P32 + (a + 2 * b + 4 * c + 8 * g) * P48
      && w == p + n * P32 + (a + 2 * (b + 2 * c + 4 * g)) * P48
      && w == p + n * P32 + a * P48 + (b + 2 * (c + 2 * g)) * P49
      && w == p + n * P32 + a * P48 + b * P49 + (c + 2 * g) * P50
      && w == p + n * P32 + a * P48 + b * P49 + c * P50 + g * P51
  {
  }

  /** Packing a frame and reading it back is the identity exactly on the frames that fit, nresults
      of -1 among them. */
  lemma PackRoundTrip(f: Frame)
    requires Typed(f)
    ensures Unpack(Pack(f)) == f <==> InField(f)
  {
    SignedBack(f.base, P32);
    SignedBack(f.funcIdx, P32);
    SignedBack(f.top, P32);
    SignedBack(f.pc, P32);
    SignedBack(f.nresults, P16);
    PairParts(Unsigned(f.base, P32), Unsigned(f.funcIdx, P32));
    PairParts(Unsigned(f.top, P32), Unsigned(f.pc, P32));
    Word2Parts(f);
    hide PackWord2, Unsigned, Signed;
  }

  predicate Fit64(w: Words) {
    w.w0 < P64 && w.w1 < P64 && w.w2 < P64 && w.w3 < P64 && w.w4 < P64
  }

  /** Packed words are words, and what is read from words fits again. */
  lemma PackFits(f: Frame)
    requires Typed(f)
    ensures Fit64(Pack(f))
  {
    Word2Parts(f);
  }

  lemma UnpackFits(w: Words)
    requires Fit64(w)
    ensures Typed(Unpack(w)) && InField(Unpack(w))
  {
  }
}
