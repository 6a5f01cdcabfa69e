/** Lua values as table keys see them (internal/value, internal/crescent/rawtable.go:55-85). */
module Values {

  datatype RefKind = StringRef | TableRef | FunctionRef | UserdataRef | ThreadRef

  /** Numbers are split by what the table code asks of them: `Int(n)` is a number equal to the
      integer n (and +0 when n is 0), `NegZero` is -0, `Frac` any other number but NaN. */
  datatype Value =
    | Nil
    | Bool(b: bool)
    | NaN
    | NegZero
    | Int(n: int)
    | Frac(bits: nat)
    | Ref(kind: RefKind, ref: nat)

  predicate IsNumber(v: Value) {
    v.NaN? || v.NegZero? || v.Int? || v.Frac?
  }

  /** -0 is stored and looked up as +0. */
  function NormKey(k: Value): Value {
    if k.NegZero? then Int(0) else k
  }

  /** Raw equality: numbers by numeric value (NaN equals nothing), anything else by identity. */
  predicate KeyEqual(a: Value, b: Value) {
    if IsNumber(a) && IsNumber(b) then
      !a.NaN? && !b.NaN? && NormKey(a) == NormKey(b)
    else
      a == b
  }

  /** What a table may store under: neither nil nor NaN, with -0 already turned into +0. */
  predicate IsKey(k: Value) {
    !k.Nil? && !k.NaN? && !k.NegZero?
  }

  /** Keys served by an array part of the given size. */
  predicate InArray(k: Value, asize: nat) {
    k.Int? && 1 <= k.n <= asize
  }

  predicate IsPow2(n: nat) {
    n == 1 || (n > 1 && n % 2 == 0 && IsPow2(n / 2))
  }
}
