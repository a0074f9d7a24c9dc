/**
 * Fixed-width integers. The engine stores counters, ids and vector elements in
 * C++ integer types of 8 to 64 bits; the model keeps mathematical integers and
 * writes every wrap-around and every truncation out explicitly.
 */
module MachineInts {

  /** A C++ integer type: its width in bits and its signedness. */
  datatype IntType = IntType(bits: nat, signed: bool)
  {
    /** The widths the engine uses: 8, 16, 32 and 64 bits. */
    predicate Supported() {
      bits == 8 || bits == 16 || bits == 32 || bits == 64
    }

    /** 2^bits, the number of values of the type. */
    function Modulus(): (m: nat)
      requires Supported()
      ensures m >= 256
    {
      if bits == 8 then 0x100
      else if bits == 16 then 0x1_0000
      else if bits == 32 then 0x1_0000_0000
      else 0x1_0000_0000_0000_0000
    }

    function Min(): int
      requires Supported()
    {
      if signed then 0 - Modulus() / 2 else 0
    }

    function Max(): int
      requires Supported()
    {
      if signed then Modulus() / 2 - 1 else Modulus() - 1
    }

    predicate InRange(x: int)
      requires Supported()
    {
      Min() <= x <= Max()
    }

    /**
     * Conversion of any integer to this type, as an implicit conversion or a
     * static_cast does it: reduction modulo 2^bits into the type's range (for
     * signed types this is the two's complement rule that C++20 makes normative).
     */
    function Convert(x: int): (r: int)
      requires Supported()
      ensures InRange(r)
      ensures (x - r) % Modulus() == 0
      ensures InRange(x) ==> r == x
    {
      var m := Modulus();
      var u := x % m;
      ModFacts(x, m);
      if signed && u > Max() then u - m else u
    }

    /**
     * Whether an arithmetic result computed in this type's promoted type is
     * defined. The 8- and 16-bit types are promoted to the 32-bit int, whose
     * overflow is undefined behaviour, and the result is then converted back
     * (and wraps); unsigned 32- and 64-bit arithmetic wraps by definition;
     * signed 32- and 64-bit overflow is undefined behaviour.
     */
    predicate Storable(exact: int)
      requires Supported()
    {
      if bits < 32 then Int32.InRange(exact) else !signed || InRange(exact)
    }
  }

  /**
   * The facts about x % m that Convert relies on; each modulus is handled by a
   * lemma of its own, so that the solver divides by a constant.
   */
  lemma ModFacts(x: int, m: int)
    requires m == 0x100 || m == 0x1_0000 || m == 0x1_0000_0000 || m == 0x1_0000_0000_0000_0000
    ensures 0 <= x % m < m
    ensures (x - x % m) % m == 0 && (x - (x % m - m)) % m == 0
    ensures 0 <= x < m ==> x % m == x
    ensures -m <= x < 0 ==> x % m == x + m
  {
    if m == 0x100 {
      Mod8(x);
    } else if m == 0x1_0000 {
      Mod16(x);
    } else if m == 0x1_0000_0000 {
      Mod32(x);
    } else {
      Mod64(x);
    }
  }

  lemma Mod8(x: int)
    ensures (x - x % 0x100) % 0x100 == 0 && (x - (x % 0x100 - 0x100)) % 0x100 == 0
    ensures 0 <= x < 0x100 ==> x % 0x100 == x
    ensures -0x100 <= x < 0 ==> x % 0x100 == x + 0x100
  {
  }

  lemma Mod16(x: int)
    ensures (x - x % 0x1_0000) % 0x1_0000 == 0 && (x - (x % 0x1_0000 - 0x1_0000)) % 0x1_0000 == 0
    ensures 0 <= x < 0x1_0000 ==> x % 0x1_0000 == x
    ensures -0x1_0000 <= x < 0 ==> x % 0x1_0000 == x + 0x1_0000
  {
  }

  lemma Mod32(x: int)
    ensures (x - x % 0x1_0000_0000) % 0x1_0000_0000 == 0 && (x - (x % 0x1_0000_0000 - 0x1_0000_0000)) % 0x1_0000_0000 == 0
    ensures 0 <= x < 0x1_0000_0000 ==> x % 0x1_0000_0000 == x
    ensures -0x1_0000_0000 <= x < 0 ==> x % 0x1_0000_0000 == x + 0x1_0000_0000
  {
  }

  lemma Mod64(x: int)
    ensures (x - x % 0x1_0000_0000_0000_0000) % 0x1_0000_0000_0000_0000 == 0 && (x - (x % 0x1_0000_0000_0000_0000 - 0x1_0000_0000_0000_0000)) % 0x1_0000_0000_0000_0000 == 0
    ensures 0 <= x < 0x1_0000_0000_0000_0000 ==> x % 0x1_0000_0000_0000_0000 == x
    ensures -0x1_0000_0000_0000_0000 <= x < 0 ==> x % 0x1_0000_0000_0000_0000 == x + 0x1_0000_0000_0000_0000
  {
  }

  function Abs(x: int): (r: nat)
    ensures r == x || r == -x
  {
    if x < 0 then -x else x
  }

  /**
   * C++ integer division, which truncates towards zero (Dafny's / is Euclidean):
   * the quotient's magnitude is |a| / |b| and it is negative only when the
   * operands' signs differ.
   */
  function TruncDiv(a: int, b: int): (q: int)
    requires b != 0
    ensures Abs(q) == Abs(a) / Abs(b)
    ensures q < 0 ==> (a < 0) != (b < 0)
    ensures q > 0 ==> (a < 0) == (b < 0)
  {
    var n: nat, d: nat := Abs(a), Abs(b);
    var q0: nat := n / d;
    if (a < 0) == (b < 0) then q0 else 0 - q0
  }

  /**
   * C++ remainder: a - b * (a / b) with truncating division, so it takes the
   * dividend's sign and is smaller than the divisor in magnitude.
   */
  function TruncRem(a: int, b: int): (r: int)
    requires b != 0
    ensures r == a - b * TruncDiv(a, b)
    ensures Abs(r) < Abs(b)
    ensures r < 0 ==> a < 0
    ensures r > 0 ==> a > 0
  {
    var n: nat, d: nat := Abs(a), Abs(b);
    DivMod(n, d);
    if a < 0 then 0 - n % d else n % d
  }

  lemma DivMod(n: nat, d: nat)
    requires d > 0
    ensures n == d * (n / d) + n % d && 0 <= n % d < d
  {
  }

  /** The arithmetic operators the engine's value wrappers forward. */
  datatype ArithOp = Add | Sub | Mul | Div | Rem

  /** The mathematical result of a op b, with C++'s truncating / and %. */
  function Exact(op: ArithOp, a: int, b: int): int
    requires (op == Div || op == Rem) ==> b != 0
  {
    match op
    case Add => a + b
    case Sub => a - b
    case Mul => a * b
    case Div => TruncDiv(a, b)
    case Rem => TruncRem(a, b)
  }

  /**
   * Whether a op b is defined on operands of type t: no division by zero, no
   * undefined overflow, and a % b only where a / b is representable too.
   */
  predicate Defined(t: IntType, op: ArithOp, a: int, b: int)
    requires t.Supported()
  {
    && ((op == Div || op == Rem) ==> b != 0)
    && t.Storable(Exact(op, a, b))
    && (op == Rem ==> t.Storable(TruncDiv(a, b)))
  }

  /**
   * a op b for operands of type t, stored back into t (as a compound
   * assignment does): the exact result when it fits, else its wrapped value.
   */
  function Apply(t: IntType, op: ArithOp, a: int, b: int): (r: int)
    requires t.Supported() && Defined(t, op, a, b)
    ensures t.InRange(r)
    ensures t.InRange(Exact(op, a, b)) ==> r == Exact(op, a, b)
    ensures (Exact(op, a, b) - r) % t.Modulus() == 0
  {
    t.Convert(Exact(op, a, b))
  }

  /** Two multiples of one of the engine's moduli add up to a multiple. */
  lemma ModSum(x: int, y: int, m: int)
    requires m == 0x100 || m == 0x1_0000 || m == 0x1_0000_0000 || m == 0x1_0000_0000_0000_0000
    requires x % m == 0 && y % m == 0
    ensures (x + y) % m == 0
  {
    var a, b := x / m, y / m;
    assert x == m * a && y == m * b;
    MultipleMod(a + b, m);
    assert x + y == m * (a + b);
  }

  /** A multiple of m negated is still a multiple of m. */
  lemma NegMod(x: int, m: int)
    requires m == 0x100 || m == 0x1_0000 || m == 0x1_0000_0000 || m == 0x1_0000_0000_0000_0000
    requires x % m == 0
    ensures (-x) % m == 0
  {
    var k := x / m;
    assert x == m * k;
    MultipleMod(-k, m);
    assert -x == m * (-k);
  }

  /** A multiple of one of the engine's moduli leaves no remainder. */
  lemma MultipleMod(k: int, m: int)
    requires m == 0x100 || m == 0x1_0000 || m == 0x1_0000_0000 || m == 0x1_0000_0000_0000_0000
    ensures (m * k) % m == 0
  {
    if m == 0x100 {
      assert (0x100 * k) % 0x100 == 0;
    } else if m == 0x1_0000 {
      assert (0x1_0000 * k) % 0x1_0000 == 0;
    } else if m == 0x1_0000_0000 {
      assert (0x1_0000_0000 * k) % 0x1_0000_0000 == 0;
    } else {
      assert (0x1_0000_0000_0000_0000 * k) % 0x1_0000_0000_0000_0000 == 0;
    }
  }

  /** Two values of one type that differ by a multiple of the modulus are equal. */
  lemma SameResidue(t: IntType, x: int, y: int)
    requires t.Supported() && t.InRange(x) && t.InRange(y) && (x - y) % t.Modulus() == 0
    ensures x == y
  {
    ModFacts(x - y, t.Modulus());
  }

  /**
   * Unsigned arithmetic wraps: adding b and then subtracting it again gives
   * back the original value, whether or not the addition wrapped.
   */
  lemma AddThenSubRestores(t: IntType, a: int, b: int)
    requires t.Supported() && !t.signed && t.InRange(a) && t.InRange(b)
    ensures Defined(t, Add, a, b)
    ensures Defined(t, Sub, Apply(t, Add, a, b), b)
    ensures Apply(t, Sub, Apply(t, Add, a, b), b) == a
  {
    var s := Apply(t, Add, a, b);
    var r := Apply(t, Sub, s, b);
    ModSum(a + b - s, s - b - r, t.Modulus());
    assert (a + b - s) + (s - b - r) == a - r;
    SameResidue(t, a, r);
  }

  const UInt8: IntType := IntType(8, false)
  const UInt16: IntType := IntType(16, false)
  const UInt32: IntType := IntType(32, false)
  const UInt64: IntType := IntType(64, false)
  const Int8: IntType := IntType(8, true)
  const Int16: IntType := IntType(16, true)
  const Int32: IntType := IntType(32, true)
  const Int64: IntType := IntType(64, true)

  /**
   * The smallest value of a signed 32- or 64-bit type modulo -1 is undefined,
   * although its exact remainder, 0, fits: the quotient does not.
   */
  lemma RemOfMinByMinusOneUndefined(t: IntType)
    requires t == Int32 || t == Int64
    ensures TruncRem(t.Min(), -1) == 0
    ensures !Defined(t, Rem, t.Min(), -1)
  {
    assert TruncDiv(t.Min(), -1) == t.Max() + 1;
  }
}
