/**
 * AXMathVector<T, N> for the integer element types: N elements held in a
 * fixed-size array, updated in place by the assignment and compound
 * operators, copied by + and -, and compared element by element.
 */
module MathVector {
  import opened MachineInts

  /**
   * The type in which C++ compares a value of type a with a value of type b:
   * both are promoted (the 8- and 16-bit types to the 32-bit int), then the
   * usual arithmetic conversions pick the wider type, or the unsigned one
   * when it is at least as wide as the signed one.
   */
  function CommonType(a: IntType, b: IntType): (c: IntType)
    requires a.Supported() && b.Supported()
    ensures c.Supported() && c.bits >= 32
    ensures c == (if a.bits < 32 then Int32 else a) || c == (if b.bits < 32 then Int32 else b)
  {
    var pa := if a.bits < 32 then Int32 else a;
    var pb := if b.bits < 32 then Int32 else b;
    if pa == pb then pa
    else if pa.signed == pb.signed then (if pa.bits >= pb.bits then pa else pb)
    else
      var u := if pa.signed then pb else pa;
      var s := if pa.signed then pa else pb;
      if u.bits >= s.bits then u else s
  }

  /** The common type does not depend on the order of the operands. */
  lemma CommonTypeSymmetric(a: IntType, b: IntType)
    requires a.Supported() && b.Supported()
    ensures CommonType(a, b) == CommonType(b, a)
  {
  }

  /** Comparing two values of one type needs no conversion. */
  lemma SameTypeCompares(t: IntType, x: int, y: int)
    requires t.Supported() && t.InRange(x) && t.InRange(y)
    ensures var c := CommonType(t, t); (c.Convert(x) == c.Convert(y) <==> x == y)
  {
    var c := CommonType(t, t);
    assert c.InRange(x) && c.InRange(y);
  }

  /** -1 as a signed int and 0xFFFFFFFF as an unsigned int compare equal. */
  lemma MixedSignsCompareEqual()
    ensures CommonType(Int32, UInt32) == UInt32
    ensures UInt32.Convert(-1) == UInt32.Convert(0xFFFF_FFFF)
  {
    ModFacts(-1, 0x1_0000_0000);
  }

  class MathVector {
    /** TBaseType */
    const t: IntType
    /** mElements, of length TNumElements */
    const elements: array<int>

    ghost predicate Valid()
      reads this, elements
    {
      t.Supported() && forall i :: 0 <= i < elements.Length ==> t.InRange(elements[i])
    }

    /** The scalar constructor: every element is the value. */
    constructor Fill(t: IntType, n: nat, val: int)
      requires t.Supported() && t.InRange(val)
      ensures Valid() && this.t == t && fresh(elements)
      ensures elements[..] == seq(n, _ => val)
    {
      this.t := t;
      var a := new int[n];
      var i := 0;
      while i < n
        invariant 0 <= i <= n
        invariant forall j :: 0 <= j < i ==> a[j] == val
      {
        a[i] := val;
        i := i + 1;
      }
      elements := a;
    }

    /** The variadic constructor: as many values as elements, each cast to T, in order. */
    constructor FromValues(t: IntType, vals: seq<int>)
      requires t.Supported()
      ensures Valid() && this.t == t && fresh(elements)
      ensures elements[..] == seq(|vals|, i requires 0 <= i < |vals| => t.Convert(vals[i]))
    {
      this.t := t;
      var a := new int[|vals|];
      var i := 0;
      while i < |vals|
        invariant 0 <= i <= |vals|
        invariant forall j :: 0 <= j < i ==> a[j] == t.Convert(vals[j])
      {
        a[i] := t.Convert(vals[i]);
        i := i + 1;
      }
      elements := a;
    }

    /** The copy constructor used by + and -. */
    constructor Copy(v: MathVector)
      requires v.Valid()
      ensures Valid() && t == v.t && fresh(elements)
      ensures elements[..] == v.elements[..]
    {
      t := v.t;
      var a := new int[v.elements.Length];
      var i := 0;
      while i < v.elements.Length
        invariant 0 <= i <= v.elements.Length
        invariant forall j :: 0 <= j < i ==> a[j] == v.elements[j]
      {
        a[i] := v.elements[i];
        i := i + 1;
      }
      elements := a;
    }

    /** operator= from a vector of any element type: each element cast to T. */
    method AssignVector(rhs: MathVector)
      requires Valid() && rhs.Valid() && rhs.elements.Length == elements.Length
      modifies elements
      ensures Valid()
      ensures forall i :: 0 <= i < elements.Length ==> elements[i] == t.Convert(old(rhs.elements[i]))
    {
      var i := 0;
      while i < elements.Length
        invariant 0 <= i <= elements.Length && Valid()
        invariant forall j :: 0 <= j < i ==> elements[j] == t.Convert(old(rhs.elements[j]))
        invariant forall j :: i <= j < elements.Length ==> rhs.elements[j] == old(rhs.elements[j])
      {
        elements[i] := t.Convert(rhs.elements[i]);
        i := i + 1;
      }
    }

    /** operator= from a scalar: every element becomes the value cast to T. */
    method AssignScalar(rhs: int)
      requires Valid()
      modifies elements
      ensures Valid()
      ensures forall i :: 0 <= i < elements.Length ==> elements[i] == t.Convert(rhs)
    {
      var i := 0;
      while i < elements.Length
        invariant 0 <= i <= elements.Length && Valid()
        invariant forall j :: 0 <= j < i ==> elements[j] == t.Convert(rhs)
      {
        elements[i] := t.Convert(rhs);
        i := i + 1;
      }
    }

    /** Whether every element op the matching element of rhs, cast to T, is defined. */
    ghost predicate DefinedWith(op: ArithOp, rhs: MathVector)
      reads this, elements, rhs, rhs.elements
      requires Valid() && rhs.elements.Length == elements.Length
    {
      forall i :: 0 <= i < elements.Length ==> Defined(t, op, elements[i], t.Convert(rhs.elements[i]))
    }

    /**
     * operator+=, -=, *=, /= with a vector: element i becomes element i op
     * element i of rhs cast to T. rhs may be this vector itself: element i of
     * rhs is read before element i is written.
     */
    method CompoundVector(op: ArithOp, rhs: MathVector)
      requires op != Rem
      requires Valid() && rhs.Valid() && rhs.elements.Length == elements.Length && DefinedWith(op, rhs)
      modifies elements
      ensures Valid()
      ensures forall i :: 0 <= i < elements.Length ==>
        elements[i] == Apply(t, op, old(elements[i]), t.Convert(old(rhs.elements[i])))
    {
      var i := 0;
      while i < elements.Length
        invariant 0 <= i <= elements.Length && Valid()
        invariant forall j :: 0 <= j < i ==>
          elements[j] == Apply(t, op, old(elements[j]), t.Convert(old(rhs.elements[j])))
        invariant forall j :: i <= j < elements.Length ==>
          elements[j] == old(elements[j]) && rhs.elements[j] == old(rhs.elements[j])
      {
        elements[i] := Apply(t, op, elements[i], t.Convert(rhs.elements[i]));
        i := i + 1;
      }
    }

    /** operator+=, -=, *=, /= with a scalar: it is cast to T and applied to every element. */
    method CompoundScalar(op: ArithOp, rhs: int)
      requires op != Rem
      requires Valid() && forall i :: 0 <= i < elements.Length ==> Defined(t, op, elements[i], t.Convert(rhs))
      modifies elements
      ensures Valid()
      ensures forall i :: 0 <= i < elements.Length ==> elements[i] == Apply(t, op, old(elements[i]), t.Convert(rhs))
    {
      var i := 0;
      while i < elements.Length
        invariant 0 <= i <= elements.Length && Valid()
        invariant forall j :: 0 <= j < i ==> elements[j] == Apply(t, op, old(elements[j]), t.Convert(rhs))
        invariant forall j :: i <= j < elements.Length ==> elements[j] == old(elements[j])
      {
        elements[i] := Apply(t, op, elements[i], t.Convert(rhs));
        i := i + 1;
      }
    }

    /**
     * Binary + and - with a vector: a copy of this vector with the compound
     * operator applied; this vector is left unchanged.
     */
    method BinaryVector(op: ArithOp, rhs: MathVector) returns (r: MathVector)
      requires op == Add || op == Sub
      requires Valid() && rhs.Valid() && rhs.elements.Length == elements.Length && DefinedWith(op, rhs)
      ensures fresh(r) && fresh(r.elements) && r.Valid() && r.t == t && r.elements.Length == elements.Length
      ensures forall i :: 0 <= i < elements.Length ==>
        r.elements[i] == Apply(t, op, elements[i], t.Convert(rhs.elements[i]))
    {
      r := new MathVector.Copy(this);
      r.CompoundVector(op, rhs);
    }

    /** Binary + and - with a scalar. */
    method BinaryScalar(op: ArithOp, rhs: int) returns (r: MathVector)
      requires op == Add || op == Sub
      requires Valid() && forall i :: 0 <= i < elements.Length ==> Defined(t, op, elements[i], t.Convert(rhs))
      ensures fresh(r) && fresh(r.elements) && r.Valid() && r.t == t && r.elements.Length == elements.Length
      ensures forall i :: 0 <= i < elements.Length ==> r.elements[i] == Apply(t, op, elements[i], t.Convert(rhs))
    {
      r := new MathVector.Copy(this);
      r.CompoundScalar(op, rhs);
    }

    /**
     * operator==: the conjunction, over all elements, of the C++ comparison
     * of the two elements, which converts both to their common type.
     */
    method Equals(rhs: MathVector) returns (isEqual: bool)
      requires Valid() && rhs.Valid() && rhs.elements.Length == elements.Length
      ensures isEqual <==> forall i :: 0 <= i < elements.Length ==>
        CommonType(t, rhs.t).Convert(elements[i]) == CommonType(t, rhs.t).Convert(rhs.elements[i])
    {
      var c := CommonType(t, rhs.t);
      isEqual := true;
      var i := 0;
      while i < elements.Length
        invariant 0 <= i <= elements.Length
        invariant isEqual <==> forall j :: 0 <= j < i ==> c.Convert(elements[j]) == c.Convert(rhs.elements[j])
      {
        isEqual := isEqual && c.Convert(elements[i]) == c.Convert(rhs.elements[i]);
        i := i + 1;
      }
    }

    /** operator!= is the negation of operator==. */
    method NotEquals(rhs: MathVector) returns (notEqual: bool)
      requires Valid() && rhs.Valid() && rhs.elements.Length == elements.Length
      ensures notEqual <==>
        exists i :: 0 <= i < elements.Length && CommonType(t, rhs.t).Convert(elements[i]) != CommonType(t, rhs.t).Convert(rhs.elements[i])
    {
      var eq := Equals(rhs);
      notEqual := !eq;
    }

    /** X(), the first element. */
    function X(): (r: int)
      reads this, elements
      requires Valid() && elements.Length >= 1
      ensures t.InRange(r)
    {
      elements[0]
    }

    /** Y() needs at least two elements. */
    function Y(): (r: int)
      reads this, elements
      requires Valid() && elements.Length >= 2
      ensures t.InRange(r)
    {
      elements[1]
    }

    /** Z() needs at least three elements. */
    function Z(): (r: int)
      reads this, elements
      requires Valid() && elements.Length >= 3
      ensures t.InRange(r)
    {
      elements[2]
    }

    /** W() needs at least four elements. */
    function W(): (r: int)
      reads this, elements
      requires Valid() && elements.Length >= 4
      ensures t.InRange(r)
    {
      elements[3]
    }
  }

  /** For vectors of one element type, == holds exactly when the element sequences are equal. */
  method EqualsSameType(a: MathVector, b: MathVector) returns (isEqual: bool)
    requires a.Valid() && b.Valid() && a.t == b.t && a.elements.Length == b.elements.Length
    ensures isEqual <==> a.elements[..] == b.elements[..]
  {
    isEqual := a.Equals(b);
    forall i | 0 <= i < a.elements.Length
      ensures CommonType(a.t, b.t).Convert(a.elements[i]) == CommonType(a.t, b.t).Convert(b.elements[i])
        <==> a.elements[i] == b.elements[i]
    {
      SameTypeCompares(a.t, a.elements[i], b.elements[i]);
    }
    if isEqual {
      assert a.elements[..] == b.elements[..];
    }
  }
}
