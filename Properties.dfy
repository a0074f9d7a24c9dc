/**
 * AXProperty: a value wrapper whose operators forward to the wrapped value,
 * with every right-hand side first cast to the property's type; and
 * AXIPropertyHolder, which names properties and keeps them in registration
 * order. The wrapped type is one of the engine's integer types.
 */
module Properties {
  import opened MachineInts

  /** The comparison operators AXProperty provides. */
  datatype Comparison = Eq | Ne | Lt | Gt | Le | Ge

  /** a cmp b on two values of the same type. */
  predicate Compare(cmp: Comparison, a: int, b: int)
  {
    match cmp
    case Eq => a == b
    case Ne => a != b
    case Lt => a < b
    case Gt => a > b
    case Le => a <= b
    case Ge => a >= b
  }

  /** AXProperty<T>: the wrapped value mVal and the name held in its metadata. */
  class Property {
    const t: IntType
    var val: int
    var name: string

    ghost predicate Valid()
      reads this
    {
      t.Supported() && t.InRange(val)
    }

    /** AXProperty(val): stores the value; the metadata's name starts empty. */
    constructor (t: IntType, val: int)
      requires t.Supported() && t.InRange(val)
      ensures Valid() && this.t == t && this.val == val && name == ""
    {
      this.t := t;
      this.val := val;
      name := "";
    }

    /** Val() */
    function Val(): (r: int)
      reads this
      requires Valid()
      ensures t.InRange(r)
    {
      val
    }

    /** operator=: the right-hand side converted to T. */
    method Assign(u: int)
      requires Valid()
      modifies this`val
      ensures Valid() && val == t.Convert(u)
    {
      val := t.Convert(u);
    }

    /** operator+=, -=, *=, /=, %=: the wrapped value op the right-hand side cast to T. */
    method CompoundAssign(op: ArithOp, rhs: int)
      requires Valid() && Defined(t, op, val, t.Convert(rhs))
      modifies this`val
      ensures Valid() && val == Apply(t, op, old(val), t.Convert(rhs))
    {
      val := Apply(t, op, val, t.Convert(rhs));
    }

    /** Prefix ++: the incremented value, wrapped for the narrow and unsigned types. */
    method PreIncrement()
      requires Valid() && Defined(t, Add, val, 1)
      modifies this`val
      ensures Valid() && val == Apply(t, Add, old(val), 1)
    {
      val := Apply(t, Add, val, 1);
    }

    /** Postfix ++: returns the old value and leaves the property incremented. */
    method PostIncrement() returns (before: Property)
      requires Valid() && Defined(t, Add, val, 1)
      modifies this`val
      ensures fresh(before) && before.Valid() && before.t == t && before.val == old(val)
      ensures Valid() && val == Apply(t, Add, old(val), 1)
    {
      before := new Property(t, val);
      PreIncrement();
    }

    /** Prefix --. */
    method PreDecrement()
      requires Valid() && Defined(t, Sub, val, 1)
      modifies this`val
      ensures Valid() && val == Apply(t, Sub, old(val), 1)
    {
      val := Apply(t, Sub, val, 1);
    }

    /** Postfix --: returns the old value and leaves the property decremented. */
    method PostDecrement() returns (before: Property)
      requires Valid() && Defined(t, Sub, val, 1)
      modifies this`val
      ensures fresh(before) && before.Valid() && before.t == t && before.val == old(val)
      ensures Valid() && val == Apply(t, Sub, old(val), 1)
    {
      before := new Property(t, val);
      PreDecrement();
    }

    /**
     * Binary +, -, *, /, %: a new property holding what the compound
     * operator would store; the original is left unchanged.
     */
    method Binary(op: ArithOp, rhs: int) returns (r: Property)
      requires Valid() && Defined(t, op, val, t.Convert(rhs))
      ensures fresh(r) && r.Valid() && r.t == t && r.val == Apply(t, op, val, t.Convert(rhs))
    {
      r := new Property(t, Apply(t, op, val, t.Convert(rhs)));
    }

    /** Unary -: a new property holding the negated value, converted back to T. */
    method Negate() returns (r: Property)
      requires Valid() && Defined(t, Sub, 0, val)
      ensures fresh(r) && r.Valid() && r.t == t && r.val == Apply(t, Sub, 0, val)
    {
      r := new Property(t, Apply(t, Sub, 0, val));
    }

    /**
     * The comparison operators: the wrapped value against the right-hand
     * side cast to T, which for a value T can represent is the plain comparison.
     */
    function Compares(cmp: Comparison, rhs: int): (r: bool)
      reads this
      requires Valid()
      ensures t.InRange(rhs) ==> (r <==> Compare(cmp, val, rhs))
    {
      Compare(cmp, val, t.Convert(rhs))
    }
  }

  /** Against the same right-hand side, !=, >= and <= are the negations of ==, < and >. */
  lemma ComparesComplement(p: Property, rhs: int)
    requires p.Valid()
    ensures p.Compares(Ne, rhs) <==> !p.Compares(Eq, rhs)
    ensures p.Compares(Ge, rhs) <==> !p.Compares(Lt, rhs)
    ensures p.Compares(Le, rhs) <==> !p.Compares(Gt, rhs)
  {
  }

  /**
   * The right-hand side only matters through its cast: two right-hand sides
   * that differ by a multiple of 2^bits compare alike.
   */
  lemma ComparesCongruent(p: Property, cmp: Comparison, a: int, b: int)
    requires p.Valid() && (a - b) % p.t.Modulus() == 0
    ensures p.Compares(cmp, a) == p.Compares(cmp, b)
  {
    var t, m := p.t, p.t.Modulus();
    var ca, cb := t.Convert(a), t.Convert(b);
    NegMod(a - ca, m);
    ModSum(ca - a, a - b, m);
    ModSum(ca - b, b - cb, m);
    SameResidue(t, ca, cb);
  }

  /** A uint8 property holding 0 equals 256 and is less than -1, both cast to 0 and 255. */
  lemma ComparesCastExample(p: Property)
    requires p.Valid() && p.t == IntType(8, false) && p.val == 0
    ensures p.Compares(Eq, 256) && !Compare(Eq, p.val, 256)
    ensures p.Compares(Lt, -1) && !Compare(Lt, p.val, -1)
  {
  }

  /** The result of a compound assignment is the value of the binary operator. */
  method CompoundMatchesBinary(p: Property, op: ArithOp, rhs: int) returns (copy: Property)
    requires p.Valid() && Defined(p.t, op, p.val, p.t.Convert(rhs))
    modifies p`val
    ensures copy.val == p.val
  {
    copy := p.Binary(op, rhs);
    p.CompoundAssign(op, rhs);
  }

  /** AXIPropertyHolder: the registered properties, in registration order. */
  class PropertyHolder {
    var properties: seq<Property>

    constructor ()
      ensures properties == []
    {
      properties := [];
    }

    /** RegisterProperty: names the property and appends it. */
    method RegisterProperty(prop: Property, name: string)
      modifies this`properties, prop`name
      ensures prop.name == name && properties == old(properties) + [prop]
    {
      prop.name := name;
      properties := properties + [prop];
    }
  }
}
