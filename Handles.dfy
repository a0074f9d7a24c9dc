/**
 * AXHandleBase<IdType, UniqueType>: a handle is an (id, unique) pair compared by
 * value. The unique part comes from one counter shared by every handle of the
 * type, which wraps at the width of UniqueType.
 */
module Handles {
  import opened MachineInts

  /** A handle. Copying one (copy constructor, assignment) copies both parts. */
  datatype Handle = Handle(id: nat, unique: nat)

  /** operator==: both the id and the unique value agree. */
  function Equal(a: Handle, b: Handle): (r: bool)
    ensures r <==> a == b
  {
    a.id == b.id && a.unique == b.unique
  }

  /** operator!=: exactly the negation of operator==. */
  function NotEqual(a: Handle, b: Handle): (r: bool)
    ensures r <==> a != b
    ensures r == !Equal(a, b)
  {
    !Equal(a, b)
  }

  /** IsValid and operator bool: the handle differs from the type's Invalid. */
  function IsValid(h: Handle, invalid: Handle): (r: bool)
    ensures r <==> h != invalid
  {
    NotEqual(h, invalid)
  }

  /** One post-increment of a counter of the unsigned type t: wraps from the maximum to 0. */
  function Increment(c: nat, t: IntType): (r: nat)
    requires t.Supported() && !t.signed && c < t.Modulus()
    ensures r < t.Modulus()
    ensures r == (c + 1) % t.Modulus()
  {
    if c + 1 == t.Modulus() then 0 else c + 1
  }

  /**
   * The value of the unique counter after n constructions from an id, counting
   * from its initial value 0.
   */
  function CounterAfter(n: nat, t: IntType): (c: nat)
    requires t.Supported() && !t.signed
    ensures c < t.Modulus()
  {
    if n == 0 then 0 else Increment(CounterAfter(n - 1, t), t)
  }

  /** Adding d (less than the modulus) to c and wrapping once. */
  function WrapAdd(c: nat, d: nat, m: nat): nat
  {
    if c + d < m then c + d else c + d - m
  }

  /** d constructions after construction j, the counter has advanced by d, wrapping at most once. */
  lemma {:induction false} CounterAdvance(j: nat, d: nat, t: IntType)
    requires t.Supported() && !t.signed && d < t.Modulus()
    ensures CounterAfter(j + d, t) == WrapAdd(CounterAfter(j, t), d, t.Modulus())
  {
    if d > 0 {
      CounterAdvance(j, d - 1, t);
    }
  }

  /** Before the first wrap the counter equals the number of constructions. */
  lemma CounterBeforeWrap(n: nat, t: IntType)
    requires t.Supported() && !t.signed && n < t.Modulus()
    ensures CounterAfter(n, t) == n
  {
    CounterAdvance(0, n, t);
  }

  /** Unique values repeat: 2^bits constructions later the same value is handed out again. */
  lemma {:induction false} CounterRepeats(n: nat, t: IntType)
    requires t.Supported() && !t.signed
    ensures CounterAfter(n + t.Modulus(), t) == CounterAfter(n, t)
  {
    if n == 0 {
      CounterBeforeWrap(t.Modulus() - 1, t);
    } else {
      CounterRepeats(n - 1, t);
    }
  }

  /** Within a window of fewer than 2^bits constructions no unique value is handed out twice. */
  lemma CounterDistinctInWindow(j: nat, k: nat, t: IntType)
    requires t.Supported() && !t.signed
    requires j < k < j + t.Modulus()
    ensures CounterAfter(j, t) != CounterAfter(k, t)
  {
    CounterAdvance(j, k - j, t);
  }

  /**
   * The static state behind one handle type: the counter of Create() and the
   * counter of AllocateNextUnique, plus the type's Invalid constant.
   */
  class HandleFactory {
    const idType: IntType
    const uniqueType: IntType
    /** Invalid, built at static initialisation by the constructor from id 0. */
    const invalid: Handle
    /** Create()'s static nextId. */
    var nextId: nat
    /** AllocateNextUnique's static nextUnique. */
    var nextUnique: nat
    /** How many handles have been constructed from an id so far, Invalid included. */
    ghost var constructed: nat

    ghost predicate Valid()
      reads this
    {
      && idType.Supported() && !idType.signed
      && uniqueType.Supported() && !uniqueType.signed
      && invalid == Handle(0, 0)
      && nextId < idType.Modulus()
      && constructed >= 1
      && nextUnique == CounterAfter(constructed, uniqueType)
    }

    /** MaxId: the largest value of IdType. */
    function MaxId(): (r: nat)
      reads this
      requires Valid()
      ensures r + 1 == idType.Modulus()
    {
      idType.Modulus() - 1
    }

    /**
     * Static initialisation: both counters start at 0 and building Invalid from
     * id 0 takes the first unique value, so Invalid is (0, 0) and the next unique is 1.
     */
    constructor (idType: IntType, uniqueType: IntType)
      requires idType.Supported() && !idType.signed
      requires uniqueType.Supported() && !uniqueType.signed
      ensures Valid()
      ensures this.idType == idType && this.uniqueType == uniqueType
      ensures invalid == Handle(0, 0)
      ensures nextId == 0 && nextUnique == 1 && constructed == 1
    {
      this.idType := idType;
      this.uniqueType := uniqueType;
      invalid := Handle(0, 0);
      nextId := 0;
      nextUnique := 1;
      constructed := 1;
    }

    /** The protected constructor from an id: stores the id and takes the next unique value. */
    method Construct(id: nat) returns (h: Handle)
      requires Valid() && idType.InRange(id)
      modifies this`nextUnique, this`constructed
      ensures Valid()
      ensures h == Handle(id, old(nextUnique))
      ensures h.unique == CounterAfter(old(constructed), uniqueType)
      ensures constructed == old(constructed) + 1
    {
      h := Handle(id, nextUnique);
      nextUnique := Increment(nextUnique, uniqueType);
      constructed := constructed + 1;
    }

    /** Create(id): a handle whose Id() is id. */
    method CreateFromId(id: nat) returns (h: Handle)
      requires Valid() && idType.InRange(id)
      modifies this`nextUnique, this`constructed
      ensures Valid()
      ensures h.id == id && h.unique == old(nextUnique)
      ensures constructed == old(constructed) + 1
    {
      h := Construct(id);
    }

    /** Create(): uses the static nextId, which post-increments and wraps in IdType. */
    method Create() returns (h: Handle)
      requires Valid()
      modifies this
      ensures Valid()
      ensures h == Handle(old(nextId), old(nextUnique))
      ensures nextId == (old(nextId) + 1) % idType.Modulus()
      ensures constructed == old(constructed) + 1
    {
      h := Construct(nextId);
      nextId := Increment(nextId, idType);
    }
  }

  /**
   * The default constructor copies Invalid and takes no unique value; a handle
   * from any construction whose unique value has wrapped back to 0 and whose id
   * is 0 is indistinguishable from Invalid.
   */
  lemma ReissuedInvalid(f: HandleFactory)
    requires f.Valid()
    ensures Handle(0, CounterAfter(f.uniqueType.Modulus(), f.uniqueType)) == f.invalid
    ensures !IsValid(Handle(0, CounterAfter(f.uniqueType.Modulus(), f.uniqueType)), f.invalid)
  {
    CounterRepeats(0, f.uniqueType);
  }
}
