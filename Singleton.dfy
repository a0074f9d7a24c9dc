/**
 * AXSingleton<T>: one lazily created instance per T, held in the static
 * sInstance. Use<DerivedType> installs an instance of a type derived from T;
 * Get returns the instance, creating a T first when there is none.
 */
module Singleton {

  /** A class type: its name and the names of all its base classes. */
  datatype TypeInfo = TypeInfo(name: string, bases: set<string>)

  /** std::is_base_of<T, D>: T is D itself or one of its bases. */
  predicate IsBaseOf(t: string, d: TypeInfo)
  {
    t == d.name || t in d.bases
  }

  /** An object created by new, with its dynamic type. */
  class Instance {
    const dynamicType: TypeInfo

    constructor (dynamicType: TypeInfo)
      ensures this.dynamicType == dynamicType
    {
      this.dynamicType := dynamicType;
    }
  }

  /** The static state of AXSingleton<T>: T and sInstance. */
  class Singleton {
    const baseType: TypeInfo
    var instance: Instance?

    /** The only instance the singleton can hold is of T or a type derived from T. */
    ghost predicate Valid()
      reads this, instance
    {
      instance != null ==> IsBaseOf(baseType.name, instance.dynamicType)
    }

    /** sInstance starts as nullptr. */
    constructor (baseType: TypeInfo)
      ensures Valid() && this.baseType == baseType && instance == null
    {
      this.baseType := baseType;
      instance := null;
    }

    /**
     * Use<DerivedType>: asserts that no instance exists, then installs a new
     * DerivedType instance and returns it.
     */
    method Use(derived: TypeInfo) returns (r: Instance)
      requires instance == null
      requires IsBaseOf(baseType.name, derived)
      modifies this`instance
      ensures Valid() && fresh(r) && r.dynamicType == derived && instance == r
    {
      r := new Instance(derived);
      instance := r;
    }

    /**
     * Get: creates a T only when there is no instance; otherwise returns the
     * instance that exists, leaving it in place.
     */
    method Get() returns (r: Instance)
      requires Valid()
      modifies this`instance
      ensures Valid() && instance == r
      ensures old(instance) != null ==> r == old(instance)
      ensures old(instance) == null ==> fresh(r) && r.dynamicType == baseType
    {
      if instance == null {
        instance := new Instance(baseType);
      }
      r := instance;
    }
  }

  /** Every Get after the first returns the instance the first one returned. */
  method GetTwice(s: Singleton) returns (first: Instance, second: Instance)
    requires s.Valid()
    modifies s`instance
    ensures first == second && s.instance == first
    ensures old(s.instance) != null ==> first == old(s.instance)
  {
    first := s.Get();
    second := s.Get();
  }

  /** After Use, Get returns the instance Use created, of the derived type. */
  method UseThenGet(s: Singleton, derived: TypeInfo) returns (used: Instance, got: Instance)
    requires s.instance == null && IsBaseOf(s.baseType.name, derived)
    modifies s`instance
    ensures used == got && got.dynamicType == derived
  {
    used := s.Use(derived);
    got := s.Get();
  }
}
