/**
 * AXResourcePool_StorageType_FixedSize and the AXResourcePool front end: N
 * slots, each with an in-use flag and the handle currently bound to it.
 * Allocation is first fit; release and lookup only honour the exact handle
 * that was bound, so stale copies of a released handle are refused.
 */
module ResourcePool {
  import opened Options
  import opened Handles

  /** ResourceItemMeta: the handle currently bound to a slot and its in-use flag. */
  datatype Meta = Meta(bound: Handle, inUse: bool)

  /** The number of in-use slots. */
  function CountInUse(metas: seq<Meta>): (n: nat)
    ensures n <= |metas|
    ensures n < |metas| <==> exists i :: 0 <= i < |metas| && !metas[i].inUse
    ensures n > 0 <==> exists i :: 0 <= i < |metas| && metas[i].inUse
  {
    if metas == [] then 0
    else
      var last := |metas| - 1;
      var n := CountInUse(metas[..last]) + (if metas[last].inUse then 1 else 0);
      assert forall i :: 0 <= i < last ==> metas[..last][i] == metas[i];
      n
  }

  function InUseValue(m: Meta): nat {
    if m.inUse then 1 else 0
  }

  /** Changing one slot changes the count by the difference of that slot's flags. */
  lemma {:induction false} CountAfterUpdate(metas: seq<Meta>, i: nat, m: Meta)
    requires i < |metas|
    ensures CountInUse(metas[i := m]) + InUseValue(metas[i]) == CountInUse(metas) + InUseValue(m)
  {
    var last := |metas| - 1;
    if i < last {
      CountAfterUpdate(metas[..last], i, m);
      assert metas[i := m][..last] == metas[..last][i := m];
    } else {
      assert metas[i := m][..last] == metas[..last];
    }
  }

  /** The pool storage: the items, their slot metadata and the in-use count. */
  class FixedSizeStorage<T> {
    /** mItems: default-constructed once, never reallocated. */
    const items: seq<T>
    /** The static counters of the handle type. */
    const factory: HandleFactory
    /** mMetas */
    var metas: seq<Meta>
    /** mNumInUse */
    var numInUse: nat

    ghost predicate Valid()
      reads this, factory
    {
      && factory.Valid()
      && |metas| == |items|
      && |items| < factory.MaxId()
      && numInUse == CountInUse(metas)
      && (forall i :: 0 <= i < |metas| && metas[i].inUse ==> metas[i].bound.id == i)
      && (forall i :: 0 <= i < |metas| && !metas[i].inUse ==> metas[i].bound == factory.invalid)
    }

    /** The constructor: size slots, all free and bound to Invalid; size must be below MaxId. */
    constructor (factory: HandleFactory, items: seq<T>)
      requires factory.Valid() && |items| < factory.MaxId()
      ensures Valid()
      ensures this.factory == factory && this.items == items
      ensures metas == seq(|items|, _ => Meta(factory.invalid, false))
      ensures numInUse == 0
    {
      this.factory := factory;
      this.items := items;
      metas := seq(|items|, _ => Meta(factory.invalid, false));
      numInUse := 0;
    }

    /** Capacity: the construction size. */
    function Capacity(): (r: nat)
      ensures r == |items|
    {
      |items|
    }

    /** Count: the number of in-use slots, never more than the capacity. */
    function Count(): (r: nat)
      reads this, factory
      requires Valid()
      ensures r == CountInUse(metas) && r <= Capacity()
    {
      numInUse
    }

    /**
     * Allocate: claims the lowest-index free slot, binds a freshly created
     * handle carrying that index, counts the slot, and returns the handle and
     * the slot (the item pointer). A full pool returns Invalid and changes
     * nothing. The handle of slot 0 equals Invalid exactly when the unique
     * counter has wrapped back to 0.
     */
    method Allocate() returns (h: Handle, slot: Option<nat>)
      requires Valid()
      modifies this`metas, this`numInUse, factory`nextUnique, factory`constructed
      ensures Valid()
      ensures slot.None? <==> forall j :: 0 <= j < |items| ==> old(metas)[j].inUse
      ensures slot.None? ==>
        && h == factory.invalid
        && metas == old(metas) && numInUse == old(numInUse)
        && factory.nextUnique == old(factory.nextUnique)
        && factory.constructed == old(factory.constructed)
      ensures slot.Some? ==>
        && slot.value < |items|
        && !old(metas)[slot.value].inUse
        && (forall j :: 0 <= j < slot.value ==> old(metas)[j].inUse)
        && h == Handle(slot.value, old(factory.nextUnique))
        && metas == old(metas)[slot.value := Meta(h, true)]
        && numInUse == old(numInUse) + 1
        && factory.constructed == old(factory.constructed) + 1
      ensures slot.Some? && slot.value > 0 ==> IsValid(h, factory.invalid)
      ensures slot == Some(0) ==> (IsValid(h, factory.invalid) <==> old(factory.nextUnique) != 0)
    {
      var i := 0;
      while i < |items|
        invariant 0 <= i <= |items|
        invariant forall j :: 0 <= j < i ==> metas[j].inUse
        invariant metas == old(metas) && numInUse == old(numInUse)
        invariant factory.nextUnique == old(factory.nextUnique)
        invariant factory.constructed == old(factory.constructed)
      {
        if !metas[i].inUse {
          h := factory.CreateFromId(i);
          CountAfterUpdate(metas, i, Meta(h, true));
          metas := metas[i := Meta(h, true)];
          numInUse := numInUse + 1;
          slot := Some(i);
          return;
        }
        i := i + 1;
      }
      h, slot := factory.invalid, None;
    }

    /**
     * Release: frees the slot named by the handle's id only if it is in use and
     * bound to exactly this handle, then clears the binding and uncounts it.
     * The caller's handle is always overwritten with Invalid. The id is used as
     * an index without a bounds check.
     */
    method Release(h: Handle) returns (cleared: Handle)
      requires Valid() && h.id < |items|
      modifies this`metas, this`numInUse
      ensures Valid()
      ensures cleared == factory.invalid
      ensures old(metas)[h.id].inUse && old(metas)[h.id].bound == h ==>
        metas == old(metas)[h.id := Meta(factory.invalid, false)] && numInUse == old(numInUse) - 1
      ensures !(old(metas)[h.id].inUse && old(metas)[h.id].bound == h) ==>
        metas == old(metas) && numInUse == old(numInUse)
      ensures TryGet(h).None?
    {
      var meta := metas[h.id];
      if meta.bound == h && meta.inUse {
        CountAfterUpdate(metas, h.id, Meta(factory.invalid, false));
        metas := metas[h.id := Meta(factory.invalid, false)];
        numInUse := numInUse - 1;
      }
      cleared := factory.invalid;
    }

    /** TryGet: the slot's item iff the slot is in use and bound to exactly this handle. */
    function TryGet(h: Handle): (r: Option<T>)
      reads this, factory
      requires Valid() && h.id < |items|
      ensures r.Some? <==> metas[h.id].inUse && metas[h.id].bound == h
      ensures r.Some? ==> r.value == items[h.id]
    {
      var meta := metas[h.id];
      if meta.inUse && Equal(meta.bound, h) then Some(items[h.id]) else None
    }
  }

  /** AXResourcePool: a front end whose operations delegate to its storage. */
  class ResourcePool<T> {
    const storage: FixedSizeStorage<T>

    ghost predicate Valid()
      reads this, storage, storage.factory
    {
      storage.Valid()
    }

    constructor (factory: HandleFactory, items: seq<T>)
      requires factory.Valid() && |items| < factory.MaxId()
      ensures Valid() && fresh(storage)
      ensures storage.factory == factory && storage.items == items
      ensures storage.metas == seq(|items|, _ => Meta(factory.invalid, false))
      ensures storage.numInUse == 0
    {
      storage := new FixedSizeStorage(factory, items);
    }

    method Allocate() returns (h: Handle, slot: Option<nat>)
      requires Valid()
      modifies storage`metas, storage`numInUse, storage.factory`nextUnique, storage.factory`constructed
      ensures Valid()
      ensures slot.None? <==> forall j :: 0 <= j < |storage.items| ==> old(storage.metas)[j].inUse
      ensures slot.None? ==>
        && h == storage.factory.invalid
        && storage.metas == old(storage.metas) && storage.numInUse == old(storage.numInUse)
        && storage.factory.nextUnique == old(storage.factory.nextUnique)
        && storage.factory.constructed == old(storage.factory.constructed)
      ensures slot.Some? ==>
        && slot.value < |storage.items|
        && !old(storage.metas)[slot.value].inUse
        && (forall j :: 0 <= j < slot.value ==> old(storage.metas)[j].inUse)
        && h == Handle(slot.value, old(storage.factory.nextUnique))
        && storage.metas == old(storage.metas)[slot.value := Meta(h, true)]
        && storage.numInUse == old(storage.numInUse) + 1
        && storage.factory.constructed == old(storage.factory.constructed) + 1
      ensures slot.Some? && slot.value > 0 ==> IsValid(h, storage.factory.invalid)
      ensures slot == Some(0) ==> (IsValid(h, storage.factory.invalid) <==> old(storage.factory.nextUnique) != 0)
    {
      h, slot := storage.Allocate();
    }

    method Release(h: Handle) returns (cleared: Handle)
      requires Valid() && h.id < |storage.items|
      modifies storage`metas, storage`numInUse
      ensures Valid()
      ensures cleared == storage.factory.invalid
      ensures old(storage.metas)[h.id].inUse && old(storage.metas)[h.id].bound == h ==>
        storage.metas == old(storage.metas)[h.id := Meta(storage.factory.invalid, false)]
        && storage.numInUse == old(storage.numInUse) - 1
      ensures !(old(storage.metas)[h.id].inUse && old(storage.metas)[h.id].bound == h) ==>
        storage.metas == old(storage.metas) && storage.numInUse == old(storage.numInUse)
      ensures TryGet(h).None?
    {
      cleared := storage.Release(h);
    }

    function TryGet(h: Handle): (r: Option<T>)
      reads this, storage, storage.factory
      requires Valid() && h.id < |storage.items|
      ensures r.Some? <==> storage.metas[h.id].inUse && storage.metas[h.id].bound == h
      ensures r.Some? ==> r.value == storage.items[h.id]
    {
      storage.TryGet(h)
    }

    function Capacity(): (r: nat)
      reads this
      ensures r == |storage.items|
    {
      storage.Capacity()
    }

    function Count(): (r: nat)
      reads this, storage, storage.factory
      requires Valid()
      ensures r == CountInUse(storage.metas) && r <= Capacity()
    {
      storage.Count()
    }
  }
}
