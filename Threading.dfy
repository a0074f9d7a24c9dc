/**
 * AXThreading: a fixed pool of worker threads handed out by handle. A thread
 * is obtained with a callback and parameters, runs that callback on every
 * iteration of its worker loop, and goes back to the pool when the callback
 * answers Finish or when its handle is released. The callback itself, the
 * native threads and the name given to the operating system stay abstract:
 * a params record says whether a callback is set, and the callback's answer
 * is an input of the worker step.
 */
module Threading {
  import opened Options
  import opened Handles
  import opened MachineInts
  import opened ResourcePool
  import Systems

  /** ThreadResult::Result. */
  datatype ResultKind = ReRun | RerunDelay | Finish

  /** ThreadResult; the delay time (a float) is not modelled. */
  datatype ThreadResult = ThreadResult(result: ResultKind)

  /** A default ThreadResult finishes the thread. */
  const DefaultThreadResult: ThreadResult := ThreadResult(Finish)

  /**
   * ObtainThreadParams: whether a callback is set, the user data (an address,
   * 0 for null) and the thread name.
   */
  datatype ObtainThreadParams = ObtainThreadParams(hasCallback: bool, userData: nat, threadName: string)

  /** The default params: no callback, null user data, the name "Available". */
  const DefaultObtainParams: ObtainThreadParams := ObtainThreadParams(false, 0, "Available")

  /** The name every pool thread is given when it is created or released. */
  const DefaultThreadName: string := "AX Thread"

  /** ThreadHandle: 8-bit ids and 8-bit unique values. */
  const ThreadIdType: IntType := UInt8

  /** OnInitialize takes hardware_concurrency() as a uint32_t. */
  const ConcurrencyType: IntType := UInt32

  /** AXThread::State. */
  datatype ThreadState = Available | Running | Waiting | RunningTask

  /** State::ToString. */
  function ThreadStateName(s: ThreadState): (r: string)
    ensures |r| > 0
  {
    match s
    case Available => "Available"
    case Running => "Running"
    case Waiting => "Waiting"
    case RunningTask => "Running task"
  }

  /** No two states share a name. */
  lemma ThreadStateNamesDistinct(a: ThreadState, b: ThreadState)
    ensures ThreadStateName(a) == ThreadStateName(b) <==> a == b
  {
  }

  /** AXThread: one pool entry. */
  class Thread {
    /** Whether mNativeThread is set. */
    var hasNative: bool
    var params: ObtainThreadParams
    var handle: Handle
    var state: ThreadState
    var name: string

    /** A new thread is Available, has an Invalid handle and no native thread. */
    constructor (invalid: Handle)
      ensures !hasNative && params == DefaultObtainParams && handle == invalid
      ensures state == Available && name == ""
    {
      hasNative := false;
      params := DefaultObtainParams;
      handle := invalid;
      state := Available;
      name := "";
    }
  }

  /** The threads of a pool, as a set for reads and modifies clauses. */
  function ThreadsOf(ts: seq<Thread>): set<Thread>
  {
    set t | t in ts
  }

  class Threading {
    /** The static state of ThreadHandle. */
    const factory: HandleFactory
    /** mThreadPool; null before OnInitialize and after OnShutdown. */
    var pool: ResourcePool?<Thread>
    /** sShuttingDown */
    var shuttingDown: bool

    /**
     * The pool shares the handle type's counters, its threads are distinct
     * objects, and a thread whose params hold a callback is the one bound to
     * its in-use slot through the handle it stores.
     */
    ghost predicate Valid()
      reads this, factory, pool
      reads if pool == null then {} else {pool.storage}
      reads if pool == null then {} else ThreadsOf(pool.storage.items)
    {
      && factory.Valid()
      && factory.idType == ThreadIdType && factory.uniqueType == ThreadIdType
      && (pool != null ==>
        && pool.storage.factory == factory
        && pool.Valid()
        && (forall i, j :: 0 <= i < j < |pool.storage.items| ==> pool.storage.items[i] != pool.storage.items[j])
        && (forall i :: 0 <= i < |pool.storage.items| && pool.storage.items[i].params.hasCallback ==>
             pool.storage.metas[i].inUse && pool.storage.items[i].handle == pool.storage.metas[i].bound))
    }

    constructor (factory: HandleFactory)
      requires factory.Valid() && factory.idType == ThreadIdType && factory.uniqueType == ThreadIdType
      ensures Valid() && this.factory == factory && pool == null && !shuttingDown
    {
      this.factory := factory;
      pool := null;
      shuttingDown := false;
    }

    /** MaxThreads: the pool capacity, which fits in ThreadHandle's id type. */
    function MaxThreads(): (r: nat)
      reads this, factory, pool
      reads if pool == null then {} else {pool.storage}
      reads if pool == null then {} else ThreadsOf(pool.storage.items)
      requires Valid() && pool != null
      ensures r == |pool.storage.items|
      ensures r < factory.MaxId() && ThreadIdType.InRange(r)
    {
      pool.Capacity()
    }

    /**
     * OnInitialize: with fewer than two hardware threads initialisation fails.
     * Otherwise the pool holds one thread per core but the main thread's; the
     * uint32_t count is converted to the pool's uint8_t size type on the way,
     * and the pool constructor asserts that size is below MaxId. Every thread
     * gets a native thread and the default name; all slots are free.
     */
    method OnInitialize(concurrency: nat) returns (r: Systems.InitResult)
      requires Valid() && ConcurrencyType.InRange(concurrency)
      requires concurrency >= 2 ==> ThreadIdType.Convert(concurrency - 1) < factory.MaxId()
      modifies this`pool
      ensures Valid()
      ensures concurrency < 2 ==> r == Systems.InitResult.Failed && pool == old(pool)
      ensures concurrency >= 2 ==>
        && r == Systems.InitResult.Initialized
        && pool != null && fresh(pool) && fresh(pool.storage)
        && |pool.storage.items| == ThreadIdType.Convert(concurrency - 1)
        && pool.Count() == 0
      ensures concurrency >= 2 ==> forall t :: t in pool.storage.items ==>
        && fresh(t) && t.hasNative && t.name == DefaultThreadName
        && t.params == DefaultObtainParams && t.state == Available && t.handle == factory.invalid
    {
      if concurrency < 2 {
        return Systems.InitResult.Failed;
      }
      var size := ThreadIdType.Convert(concurrency - 1);
      var items: seq<Thread> := [];
      while |items| < size
        invariant |items| <= size
        invariant forall i, j :: 0 <= i < j < |items| ==> items[i] != items[j]
        invariant forall t :: t in items ==>
          && fresh(t) && t.hasNative && t.name == DefaultThreadName
          && t.params == DefaultObtainParams && t.state == Available && t.handle == factory.invalid
      {
        var t := new Thread(factory.invalid);
        t.hasNative := true;
        t.name := DefaultThreadName;
        items := items + [t];
      }
      pool := new ResourcePool(factory, items);
      r := Systems.InitResult.Initialized;
    }

    /** OnShutdown: tells the workers to stop, then destroys the pool. */
    method OnShutdown()
      modifies this`pool, this`shuttingDown
      ensures shuttingDown && pool == null
    {
      shuttingDown := true;
      pool := null;
    }

    /**
     * ObtainThread: without a callback, or with every thread taken, the
     * result is Invalid and nothing changes. Otherwise the first free slot is
     * claimed; when its new handle is valid the thread stores that handle,
     * the params and their name, and the handle is returned. A new handle
     * equal to Invalid (slot 0 once the unique counter has wrapped) is
     * reported as Invalid although the slot stays claimed.
     */
    method ObtainThread(params: ObtainThreadParams) returns (h: Handle, slot: Option<nat>)
      requires Valid() && pool != null
      modifies pool.storage`metas, pool.storage`numInUse, factory`nextUnique, factory`constructed
      modifies ThreadsOf(pool.storage.items)
      ensures Valid()
      ensures slot.None? ==> h == factory.invalid && pool.storage.metas == old(pool.storage.metas)
      ensures slot.None? ==> forall t :: t in pool.storage.items ==> unchanged(t)
      ensures slot.None? <==>
        !params.hasCallback || forall j :: 0 <= j < |pool.storage.items| ==> old(pool.storage.metas)[j].inUse
      ensures slot.Some? ==>
        var s := slot.value;
        var nh := Handle(s, old(factory.nextUnique));
        && s < |pool.storage.items| && !old(pool.storage.metas)[s].inUse
        && (forall j :: 0 <= j < s ==> old(pool.storage.metas)[j].inUse)
        && pool.storage.metas == old(pool.storage.metas)[s := Meta(nh, true)]
        && pool.storage.numInUse == old(pool.storage.numInUse) + 1
        && (IsValid(nh, factory.invalid) ==>
             h == nh && pool.storage.items[s].handle == h
             && pool.storage.items[s].params == params && pool.storage.items[s].name == params.threadName)
        && (!IsValid(nh, factory.invalid) ==> h == factory.invalid && unchanged(pool.storage.items[s]))
        && (forall t :: t in pool.storage.items && t != pool.storage.items[s] ==> unchanged(t))
    {
      h, slot := factory.invalid, None;
      if !params.hasCallback {
        return;
      }
      var nh;
      nh, slot := pool.Allocate();
      if slot.Some? && IsValid(nh, factory.invalid) {
        var t := pool.storage.items[slot.value];
        t.handle := nh;
        t.params := params;
        t.name := params.threadName;
        h := nh;
      }
    }

    /**
     * ReleaseThread: when the handle still names its thread, the thread's
     * params go back to the defaults, its state to Available and its name to
     * the default; then the pool releases the handle. The caller's handle
     * becomes Invalid in every case.
     */
    method ReleaseThread(h: Handle) returns (cleared: Handle)
      requires Valid() && pool != null && h.id < |pool.storage.items|
      modifies pool.storage`metas, pool.storage`numInUse, pool.storage.items[h.id]
      ensures Valid()
      ensures cleared == factory.invalid
      ensures pool.TryGet(h).None?
      ensures old(pool.TryGet(h)).Some? ==>
        var t := pool.storage.items[h.id];
        && t.params == DefaultObtainParams && t.state == Available && t.name == DefaultThreadName
        && t.handle == old(t.handle) && t.hasNative == old(t.hasNative)
        && pool.storage.metas == old(pool.storage.metas)[h.id := Meta(factory.invalid, false)]
        && pool.storage.numInUse == old(pool.storage.numInUse) - 1
      ensures old(pool.TryGet(h)).None? ==>
        unchanged(pool.storage.items[h.id])
        && pool.storage.metas == old(pool.storage.metas) && pool.storage.numInUse == old(pool.storage.numInUse)
    {
      var found := pool.TryGet(h);
      if found.Some? {
        var t := found.value;
        t.params := DefaultObtainParams;
        t.state := Available;
        t.name := DefaultThreadName;
      }
      cleared := pool.Release(h);
    }

    /**
     * One iteration of NativeThreadFunc for the i-th thread, whose callback
     * answers result: without a callback nothing happens; with one the
     * thread is Running, and a Finish releases it through its own handle,
     * which Release then overwrites with Invalid.
     */
    method WorkerIteration(i: nat, result: ThreadResult) returns (didSomething: bool)
      requires Valid() && pool != null && i < |pool.storage.items|
      modifies pool.storage`metas, pool.storage`numInUse, pool.storage.items[i]
      ensures Valid()
      ensures didSomething <==> old(pool.storage.items[i].params.hasCallback)
      ensures !didSomething ==> unchanged(pool.storage.items[i]) && pool.storage.metas == old(pool.storage.metas)
      ensures didSomething && result.result != Finish ==>
        pool.storage.items[i].state == Running && pool.storage.metas == old(pool.storage.metas)
        && pool.storage.items[i].params == old(pool.storage.items[i].params)
      ensures didSomething && result.result == Finish ==>
        var t := pool.storage.items[i];
        && t.state == Available && t.params == DefaultObtainParams && t.handle == factory.invalid
        && pool.storage.metas == old(pool.storage.metas)[i := Meta(factory.invalid, false)]
        && pool.storage.numInUse == old(pool.storage.numInUse) - 1
    {
      var t := pool.storage.items[i];
      didSomething := false;
      if t.params.hasCallback {
        t.state := Running;
        didSomething := true;
        if result.result == Finish {
          var cleared := ReleaseThread(t.handle);
          t.handle := cleared;
        }
      }
    }
  }

  /**
   * The count is converted to uint8_t before the pool's size check: a machine
   * with 257 hardware threads gets a pool with no threads at all.
   */
  lemma PoolSizeWraps()
    ensures ThreadIdType.Convert(257 - 1) == 0
  {
  }
}
