/**
 * AXTask and AXThreadedTasks: a queue of prioritised tasks behind a
 * multi-reader lock, served by dedicated pool threads. Each task carries a
 * counter that starts at its priority times 1000; every selection counts all
 * counters down by one and runs the task with the smallest counter, the
 * earliest queued one on a tie. A task is identified by the address of its
 * AXTask object, modelled as an id that is never reused.
 */
module ThreadedTasks {
  import opened Options
  import opened MachineInts
  import opened Handles
  import opened ThreadingPrimitives
  import opened Threading
  import Systems
  import ResourcePool

  /** AXTask::Priority, in the order of its enumerators. */
  datatype Priority = ASAP | VeryHigh | High | Normal | Low | VeryLow

  /** The enumerator's value. */
  function PriorityValue(p: Priority): (v: nat)
    ensures v <= 5
    ensures v == 0 <==> p == ASAP
    ensures v == 5 <==> p == VeryLow
  {
    match p
    case ASAP => 0
    case VeryHigh => 1
    case High => 2
    case Normal => 3
    case Low => 4
    case VeryLow => 5
  }

  /** Priority::ToString. */
  function PriorityName(p: Priority): (r: string)
    ensures |r| > 0
  {
    match p
    case ASAP => "ASAP"
    case VeryHigh => "VeryHigh"
    case High => "High"
    case Normal => "Normal"
    case Low => "Low"
    case VeryLow => "VeryLow"
  }

  /** Distinct levels have distinct values and distinct names. */
  lemma PriorityEncodingsInjective(a: Priority, b: Priority)
    ensures PriorityValue(a) == PriorityValue(b) <==> a == b
    ensures PriorityName(a) == PriorityName(b) <==> a == b
  {
  }

  /** AXTask::Params: whether a callback is set, the priority and the user data (0 for null). */
  datatype TaskParams = TaskParams(hasCallback: bool, priority: Priority, userData: nat)

  /** Default params: no callback, Normal priority, null user data. */
  const DefaultTaskParams: TaskParams := TaskParams(false, Normal, 0)

  /** mPriorityCounter is an int32_t. */
  const CounterType: IntType := Int32

  /** A queued AXTask: its identity, its params and its countdown. */
  datatype Task = Task(id: nat, params: TaskParams, counter: int)

  /** The AXTask constructor: the counter starts at priority * 1000. */
  function NewTask(id: nat, params: TaskParams): (t: Task)
    ensures t.id == id && t.params == params
    ensures 0 <= t.counter <= 5000 && CounterType.InRange(t.counter)
    ensures t.counter % 1000 == 0 && t.counter / 1000 == PriorityValue(params.priority)
  {
    Task(id, params, PriorityValue(params.priority) * 1000)
  }

  /** A more urgent priority starts with a strictly smaller counter, by a full 1000. */
  lemma NewTaskOrder(id1: nat, p1: TaskParams, id2: nat, p2: TaskParams)
    requires PriorityValue(p1.priority) < PriorityValue(p2.priority)
    ensures NewTask(id1, p1).counter + 1000 <= NewTask(id2, p2).counter
  {
  }

  /** The dedicated-thread setting (an AXProperty<uint8_t>) defaults to 1. */
  const DefaultDedicatedThreads: nat := 1

  /** No two queued entries are the same task. */
  predicate DistinctIds(q: seq<Task>)
  {
    forall i, j :: 0 <= i < j < |q| ==> q[i].id != q[j].id
  }

  /** Every counter can be decremented without leaving int32_t. */
  predicate Decrementable(q: seq<Task>)
  {
    forall k :: 0 <= k < |q| ==> CounterType.InRange(q[k].counter - 1)
  }

  /** The queue after the countdown: every counter one less, nothing else changed. */
  function Decremented(q: seq<Task>): (r: seq<Task>)
    ensures |r| == |q|
  {
    seq(|q|, k requires 0 <= k < |q| => q[k].(counter := q[k].counter - 1))
  }

  /** i holds the smallest counter of q, and every earlier entry a strictly larger one. */
  predicate IsFirstMin(q: seq<Task>, i: nat)
  {
    && i < |q|
    && (forall k :: 0 <= k < |q| ==> q[i].counter <= q[k].counter)
    && (forall k :: 0 <= k < i ==> q[i].counter < q[k].counter)
  }

  /** std::list::remove: every entry of the given task goes, the others keep their order. */
  function RemoveTask(q: seq<Task>, id: nat): (r: seq<Task>)
    ensures |r| <= |q|
    ensures forall t :: t in r ==> t in q && t.id != id
  {
    if q == [] then []
    else if q[0].id == id then RemoveTask(q[1..], id)
    else [q[0]] + RemoveTask(q[1..], id)
  }

  /** In a queue of distinct tasks, removing the i-th task's id removes exactly position i. */
  lemma {:induction false} RemoveTaskAt(q: seq<Task>, i: nat)
    requires DistinctIds(q) && i < |q|
    ensures RemoveTask(q, q[i].id) == q[..i] + q[i + 1..]
  {
    var t := q[1..];
    if i == 0 {
      RemoveTaskAbsent(t, q[0].id);
      assert q[..0] + q[1..] == t;
    } else {
      assert q[0].id != q[i].id;
      assert RemoveTask(q, q[i].id) == [q[0]] + RemoveTask(t, q[i].id);
      assert DistinctIds(t);
      assert t[i - 1] == q[i];
      RemoveTaskAt(t, i - 1);
      assert RemoveTask(q, q[i].id) == [q[0]] + (t[..i - 1] + t[i..]);
      assert [q[0]] + (t[..i - 1] + t[i..]) == ([q[0]] + t[..i - 1]) + t[i..];
      assert q[..i] == [q[0]] + t[..i - 1];
      assert q[i + 1..] == t[i..];
    }
  }

  /** Removing a task that is not queued changes nothing. */
  lemma {:induction false} RemoveTaskAbsent(q: seq<Task>, id: nat)
    requires forall k :: 0 <= k < |q| ==> q[k].id != id
    ensures RemoveTask(q, id) == q
  {
    if q != [] {
      RemoveTaskAbsent(q[1..], id);
    }
  }

  /**
   * The selection step of RunNextAvailableTask (lines 124-137): counts every
   * counter down in place, remembers the first task with the smallest new
   * counter, and removes it. chosen is that task's position; rest the queue
   * left behind.
   */
  method SelectNextTask(queue: seq<Task>) returns (rest: seq<Task>, chosen: Option<nat>)
    requires Decrementable(queue)
    ensures chosen.None? <==> queue == []
    ensures chosen.None? ==> rest == []
    ensures chosen.Some? ==>
      && IsFirstMin(Decremented(queue), chosen.value)
      && rest == RemoveTask(Decremented(queue), queue[chosen.value].id)
  {
    var q := queue;
    chosen := None;
    var k := 0;
    while k < |q|
      invariant 0 <= k <= |q| == |queue|
      invariant forall j :: 0 <= j < k ==> q[j] == Decremented(queue)[j]
      invariant forall j :: k <= j < |q| ==> q[j] == queue[j]
      invariant chosen.None? <==> k == 0
      invariant chosen.Some? ==> IsFirstMin(Decremented(queue)[..k], chosen.value)
    {
      q := q[k := q[k].(counter := q[k].counter - 1)];
      if chosen.None? || q[k].counter < q[chosen.value].counter {
        chosen := Some(k);
      }
      k := k + 1;
    }
    assert q == Decremented(queue);
    assert Decremented(queue)[..k] == Decremented(queue);
    if chosen.Some? {
      rest := RemoveTask(q, q[chosen.value].id);
    } else {
      rest := [];
    }
  }

  /**
   * With distinct tasks, the selection removes exactly the chosen task: the
   * queue shrinks by one, the others keep their order, and each of them has
   * its counter one lower than before.
   */
  lemma SelectionShape(queue: seq<Task>, i: nat, rest: seq<Task>)
    requires DistinctIds(queue) && i < |queue|
    requires rest == RemoveTask(Decremented(queue), queue[i].id)
    ensures rest == Decremented(queue)[..i] + Decremented(queue)[i + 1..]
    ensures |rest| == |queue| - 1
    ensures forall k :: 0 <= k < |rest| ==>
      var src := if k < i then k else k + 1;
      rest[k] == queue[src].(counter := queue[src].counter - 1)
  {
    var d := Decremented(queue);
    assert DistinctIds(d) by {
      forall a, b | 0 <= a < b < |d| ensures d[a].id != d[b].id {
        assert d[a].id == queue[a].id && d[b].id == queue[b].id;
      }
    }
    RemoveTaskAt(d, i);
  }

  /**
   * The name FormatString gives a dedicated thread: the "%d" becomes the
   * decimal digits of i.
   */
  function DedicatedThreadName(i: nat): (r: string)
    ensures |r| > |"Threaded Tasks dedicated thread "|
    ensures r[..|"Threaded Tasks dedicated thread "|] == "Threaded Tasks dedicated thread "
    ensures r[|r| - 1] == '.'
  {
    "Threaded Tasks dedicated thread " + Decimal(i) + "."
  }

  /** The decimal digits of n, most significant first. */
  function Decimal(n: nat): (r: string)
    ensures |r| >= 1
    ensures forall c :: c in r ==> '0' <= c <= '9'
  {
    var d := ['0' + (n % 10) as char];
    if n < 10 then d else Decimal(n / 10) + d
  }

  /**
   * Whether every handle of hs from index from on is Invalid or names a
   * thread of the pool, and the k-th of those threads was obtained with the
   * params of the k-th dedicated thread.
   */
  ghost predicate Obtained(pool: ResourcePool.ResourcePool<Thread>, hs: seq<Handle>, from: nat)
    reads pool, pool.storage, pool.storage.factory, ThreadsOf(pool.storage.items)
    requires pool.Valid() && from <= |hs|
  {
    forall k :: from <= k < |hs| ==>
      && hs[k].id < |pool.storage.items|
      && (hs[k] == pool.storage.factory.invalid || pool.TryGet(hs[k]).Some?)
      && (hs[k] != pool.storage.factory.invalid ==>
            pool.storage.items[hs[k].id].params == DedicatedParams(k - from))
  }

  /** The params of the i-th dedicated thread. */
  function DedicatedParams(i: nat): ObtainThreadParams
  {
    ObtainThreadParams(true, 0, DedicatedThreadName(i))
  }

  /**
   * One iteration of OnInitialize's loop: obtains the next dedicated thread
   * and appends its handle. Obtaining claims a free slot, so the handles
   * obtained before keep naming their threads.
   */
  method ObtainDedicated(threading: Threading, hs: seq<Handle>, from: nat) returns (hs': seq<Handle>)
    requires threading.Valid() && threading.pool != null && from <= |hs|
    requires |threading.pool.storage.items| > 0
    requires Obtained(threading.pool, hs, from)
    modifies threading.pool.storage, threading.factory, ThreadsOf(threading.pool.storage.items)
    ensures threading.Valid() && threading.pool == old(threading.pool)
    ensures |hs'| == |hs| + 1 && hs'[..|hs|] == hs
    ensures Obtained(threading.pool, hs', from)
  {
    var pool := threading.pool;
    ghost var items := pool.storage.items;
    ghost var invalid := threading.factory.invalid;
    label L:
    var h, slot := threading.ObtainThread(DedicatedParams(|hs| - from));
    hs' := hs + [h];
    forall k | from <= k < |hs'|
      ensures hs'[k].id < |items|
      ensures hs'[k] == invalid || pool.TryGet(hs'[k]).Some?
      ensures hs'[k] != invalid ==> items[hs'[k].id].params == DedicatedParams(k - from)
    {
      if k == |hs| {
        assert hs'[k] == h;
      } else if hs[k] != invalid {
        assert hs'[k] == hs[k];
        assert old@L(pool.TryGet(hs[k])).Some?;
        if slot.Some? {
          assert hs[k].id != slot.value;
          assert items[hs[k].id] != items[slot.value];
        }
      }
    }
    assert hs'[..|hs|] == hs;
  }

  /**
   * OnInitialize's loop: obtains n dedicated threads, in order, and appends
   * their handles to hs.
   */
  method ObtainAllDedicated(threading: Threading, hs: seq<Handle>, n: nat) returns (hs': seq<Handle>)
    requires threading.Valid() && threading.pool != null && n <= |threading.pool.storage.items|
    modifies threading.pool.storage, threading.factory, ThreadsOf(threading.pool.storage.items)
    ensures threading.Valid() && threading.pool == old(threading.pool)
    ensures |hs'| == |hs| + n && hs'[..|hs|] == hs
    ensures Obtained(threading.pool, hs', |hs|)
  {
    hs' := hs;
    var i := 0;
    while i < n
      invariant 0 <= i <= n
      invariant threading.Valid() && threading.pool == old(threading.pool)
      invariant |hs'| == |hs| + i && hs'[..|hs|] == hs
      invariant Obtained(threading.pool, hs', |hs|)
    {
      ghost var before := hs';
      hs' := ObtainDedicated(threading, hs', |hs|);
      assert hs'[..|hs|] == before[..|hs|];
      i := i + 1;
    }
  }

  /**
   * One iteration of OnShutdown's loop: releases the k-th dedicated handle;
   * the handles released before stay released.
   */
  method ReleaseDedicated(threading: Threading, hs: seq<Handle>, k: nat) returns (cleared: Handle)
    requires threading.Valid() && threading.pool != null && k < |hs|
    requires forall h :: h in hs ==> h.id < |threading.pool.storage.items|
    requires forall j :: 0 <= j < k ==> threading.pool.TryGet(hs[j]).None?
    modifies threading.pool.storage, ThreadsOf(threading.pool.storage.items)
    ensures threading.Valid() && threading.pool == old(threading.pool)
    ensures forall j :: 0 <= j <= k ==> threading.pool.TryGet(hs[j]).None?
    ensures cleared == threading.factory.invalid
  {
    assert hs[k] in hs;
    cleared := threading.ReleaseThread(hs[k]);
  }

  /** OnShutdown's loop: releases every handle of hs; the caller's copies all become Invalid. */
  method ReleaseAllDedicated(threading: Threading, hs: seq<Handle>) returns (cleared: seq<Handle>)
    requires threading.Valid() && threading.pool != null
    requires forall h :: h in hs ==> h.id < |threading.pool.storage.items|
    modifies threading.pool.storage, ThreadsOf(threading.pool.storage.items)
    ensures threading.Valid() && threading.pool == old(threading.pool)
    ensures forall h :: h in hs ==> threading.pool.TryGet(h).None?
    ensures |cleared| == |hs| && forall h :: h in cleared ==> h == threading.factory.invalid
  {
    cleared := [];
    var k := 0;
    while k < |hs|
      invariant 0 <= k <= |hs| && |cleared| == k
      invariant threading.Valid() && threading.pool == old(threading.pool)
      invariant forall j :: 0 <= j < k ==> threading.pool.TryGet(hs[j]).None?
      invariant forall h :: h in cleared ==> h == threading.factory.invalid
    {
      var c := ReleaseDedicated(threading, hs, k);
      cleared := cleared + [c];
      k := k + 1;
    }
  }

  class ThreadedTasks {
    /** mTasks: the queue and the lock that guards it. */
    const tasks: LockedObject<seq<Task>>
    /** mDedicatedThreads */
    var dedicated: seq<Handle>
    /** The mNumDedicatedThreads setting. */
    var numDedicatedThreads: nat
    /** The id the next new AXTask receives. */
    var nextTaskId: nat

    ghost predicate Valid()
      reads this, tasks, tasks.lock
    {
      && tasks.Valid()
      && DistinctIds(tasks.obj)
      && (forall t :: t in tasks.obj ==> t.id < nextTaskId)
      && ThreadIdType.InRange(numDedicatedThreads)
    }

    /** The system starts with an empty, unlocked queue and the default setting. */
    constructor ()
      ensures Valid() && fresh(tasks) && fresh(tasks.lock)
      ensures tasks.obj == [] && tasks.lock.writer == 0 && tasks.lock.readers == []
      ensures dedicated == [] && numDedicatedThreads == DefaultDedicatedThreads
    {
      tasks := new LockedObject([]);
      dedicated := [];
      numDedicatedThreads := DefaultDedicatedThreads;
      nextTaskId := 0;
    }

    /**
     * RequestTaskRun: params without a callback are ignored. Otherwise a new
     * task is appended at the back under the write lock, taken with the
     * params' address as id, and the lock is released again. GetWrite spins
     * until no reader and no other writer is left, so that is required.
     */
    method RequestTaskRun(params: TaskParams, lockId: nat)
      requires Valid() && lockId != 0
      requires params.hasCallback ==>
        tasks.lock.readers == [] && (tasks.lock.writer == 0 || tasks.lock.writer == lockId)
      modifies this`nextTaskId, tasks, tasks.lock
      ensures Valid()
      ensures !params.hasCallback ==>
        tasks.obj == old(tasks.obj) && nextTaskId == old(nextTaskId)
        && tasks.lock.writer == old(tasks.lock.writer) && tasks.lock.readers == old(tasks.lock.readers)
      ensures params.hasCallback ==>
        && tasks.obj == old(tasks.obj) + [NewTask(old(nextTaskId), params)]
        && nextTaskId == old(nextTaskId) + 1
        && tasks.lock.writer == 0 && tasks.lock.readers == []
    {
      if params.hasCallback {
        var task := NewTask(nextTaskId, params);
        nextTaskId := nextTaskId + 1;
        var q := tasks.GetWrite(lockId);
        tasks.obj := q + [task];
        tasks.ReleaseLock(lockId);
      }
    }

    /**
     * RunNextAvailableTask as written. The emptiness test read-locks the
     * queue and only the empty branch releases that lock; the write attempt
     * that follows finds the caller's own read entry and fails, so a
     * non-empty queue runs nothing, returns false and leaves a read entry
     * behind, which makes every later GetWrite, and so every RequestTaskRun
     * with a callback, spin for ever.
     */
    method RunNextAvailableTaskAsWritten(lockId: nat) returns (ran: bool)
      requires Valid() && lockId != 0 && tasks.lock.writer == 0
      modifies tasks.lock
      ensures Valid() && !ran
      ensures tasks.lock.writer == 0
      ensures old(tasks.obj) == [] ==> tasks.lock.readers == RemoveAll(old(tasks.lock.readers) + [lockId], lockId)
      ensures old(tasks.obj) != [] ==> tasks.lock.readers == old(tasks.lock.readers) + [lockId]
      ensures old(tasks.obj) != [] ==> tasks.lock.readers != []
    {
      var q := tasks.GetRead(lockId);
      if q == [] {
        tasks.ReleaseLock(lockId);
        return false;
      }
      var w := tasks.TryGetWrite(lockId);
      assert w.None?;
      ran := false;
    }

    /**
     * RunNextAvailableTask with the read lock released after the emptiness
     * test. The write lock is then taken exactly when no other thread holds
     * a read entry; the selection step runs under it, the lock is released,
     * and the chosen task is returned to be run.
     */
    method RunNextAvailableTask(lockId: nat) returns (ran: Option<Task>)
      requires Valid() && lockId != 0 && tasks.lock.writer == 0
      requires Decrementable(tasks.obj)
      modifies tasks, tasks.lock
      ensures Valid() && tasks.lock.writer == 0
      ensures ran.Some? <==> old(tasks.obj) != [] && RemoveAll(old(tasks.lock.readers), lockId) == []
      ensures ran.None? ==> tasks.obj == old(tasks.obj)
      ensures ran.None? ==> tasks.lock.readers == RemoveAll(old(tasks.lock.readers) + [lockId], lockId)
      ensures ran.Some? ==> tasks.lock.readers == []
      ensures ran.Some? ==> tasks.obj == RemoveTask(Decremented(old(tasks.obj)), ran.value.id)
      ensures ran.Some? ==> exists i: nat :: IsFirstMin(Decremented(old(tasks.obj)), i) && ran.value == Decremented(old(tasks.obj))[i]
    {
      ran := None;
      var q := tasks.GetRead(lockId);
      tasks.ReleaseLock(lockId);
      RemoveAllAppended(old(tasks.lock.readers), lockId);
      if q == [] {
        return;
      }
      var w := tasks.TryGetWrite(lockId);
      if w.Some? {
        var rest, chosen := SelectNextTask(w.value);
        var i := chosen.value;
        ran := Some(Decremented(w.value)[i]);
        SelectionShape(w.value, i, rest);
        tasks.obj := rest;
        tasks.ReleaseLock(lockId);
        assert RemoveAll([], lockId) == [];
      }
    }

    /**
     * OnInitialize: without a threading system there is nothing to do; until
     * threading is Initialized the answer is Retry. Then the setting is
     * clamped to MaxThreads and that many threads are obtained with the
     * worker callback, each under its own name, and their handles appended.
     */
    method OnInitialize(threading: Threading?, threadingState: Systems.State) returns (r: Systems.InitResult)
      requires Valid()
      requires threading != null && threadingState == Systems.State.Initialized ==>
        threading.Valid() && threading.pool != null
      modifies this`numDedicatedThreads, this`dedicated
      modifies if threading == null || threading.pool == null then {}
        else {threading.pool.storage, threading.factory} + ThreadsOf(threading.pool.storage.items)
      ensures Valid()
      ensures threading == null ==>
        r == Systems.InitResult.Initialized && dedicated == old(dedicated) && numDedicatedThreads == old(numDedicatedThreads)
      ensures threading != null && threadingState != Systems.State.Initialized ==>
        r == Systems.InitResult.Retry && dedicated == old(dedicated) && numDedicatedThreads == old(numDedicatedThreads)
      ensures threading != null && threadingState == Systems.State.Initialized ==>
        r == Systems.InitResult.Initialized && threading.Valid() && threading.pool == old(threading.pool)
      ensures threading != null && threadingState == Systems.State.Initialized ==>
        var cap := |threading.pool.storage.items|;
        numDedicatedThreads == if old(numDedicatedThreads) > cap then cap else old(numDedicatedThreads)
      ensures threading != null && threadingState == Systems.State.Initialized ==>
        |dedicated| == |old(dedicated)| + numDedicatedThreads && dedicated[..|old(dedicated)|] == old(dedicated)
      ensures threading != null && threadingState == Systems.State.Initialized ==>
        Obtained(threading.pool, dedicated, |old(dedicated)|)
    {
      if threading == null {
        return Systems.InitResult.Initialized;
      }
      if threadingState != Systems.State.Initialized {
        return Systems.InitResult.Retry;
      }
      StartDedicated(threading);
      r := Systems.InitResult.Initialized;
    }

    /**
     * The Initialized branch of OnInitialize: the setting is clamped to the
     * pool's capacity and that many dedicated threads are obtained.
     */
    method StartDedicated(threading: Threading)
      requires Valid() && threading.Valid() && threading.pool != null
      modifies this`numDedicatedThreads, this`dedicated
      modifies threading.pool.storage, threading.factory, ThreadsOf(threading.pool.storage.items)
      ensures Valid() && threading.Valid() && threading.pool == old(threading.pool)
      ensures var cap := |threading.pool.storage.items|;
        numDedicatedThreads == if old(numDedicatedThreads) > cap then cap else old(numDedicatedThreads)
      ensures |dedicated| == |old(dedicated)| + numDedicatedThreads && dedicated[..|old(dedicated)|] == old(dedicated)
      ensures Obtained(threading.pool, dedicated, |old(dedicated)|)
    {
      var n := numDedicatedThreads;
      if n > threading.MaxThreads() {
        n := threading.MaxThreads();
      }
      var hs := ObtainAllDedicated(threading, dedicated, n);
      numDedicatedThreads, dedicated := n, hs;
    }

    /**
     * OnShutdown: releases every dedicated thread through the threading
     * system, when there is one, and empties the list. Afterwards none of
     * those handles names a thread.
     */
    method OnShutdown(threading: Threading?)
      requires Valid()
      requires threading != null ==> threading.Valid()
      requires threading != null && dedicated != [] ==>
        threading.pool != null && forall h :: h in dedicated ==> h.id < |threading.pool.storage.items|
      modifies this`dedicated
      modifies if threading == null || threading.pool == null then {}
        else {threading.pool.storage} + ThreadsOf(threading.pool.storage.items)
      ensures Valid() && dedicated == []
      ensures threading != null && old(dedicated) != [] ==>
        threading.Valid() && threading.pool != null &&
        forall h :: h in old(dedicated) ==> threading.pool.TryGet(h).None?
    {
      if threading != null && dedicated != [] {
        dedicated := ReleaseAllDedicated(threading, dedicated);
      }
      dedicated := [];
    }

    /**
     * ThreadCallbackFunc as written: it calls RunNextAvailableTask as
     * written and always asks to be run again. On an empty queue nothing
     * changes but the caller's read entries; on a non-empty queue no task
     * runs and the caller's read entry stays behind in the lock.
     */
    method ThreadCallback(lockId: nat) returns (r: ThreadResult, ran: bool)
      requires Valid() && lockId != 0 && tasks.lock.writer == 0
      modifies tasks.lock
      ensures Valid() && r == ThreadResult(ReRun) && !ran
      ensures tasks.obj == old(tasks.obj) && tasks.lock.writer == 0
      ensures old(tasks.obj) == [] ==> tasks.lock.readers == RemoveAll(old(tasks.lock.readers) + [lockId], lockId)
      ensures old(tasks.obj) != [] ==> tasks.lock.readers == old(tasks.lock.readers) + [lockId]
    {
      ran := RunNextAvailableTaskAsWritten(lockId);
      r := ThreadResult(ReRun);
    }

    /**
     * ThreadCallbackFunc over the corrected RunNextAvailableTask: runs the
     * next task, if any, and always asks to be run again.
     */
    method ThreadCallbackCorrected(lockId: nat) returns (r: ThreadResult, ran: Option<Task>)
      requires Valid() && lockId != 0 && tasks.lock.writer == 0
      requires Decrementable(tasks.obj)
      modifies tasks, tasks.lock
      ensures Valid() && r == ThreadResult(ReRun)
      ensures ran.None? ==> tasks.obj == old(tasks.obj)
      ensures ran.Some? ==> tasks.obj == RemoveTask(Decremented(old(tasks.obj)), ran.value.id)
    {
      ran := RunNextAvailableTask(lockId);
      r := ThreadResult(ReRun);
    }
  }

  /**
   * As written, a worker that has once found the queue non-empty keeps its
   * read entry, so every later callback on that worker finds the lock
   * read-held and runs nothing, whatever the queue holds.
   */
  method CallbackStallsAsWritten(tt: ThreadedTasks, lockId: nat) returns (first: bool, second: bool)
    requires tt.Valid() && lockId != 0 && tt.tasks.lock.writer == 0 && tt.tasks.obj != []
    modifies tt.tasks.lock
    ensures !first && !second && tt.tasks.obj == old(tt.tasks.obj)
    ensures tt.tasks.lock.readers == old(tt.tasks.lock.readers) + [lockId, lockId]
  {
    var r;
    r, first := tt.ThreadCallback(lockId);
    r, second := tt.ThreadCallback(lockId);
  }
}
