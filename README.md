# AspectX Engine core, modelled in Dafny

This project models the sequential core of the AspectX Engine, a small C++
game engine, and proves properties of that model. The parts modelled are:

- **Handles and the fixed-size resource pool.** An `AXHandleBase` is an (id, unique) pair compared by value. Its unique part comes from a static counter that wraps at the width of the unique type. A `HandleFactory` object holds that counter explicitly. `Invalid` is built from id 0 at static initialisation and consumes the first unique value. `AXResourcePool_StorageType_FixedSize` has N slots with an in-use flag and a bound handle. Allocation is first fit. Release and lookup honour only the exact bound handle. Count always equals the number of in-use slots.
- **The multi-reader lock.** `AXMultiReadLock` holds a writer id (0 for none) and a list of reader ids. The model also covers its scoped read/write guards and `AXMultiReadLockedObject`. Every compare-and-set on the internal flag is taken to succeed, and a spinning acquire requires that its `Try` form would succeed. Every operation keeps the invariant "a writer present ⇒ no readers".
- **The thread pool and the task queue.** `AXThreading` hands out pool threads by handle. Its worker loop is modelled one iteration at a time, with the callback's answer as an input. `AXThreadedTasks` keeps a queue of prioritised tasks. Each counter starts at priority × 1000. Every selection counts all counters down by one and takes the first minimum. `RunNextAvailableTask` is modelled twice: as written, and in its evidently intended form (see Findings). The worker callback `ThreadCallbackFunc` calls the version as written, and `ThreadCallbackCorrected` shows the same callback over the intended one.
- **The system lifecycle.** This covers `AXSystemBase`'s state machine and the `AXISystemOwner` registry, whose `CreateSystem` is idempotent by name. It also covers `AXApplication`'s initialisation retry loop, shutdown in reverse order, start-up and command-line delivery. What `OnInitialize` returns comes from a finite sequence of results. A run that exhausts them ends with `None`.
- **The other registries.**
  - The ImGui debug-menu trie, as built by `RegisterSystemDebugMenuItem`.
  - `AXSettingsFile::RegisterNewItem`.
  - The content managers and their importers. `std::map` iterates in key order, so the managers are held as a sequence sorted by name.
  - The logging filter and dispatch. Listeners are recorders of the entries they receive.
- **Helpers.** `SplitString`, `Min`/`Max`, `AssertPtrReturnRef`, `GetExtention`, `BuildPathToConfigFile`, the `AXFile` internal buffer, `AXMathVector` over integer element types, the `AXProperty` value wrapper, `AXBitFlags`, and `AXSingleton`.

C++ fixed-width integers are mathematical integers here. The wrap-arounds, truncating casts, integer promotions and truncating divisions of handles, pool sizes, properties and vectors are written out in `MachineInts`; the `uint32_t` positions inside `SplitString` are not (see Left out). Two consequences follow:

- The uint8 pool size of `AXThreading` wraps (`Threading.PoolSizeWraps`).
- After the unique counter has wrapped, `ObtainThread` can create a thread handle equal to `Invalid` (the `Threading.Threading.ObtainThread` contract states this case).

The defaults the source declares are constants of the model:

- `DefaultThreadResult`: Finish.
- `DefaultObtainParams`: no callback, name "Available".
- `DefaultTaskParams`: no callback, Normal priority.
- `DefaultDedicatedThreads`: 1.
- `DefaultLogSettings`: Info filter, no crash on error.
- `DefaultConfig`: "Config" and "cfg".
- `DefaultContentSettings`: "Content".

A failed `AXASSERT` or `static_assert` aborts the program, so both are modelled as preconditions. A `std::string::substr` past the end throws `std::out_of_range`. In `GetExtentionAsWritten` the throw is `None`. The content calls that reach it (`RequestAssetLoad` and an importer's `Import`) follow `GetExtention` as written, so for a name without a period they end in `OutOfRange`.

## Model

| member | source | states |
|---|---|---|
| Handles.Equal | AspectXEngine/AX/Utils/AXHandle.h:32 | true exactly when both the id and the unique value agree |
| Handles.NotEqual | AspectXEngine/AX/Utils/AXHandle.h:34 | true exactly when the handles differ; always the negation of Equal |
| Handles.IsValid | AspectXEngine/AX/Utils/AXHandle.h:21-25 | a handle is valid (and converts to true) exactly when it differs from Invalid |
| Handles.Increment | AspectXEngine/AX/Utils/AXHandle.h:51-55 | one post-increment of an unsigned counter stays in range and wraps from the maximum to 0 |
| Handles.CounterAfter | AspectXEngine/AX/Utils/AXHandle.h:49-55 | the shared unique counter after n constructions is always a value of UniqueType |
| Handles.CounterAdvance | AspectXEngine/AX/Utils/AXHandle.h:51-55 | d constructions later the counter has advanced by d modulo 2^w, wrapping at most once |
| Handles.CounterBeforeWrap | AspectXEngine/AX/Utils/AXHandle.h:51-55 | before the first wrap the unique value equals the number of earlier constructions |
| Handles.CounterRepeats | AspectXEngine/AX/Utils/AXHandle.h:51-55 | unique values repeat: 2^w constructions later the same value is handed out again |
| Handles.CounterDistinctInWindow | AspectXEngine/AX/Utils/AXHandle.h:51-55 | within fewer than 2^w consecutive constructions no unique value is handed out twice |
| Handles.HandleFactory.MaxId | AspectXEngine/AX/Utils/AXHandle.h:64 | MaxId is the largest value of IdType, 2^w - 1 |
| Handles.HandleFactory.constructor | AspectXEngine/AX/Utils/AXHandle.h:53-68 | at static initialisation Invalid is built from id 0 and takes unique 0, so the counter is left at 1 |
| Handles.HandleFactory.Construct | AspectXEngine/AX/Utils/AXHandle.h:49-55 | construction from an id stores the id and takes the counter's current value, which is CounterAfter of all earlier constructions |
| Handles.HandleFactory.CreateFromId | AspectXEngine/AX/Utils/AXHandle.h:19-45 | Create(id) yields a handle whose Id() is id and consumes exactly one unique value |
| Handles.HandleFactory.Create | AspectXEngine/AX/Utils/AXHandle.h:36-40 | Create() uses nextId, post-incremented and wrapped in IdType, and the next unique value |
| Handles.ReissuedInvalid | AspectXEngine/AX/Utils/AXHandle.h:48-68 | after 2^w constructions the unique counter is back at 0, so a handle built from id 0 then equals Invalid and is not valid |
| ResourcePool.CountInUse | AspectXEngine/AX/Utils/AXResourcePool.h:65-92 | the number of in-use slots is at most the slot count; it is below it iff some slot is free and positive iff some slot is in use |
| ResourcePool.CountAfterUpdate | AspectXEngine/AX/Utils/AXResourcePool.h:58-92 | changing one slot's meta changes the in-use count by exactly the change in that slot's flag |
| ResourcePool.FixedSizeStorage.constructor | AspectXEngine/AX/Utils/AXResourcePool.h:30-42 | size slots, all free and bound to Invalid, no slot in use; the size must be below MaxId |
| ResourcePool.FixedSizeStorage.Capacity | AspectXEngine/AX/Utils/AXResourcePool.h:133-136 | the capacity is the construction size |
| ResourcePool.FixedSizeStorage.Count | AspectXEngine/AX/Utils/AXResourcePool.h:141-144 | mNumInUse equals the number of in-use slots and is at most the capacity |
| ResourcePool.FixedSizeStorage.Allocate | AspectXEngine/AX/Utils/AXResourcePool.h:48-75 | first fit: the lowest-index free slot is claimed and bound to a freshly created handle with that index, the count rises by one and that handle is returned; on a full pool Invalid is returned and nothing changes but the log |
| ResourcePool.FixedSizeStorage.Release | AspectXEngine/AX/Utils/AXResourcePool.h:80-96 | the slot is freed and its handle cleared only if it is in use and bound to exactly this handle (the count then drops by one); the caller's handle always becomes Invalid, and TryGet on it then fails |
| ResourcePool.FixedSizeStorage.TryGet | AspectXEngine/AX/Utils/AXResourcePool.h:101-128 | the item is returned iff its slot is in use and bound to exactly this handle, so stale copies of a released handle get nothing |
| ResourcePool.ResourcePool.constructor | AspectXEngine/AX/Utils/AXResourcePool.h:190 | the pool forwards its arguments to a fresh fixed-size storage |
| ResourcePool.ResourcePool.Allocate | AspectXEngine/AX/Utils/AXResourcePool.h:196 | delegates to the storage's Allocate with the same contract |
| ResourcePool.ResourcePool.Release | AspectXEngine/AX/Utils/AXResourcePool.h:201 | delegates to the storage's Release with the same contract |
| ResourcePool.ResourcePool.TryGet | AspectXEngine/AX/Utils/AXResourcePool.h:206-211 | delegates to the storage's TryGet with the same contract |
| ResourcePool.ResourcePool.Capacity | AspectXEngine/AX/Utils/AXResourcePool.h:236 | the storage's capacity |
| ResourcePool.ResourcePool.Count | AspectXEngine/AX/Utils/AXResourcePool.h:241 | the storage's count, the number of in-use slots |
| ThreadingPrimitives.RemoveAll | AspectXEngine/AX/Utils/AXThreadingPrimitives.cpp:94 | std::list::remove: no entry for the id remains, every other id keeps its number of entries, and the list never grows |
| ThreadingPrimitives.RemoveAllAbsent | AspectXEngine/AX/Utils/AXThreadingPrimitives.cpp:94 | removing an id that has no entry leaves the reader list as it was |
| ThreadingPrimitives.RemoveAllAppended | AspectXEngine/AX/Utils/AXThreadingPrimitives.cpp:66-94 | removing an id also drops the entry that id just appended |
| ThreadingPrimitives.MultiReadLock.constructor | AspectXEngine/AX/Utils/AXThreadingPrimitives.h:84-94 | a fresh lock has no writer and no readers |
| ThreadingPrimitives.MultiReadLock.TryWriteLock | AspectXEngine/AX/Utils/AXThreadingPrimitives.cpp:9-24 | a writer is installed only when there is no reader and no writer; the result is whether the caller now owns the write lock, so the owner succeeds again and anyone else fails while a writer exists; a writer still means no readers |
| ThreadingPrimitives.MultiReadLock.WriteLock | AspectXEngine/AX/Utils/AXThreadingPrimitives.cpp:29-32 | the spin completes only when TryWriteLock would succeed, and the caller then owns the write lock |
| ThreadingPrimitives.MultiReadLock.ReleaseWriteLock | AspectXEngine/AX/Utils/AXThreadingPrimitives.cpp:37-41 | the writer is cleared only if the caller owns it |
| ThreadingPrimitives.MultiReadLock.HasWriteLock | AspectXEngine/AX/Utils/AXThreadingPrimitives.cpp:46-49 | true exactly when the caller is the writer |
| ThreadingPrimitives.MultiReadLock.TryReadLock | AspectXEngine/AX/Utils/AXThreadingPrimitives.cpp:55-72 | fails when a writer exists; otherwise appends the caller to the readers (duplicates allowed) and succeeds; a writer still means no readers |
| ThreadingPrimitives.MultiReadLock.ReadLock | AspectXEngine/AX/Utils/AXThreadingPrimitives.cpp:77-80 | the spin completes only when no writer exists, and appends one entry for the caller |
| ThreadingPrimitives.MultiReadLock.ReleaseReadLock | AspectXEngine/AX/Utils/AXThreadingPrimitives.cpp:85-101 | every entry of the caller is removed and other readers are untouched |
| ThreadingPrimitives.MultiReadLock.HasReadLock | AspectXEngine/AX/Utils/AXThreadingPrimitives.cpp:106-134 | false whenever a writer exists; otherwise membership of the caller in the reader list |
| ThreadingPrimitives.MultiReadLock.ReleaseLock | AspectXEngine/AX/Utils/AXThreadingPrimitives.cpp:139-143 | release-read then release-write: the caller's read entries go and its write lock is cleared |
| ThreadingPrimitives.ScopedRead.constructor | AspectXEngine/AX/Utils/AXThreadingPrimitives.cpp:151-155 | read-locks the given lock with the scoped object as id |
| ThreadingPrimitives.ScopedRead.Release | AspectXEngine/AX/Utils/AXThreadingPrimitives.cpp:160-163 | the destructor removes the scoped object's read entries and nothing else |
| ThreadingPrimitives.ScopedWrite.constructor | AspectXEngine/AX/Utils/AXThreadingPrimitives.cpp:172-176 | write-locks the given lock with the scoped object as id |
| ThreadingPrimitives.ScopedWrite.Release | AspectXEngine/AX/Utils/AXThreadingPrimitives.cpp:181-184 | the destructor clears the write lock the scoped object holds |
| ThreadingPrimitives.ScopedReadRestores | AspectXEngine/AX/Utils/AXThreadingPrimitives.cpp:151-163 | a scoped read whose id had no entry before leaves the reader list exactly as it found it |
| ThreadingPrimitives.LockedObject.constructor | AspectXEngine/AX/Utils/AXThreadingPrimitives.h:152-153 | wraps the object with a fresh lock that has no writer and no readers |
| ThreadingPrimitives.LockedObject.GetRead | AspectXEngine/AX/Utils/AXThreadingPrimitives.h:158-162 | read-locks for the caller before returning the object; it can only complete when no writer exists, and releases nothing |
| ThreadingPrimitives.LockedObject.TryGetRead | AspectXEngine/AX/Utils/AXThreadingPrimitives.h:167-175 | returns the object iff TryReadLock succeeded (then the caller holds a read entry), else nothing and no change |
| ThreadingPrimitives.LockedObject.GetWrite | AspectXEngine/AX/Utils/AXThreadingPrimitives.h:180-184 | write-locks for the caller; it can only complete when there are no readers and no other writer, and releases nothing |
| ThreadingPrimitives.LockedObject.TryGetWrite | AspectXEngine/AX/Utils/AXThreadingPrimitives.h:189-197 | returns the object iff TryWriteLock succeeded (then the caller is the writer), else nothing and the writer unchanged |
| ThreadingPrimitives.LockedObject.ReleaseLock | AspectXEngine/AX/Utils/AXThreadingPrimitives.cpp:139-143 | the inherited ReleaseLock, the only way the accessors' lock state is undone |
| Threading.ThreadStateName | AspectXEngine/AX/Core/Threads/AXThreading.h:67-71 | State::ToString gives each state a non-empty name |
| Threading.ThreadStateNamesDistinct | AspectXEngine/AX/Core/Threads/AXThreading.h:60-71 | no two states share a name, so the name identifies the state |
| Threading.Thread.constructor | AspectXEngine/AX/Core/Threads/AXThreading.h:76-88 | a new thread is Available, holds the Invalid handle and default params, and has no native thread |
| Threading.Threading.constructor | AspectXEngine/AX/Core/Threads/AXThreading.cpp:14 | there is no pool before OnInitialize and the shutdown flag is clear |
| Threading.Threading.MaxThreads | AspectXEngine/AX/Core/Threads/AXThreading.h:138 | the pool capacity, which fits in ThreadHandle's 8-bit id type and is below MaxId |
| Threading.Threading.OnInitialize | AspectXEngine/AX/Core/Threads/AXThreading.cpp:19-50 | fails with fewer than two hardware threads; otherwise a fresh pool of concurrency - 1 threads (converted to uint8), all free, each Available with default params, the Invalid handle, a native thread and the default name |
| Threading.Threading.OnShutdown | AspectXEngine/AX/Core/Threads/AXThreading.cpp:63-86 | sets the shutdown flag and destroys the pool |
| Threading.Threading.ObtainThread | AspectXEngine/AX/Core/Threads/AXThreading.cpp:126-145 | without a callback, or on a full pool, Invalid is returned and no thread or slot changes; otherwise the first free slot is claimed and, when its new handle is valid, the thread stores that handle, the params and their name and the handle is returned; other threads are untouched |
| Threading.Threading.ReleaseThread | AspectXEngine/AX/Core/Threads/AXThreading.cpp:150-161 | on a live handle the thread's params go back to the defaults and its state to Available, and its slot is freed; a stale or invalid handle changes no thread; the caller's handle becomes Invalid either way |
| Threading.Threading.WorkerIteration | AspectXEngine/AX/Core/Threads/AXThreading.cpp:97-117 | one iteration of the worker loop: without a callback nothing changes; with one the thread is Running, and a Finish result releases it, freeing its slot and resetting its params |
| Threading.PoolSizeWraps | AspectXEngine/AX/Core/Threads/AXThreading.cpp:21-29 | the uint32 count minus one is narrowed to the uint8 pool size, so 257 hardware threads give an empty pool |
| ThreadedTasks.PriorityValue | AspectXEngine/AX/Core/Threads/AXThreadedTasks.h:16-24 | priorities run from ASAP = 0 to VeryLow = 5 |
| ThreadedTasks.PriorityName | AspectXEngine/AX/Core/Threads/AXThreadedTasks.h:26-30 | Priority::ToString gives each level a non-empty name |
| ThreadedTasks.PriorityEncodingsInjective | AspectXEngine/AX/Core/Threads/AXThreadedTasks.h:16-30 | distinct priorities have distinct values and distinct names |
| ThreadedTasks.NewTask | AspectXEngine/AX/Core/Threads/AXThreadedTasks.h:71-75 | a new task keeps its params and its int32 counter starts at priority * 1000, between 0 and 5000 |
| ThreadedTasks.NewTaskOrder | AspectXEngine/AX/Core/Threads/AXThreadedTasks.h:74 | a task of a more urgent priority starts at least 1000 below one of a less urgent priority |
| ThreadedTasks.Decremented | AspectXEngine/AX/Core/Threads/AXThreadedTasks.cpp:124-126 | the decrement pass keeps the queue's length (each counter one lower, nothing else changed) |
| ThreadedTasks.RemoveTask | AspectXEngine/AX/Core/Threads/AXThreadedTasks.cpp:136 | std::list::remove of the chosen task: the queue never grows and only tasks without that id remain |
| ThreadedTasks.RemoveTaskAt | AspectXEngine/AX/Core/Threads/AXThreadedTasks.cpp:136 | with distinct tasks, removing the i-th task's id removes exactly that task and keeps the others in order |
| ThreadedTasks.RemoveTaskAbsent | AspectXEngine/AX/Core/Threads/AXThreadedTasks.cpp:136 | removing an id no task has leaves the queue as it was |
| ThreadedTasks.SelectNextTask | AspectXEngine/AX/Core/Threads/AXThreadedTasks.cpp:124-137 | the selection step: every counter is decremented by one, the chosen task is the first one with the minimum counter after decrementing (strict <, so ties go to the earliest queued) and it is removed; an empty queue chooses nothing |
| ThreadedTasks.SelectionShape | AspectXEngine/AX/Core/Threads/AXThreadedTasks.cpp:124-137 | with distinct tasks the selection shrinks the queue by exactly one and the others keep their relative order, each with its counter one lower |
| ThreadedTasks.DedicatedThreadName | AspectXEngine/AX/Core/Threads/AXThreadedTasks.cpp:55 | each dedicated thread is named "Threaded Tasks dedicated thread " followed by its number and a period |
| ThreadedTasks.Decimal | AspectXEngine/AX/Core/Threads/AXThreadedTasks.cpp:55 | the %d rendering of a number is a non-empty string of decimal digits |
| ThreadedTasks.ObtainDedicated | AspectXEngine/AX/Core/Threads/AXThreadedTasks.cpp:49-57 | one loop step: one more handle is appended, either Invalid or naming a thread that holds the worker callback and its own name |
| ThreadedTasks.ObtainAllDedicated | AspectXEngine/AX/Core/Threads/AXThreadedTasks.cpp:53-58 | the loop: exactly n handles are appended after the existing ones, each Invalid or naming its own dedicated thread |
| ThreadedTasks.ReleaseDedicated | AspectXEngine/AX/Core/Threads/AXThreadedTasks.cpp:81 | one loop step: the k-th handle is released and no earlier handle names a thread any more |
| ThreadedTasks.ReleaseAllDedicated | AspectXEngine/AX/Core/Threads/AXThreadedTasks.cpp:79-82 | every dedicated handle is released and none of them names a thread afterwards; each caller copy becomes Invalid |
| ThreadedTasks.ThreadedTasks.constructor | AspectXEngine/AX/Core/Threads/AXThreadedTasks.h:109 | an empty, unlocked task queue, no dedicated threads and the dedicated-thread setting at its default 1 |
| ThreadedTasks.ThreadedTasks.RequestTaskRun | AspectXEngine/AX/Core/Threads/AXThreadedTasks.cpp:91-100 | params without a callback are ignored; otherwise exactly one new task is appended at the back and the lock is left released |
| ThreadedTasks.ThreadedTasks.RunNextAvailableTaskAsWritten | AspectXEngine/AX/Core/Threads/AXThreadedTasks.cpp:105-154 | as written: an empty queue returns false with the lock state restored; a non-empty queue still holds the caller's read entry at the write attempt, so nothing runs, false is returned and the read entry remains |
| ThreadedTasks.ThreadedTasks.RunNextAvailableTask | AspectXEngine/AX/Core/Threads/AXThreadedTasks.cpp:105-154 | with the read lock dropped after the emptiness test: a task runs iff the queue is non-empty and no other reader remains; it is then the first minimum after decrementing and is removed; otherwise the queue is unchanged |
| ThreadedTasks.ThreadedTasks.OnInitialize | AspectXEngine/AX/Core/Threads/AXThreadedTasks.cpp:35-62 | Retry until threading is Initialized; then the setting is clamped to MaxThreads and exactly that many handles are obtained and appended; without a threading system nothing happens |
| ThreadedTasks.ThreadedTasks.StartDedicated | AspectXEngine/AX/Core/Threads/AXThreadedTasks.cpp:44-58 | the clamp to MaxThreads followed by obtaining that many dedicated threads |
| ThreadedTasks.ThreadedTasks.OnShutdown | AspectXEngine/AX/Core/Threads/AXThreadedTasks.cpp:75-86 | every dedicated handle is released through the threading system, when there is one, and the list is emptied |
| ThreadedTasks.ThreadedTasks.ThreadCallback | AspectXEngine/AX/Core/Threads/AXThreadedTasks.cpp:167-175 | as written: always answers ReRun and never runs a task; the queue is unchanged; on a non-empty queue the caller's read entry stays in the lock, on an empty one the caller's entries are removed |
| ThreadedTasks.ThreadedTasks.ThreadCallbackCorrected | AspectXEngine/AX/Core/Threads/AXThreadedTasks.cpp:167-175 | over the corrected RunNextAvailableTask: answers ReRun, and a task that ran leaves the queue with it removed after the count-down, otherwise the queue is unchanged |
| ThreadedTasks.CallbackStallsAsWritten | AspectXEngine/AX/Core/Threads/AXThreadedTasks.cpp:108-121 | as written, two callbacks on one worker with a non-empty queue run nothing and leave two read entries of that worker in the lock |
| Systems.DefaultOnInitialize | AspectXEngine/AX/Core/AXSystem.h:95 | the base OnInitialize answers Initialized |
| Systems.SystemBase.constructor | AspectXEngine/AX/Core/AXSystem.h:104-106 | a new system carries its system's static name and is Uninitialized |
| Systems.SystemBase.GetName | AspectXEngine/AX/Core/AXSystem.h:46 | the name given at construction |
| Systems.SystemBase.GetState | AspectXEngine/AX/Core/AXSystem.h:48 | the current state |
| Systems.SystemBase.Initialize | AspectXEngine/AX/Core/AXSystem.cpp:25-39 | returns OnInitialize's result; Initialized leads to Initialized, Failed to FailedToInitialize, and Retry leaves the state unchanged |
| Systems.SystemBase.Shutdown | AspectXEngine/AX/Core/AXSystem.cpp:44-52 | OnShutdown runs exactly when the state was Initialized or FailedToInitialize; the state always ends as Shutdown, from which a second Shutdown never runs OnShutdown again |
| Systems.StatesOf | AspectXEngine/AX/Core/AXSystem.cpp:25-39 | the states of a sequence of systems, position by position |
| Systems.StatesAre | AspectXEngine/AX/Core/AXSystem.cpp:25-39 | systems whose states are given position by position have exactly those states |
| Systems.NamesOf | AspectXEngine/AX/Core/AXSystem.h:46 | the names of a sequence of systems, position by position |
| Systems.Reverse | AspectXEngine/AX/Core/AXSystem.cpp:93 | the reverse order a reverse iterator walks: position i holds the element |s| - 1 - i |
| Systems.SystemOwner.constructor | AspectXEngine/AX/Core/AXSystem.h:188 | a new owner has no systems |
| Systems.SystemOwner.FindSystem | AspectXEngine/AX/Core/AXSystem.cpp:60-87 | the first registered system with that name, or none exactly when no system has it; FindSystem<T> and GetFrom are this lookup on T's static name (AspectXEngine/AX/Core/AXSystem.h:216-256) |
| Systems.SystemOwner.CreateSystem | AspectXEngine/AX/Core/AXSystem.h:197-211 | when a system with T's name is registered it is returned and the registry is unchanged; otherwise exactly one new Uninitialized system is appended and returned, so registry order is creation order |
| Systems.SystemOwner.CleanupSystems | AspectXEngine/AX/Core/AXSystem.cpp:91-99 | the systems are destroyed last to first and the registry is left empty |
| Systems.NamesMakeObjectsDistinct | AspectXEngine/AX/Core/AXSystem.h:202-208 | since CreateSystem never adds a second system with a registered name, the registered systems are distinct objects |
| Systems.Pass | AspectXEngine/AX/Core/AXApplication.cpp:202-222 | one pass over the systems applies one result to each Uninitialized system in order, stops at the first Failed, and a pass that first sees Retry consumes at least one result |
| Systems.InitAll | AspectXEngine/AX/Core/AXApplication.cpp:196-227 | the do-while loop: passes repeat while a pass saw Retry; the final states cover every system |
| Systems.PassAdvances | AspectXEngine/AX/Core/AXApplication.cpp:202-222 | a pass changes only Uninitialized systems, each to Initialized or FailedToInitialize, and none before its starting point |
| Systems.AdvancedTransitive | AspectXEngine/AX/Core/AXApplication.cpp:198-224 | changes of that kind compose across passes |
| Systems.InitAllAdvances | AspectXEngine/AX/Core/AXApplication.cpp:198-224 | the whole loop only moves Uninitialized systems to Initialized or FailedToInitialize |
| Systems.CleanPassInitializesAll | AspectXEngine/AX/Core/AXApplication.cpp:202-222 | a pass that saw neither Retry nor Failed leaves no system it reached Uninitialized |
| Systems.PassKeepsRetry | AspectXEngine/AX/Core/AXApplication.cpp:217-220 | once a Retry is seen the pass ends with another pass due, a failure, or no result left |
| Systems.InitAllSucceeded | AspectXEngine/AX/Core/AXApplication.cpp:198-227 | a true result means the last pass saw no Retry or Failed, so no system remains Uninitialized |
| Systems.PassStopsAtFailure | AspectXEngine/AX/Core/AXApplication.cpp:212-216 | a failing pass stops at the first Failed system: that one is FailedToInitialize and the later systems were not attempted |
| Systems.InitAllFailed | AspectXEngine/AX/Core/AXApplication.cpp:212-216 | a false result leaves some system FailedToInitialize |
| Application.Application.constructor | AspectXEngine/AX/Core/AXApplication.cpp:22-25 | a new application owns no systems, and the settings system's engine file is named "Engine" and holds no items |
| Application.Overriding | AspectXEngine/AX/Core/AXSystem.h:53 | the names of the systems whose type overrides CreateEngineSettings, in registry order; the base version registers nothing |
| Application.RegisteredNames | AspectXEngine/AX/Core/AXSettings.h:167-184 | the item names after successive RegisterNewItem calls as written: the old names stay a prefix and at most one name is added per call |
| Application.RegisteredNamesAppend | AspectXEngine/AX/Core/AXSettings.h:167-184 | with no item or registration named "Undefined", every registration appends its name, in order |
| Application.RegisterAsWritten | AspectXEngine/AX/Core/AXSettings.h:167-184 | one RegisterNewItem as written appends the name unless an item named "Undefined" exists |
| Application.CreateEngineSettings | AspectXEngine/AX/Core/AXApplication.cpp:160-165 | every system, in registry order, gets CreateEngineSettings; the file's names are RegisteredNames of the overriding systems' names |
| Application.Application.LoadSettings | AspectXEngine/AX/Core/AXApplication.cpp:152-172 | without the settings system nothing is registered; with it, "Application" is registered first and then each overriding system's item, in registry order, through RegisterNewItem as written |
| Application.Application.CreateDefaultSystems | AspectXEngine/AX/Core/AXApplication.cpp:249-263 | CreateSystem for each system type in order: the registered systems stay first, every name given is registered afterwards, and each added system is fresh, Uninitialized and one of the names given |
| Application.Application.HandleCommandLine | AspectXEngine/AX/Core/AXApplication.cpp:178-189 | the command line is split on ' ' and every system, in registry order, receives the same argument list |
| Application.Application.InitializeAllSystems | AspectXEngine/AX/Core/AXApplication.cpp:194-228 | the result and the final states are those of InitAll on the states before the call and the results the OnInitialize calls return |
| Application.Application.InitializePass | AspectXEngine/AX/Core/AXApplication.cpp:200-222 | one pass of the loop over the systems' objects agrees with Pass on their states |
| Application.Application.InitializeAt | AspectXEngine/AX/Core/AXApplication.cpp:204-220 | one system's Initialize inside the pass changes that system's state as Initialize says and no other state |
| Application.Application.ShutdownAllSystems | AspectXEngine/AX/Core/AXApplication.cpp:233-244 | systems are shut down in reverse registration order, each running OnShutdown exactly when its state allowed it, then the registry is emptied |
| Application.Application.ShutdownInReverse | AspectXEngine/AX/Core/AXApplication.cpp:237-241 | the reverse loop: the i-th shut down is the (n-1-i)-th registered, and all end Shutdown |
| Application.Application.PrepareSystems | AspectXEngine/AX/Core/AXApplication.cpp:56-60 | the first half of start-up: the default systems are registered after the old ones, LoadSettings registers the settings items, and every system receives Split(commandLine, ' ') in registry order |
| Application.Application.Startup | AspectXEngine/AX/Core/AXApplication.cpp:52-75 | the default systems are all registered after the old ones; with the settings system the engine file gains the "Application" and per-system items LoadSettings registers, without it the file is unchanged; every system, in registry order, receives Split(commandLine, ' '); when initialisation does not succeed nothing is saved; after success the settings file is saved iff the settings system exists, and no system is Uninitialized |
| Application.Application.RunEngine | AspectXEngine/AX/Core/AXApplication.cpp:39-47 | the engine loop runs only after a successful start-up; registered holds the old systems' names first and every default name; whenever start-up returns, Shutdown empties the registry and visits registered from last to first |
| Utils.Substr | AspectXEngine/AX/Utils/AXUtils.cpp:42-54 | std::string::substr: count characters from pos, clamped at the end of the string |
| Utils.Find | AspectXEngine/AX/Utils/AXUtils.cpp:38-40 | the first position at or after from holding the separator, or none when no such position exists |
| Utils.SegmentsFrom | AspectXEngine/AX/Utils/AXUtils.cpp:38-55 | the segments the loop still appends from a given scan position always include at least the final one |
| Utils.SplitString | AspectXEngine/AX/Utils/AXUtils.cpp:26-56 | the segments are appended after the existing contents of outResults; an empty input appends nothing |
| Utils.FindSkips | AspectXEngine/AX/Utils/AXUtils.cpp:38-40 | a character that is not the separator only extends the current segment |
| Utils.SplitNoSeparator | AspectXEngine/AX/Utils/AXUtils.cpp:38-55 | a non-empty input with no separator yields exactly one segment, the input |
| Utils.SplitSkipsAfterSeparator | AspectXEngine/AX/Utils/AXUtils.cpp:47-48 | the character right after a separator is never tested, so "a//b" splits into "a" and "/b" |
| Utils.SplitLeadingSeparator | AspectXEngine/AX/Utils/AXUtils.cpp:40-45 | a leading separator yields an initial "" |
| Utils.SplitTrailingSeparator | AspectXEngine/AX/Utils/AXUtils.cpp:47-54 | a trailing separator yields a final "" (substr clamps at the end of the string) |
| Utils.FindFrom | AspectXEngine/AX/Utils/AXUtils.cpp:38-40 | the scan stops at the first separator at or after its start |
| Utils.SegmentsAreSubstrings | AspectXEngine/AX/Utils/AXUtils.cpp:42-54 | every segment from any scan position is a contiguous substring of the input |
| Utils.SplitSegmentsAreSubstrings | AspectXEngine/AX/Utils/AXUtils.cpp:42-54 | every segment is a contiguous substring of the input |
| Utils.OccurrencesFrom | AspectXEngine/AX/Utils/AXUtils.cpp:40-48 | a separator at p means that from j on there is at least one more separator than after p |
| Utils.SegmentsCount | AspectXEngine/AX/Utils/AXUtils.cpp:40-55 | from any scan position there are at most one more segments than separators left |
| Utils.SplitCount | AspectXEngine/AX/Utils/AXUtils.cpp:40-55 | the segment count is at most the separator count plus one |
| Utils.Min | AspectXEngine/AX/Utils/AXUtils.h:86-95 | a when a < b, else b: the result is one of the arguments, at most both, and ties return b |
| Utils.Max | AspectXEngine/AX/Utils/AXUtils.h:97-106 | a when a > b, else b: the result is one of the arguments, at least both, and ties return b |
| Utils.AssertPtrReturnRef | AspectXEngine/AX/Utils/AXUtils.h:29-41 | requires a non-null pointer and returns what it points to |
| DebugMenu.NewItem | AspectXEngine/AX/Graphics/UI/ImGui/AXImGui.cpp:594-596 | a new menu node has the segment as its text, no callback and no children |
| DebugMenu.Insert | AspectXEngine/AX/Graphics/UI/ImGui/AXImGui.cpp:575-607 | inserting an empty path changes nothing |
| DebugMenu.Lookup | AspectXEngine/AX/Graphics/UI/ImGui/AXImGui.cpp:582-590 | the node reached by walking a path one level per segment; a one-segment path exists iff it is a key of the top collection |
| DebugMenu.InsertReachesPath | AspectXEngine/AX/Graphics/UI/ImGui/AXImGui.cpp:578-607 | after insertion the whole path exists and carries the callback; a node that existed keeps its text and children, a created one has the last segment as text and no children |
| DebugMenu.InsertCreatesPrefixes | AspectXEngine/AX/Graphics/UI/ImGui/AXImGui.cpp:582-600 | every proper prefix of the path exists afterwards; a created prefix node has its segment's text and no callback, an existing one keeps its text and callback |
| DebugMenu.InsertKeepsOthers | AspectXEngine/AX/Graphics/UI/ImGui/AXImGui.cpp:582-606 | nothing is removed: every existing node still exists with its text, and only the node of the whole path may change callback |
| DebugMenu.InsertTwice | AspectXEngine/AX/Graphics/UI/ImGui/AXImGui.cpp:584-606 | registering the same path twice keeps the tree shape and only replaces the callback |
| DebugMenu.InsertKeepsKeyed | AspectXEngine/AX/Graphics/UI/ImGui/AXImGui.cpp:596-598 | every node stays stored under the key equal to its text |
| DebugMenu.ImGuiMenu.constructor | AspectXEngine/AX/Graphics/UI/ImGui/AXImGui.cpp:575 | the system menu starts empty |
| DebugMenu.ImGuiMenu.RegisterSystemDebugMenuItem | AspectXEngine/AX/Graphics/UI/ImGui/AXImGui.cpp:570-608 | the path, split on '/', is inserted into the menu tree with the callback on the final segment's node; an empty path changes nothing |
| MachineInts.IntType.Convert | AspectXEngine/AX/Utils/AXProperties.h:98-113 | a conversion to an integer type (static_cast, or storing a promoted result) lands in the type's range, is congruent to the input modulo 2^bits, and leaves a value already in range unchanged |
| MachineInts.TruncDiv | AspectXEngine/AX/Math/AXMathVector.h:135-155 | C++ integer division truncates toward zero: the magnitude is the quotient of the magnitudes and the sign is negative only when the operand signs differ |
| MachineInts.TruncRem | AspectXEngine/AX/Math/AXMathVector.h:135-155 | C++ % satisfies a == b * (a / b) + a % b, is smaller than the divisor in magnitude and takes the dividend's sign |
| MachineInts.RemOfMinByMinusOneUndefined | AspectXEngine/AX/Utils/AXProperties.h:100-113 | % on the smallest signed 32- or 64-bit value by -1 counts as undefined, though its exact remainder 0 fits, because the quotient does not; every compound operator requires Defined |
| MachineInts.Apply | AspectXEngine/AX/Utils/AXProperties.h:100-113 | an arithmetic operator on the promoted operands, stored back into the type: the result is in range, is exact when the exact result fits, and is congruent to it modulo 2^bits (what unsigned wrap-around gives) |
| MachineInts.AddThenSubRestores | AspectXEngine/AX/Utils/AXProperties.h:100-104 | on an unsigned type, adding and then subtracting the same value restores the original despite wrap-around |
| Properties.Property.Compares | AspectXEngine/AX/Utils/AXProperties.h:177-193 | the six comparisons of mVal against static_cast<T>(rhs); for a right-hand side T can represent they are the plain comparisons |
| Properties.ComparesComplement | AspectXEngine/AX/Utils/AXProperties.h:177-193 | against one right-hand side, != is the negation of ==, >= of <, and <= of > |
| Properties.ComparesCongruent | AspectXEngine/AX/Utils/AXProperties.h:177-193 | right-hand sides that differ by a multiple of 2^bits compare alike, because only their cast is compared |
| Properties.ComparesCastExample | AspectXEngine/AX/Utils/AXProperties.h:180-187 | a uint8 property holding 0 is == 256 and < -1, although 0 differs from 256 and is not less than -1 |
| Properties.Property.constructor | AspectXEngine/AX/Utils/AXProperties.h:46 | construction stores the value; the name in the metadata starts empty |
| Properties.Property.Val | AspectXEngine/AX/Utils/AXProperties.h:48-49 | Val() returns the stored value, always a value of T |
| Properties.Property.Assign | AspectXEngine/AX/Utils/AXProperties.h:97-98 | assignment stores the right-hand side converted to T |
| Properties.Property.CompoundAssign | AspectXEngine/AX/Utils/AXProperties.h:100-113 | +=, -=, *=, /= and %= store the wrapped value combined with the right-hand side cast to T, converted back to T |
| Properties.Property.PreIncrement | AspectXEngine/AX/Utils/AXProperties.h:129 | prefix ++ leaves the value incremented (wrapping in T) |
| Properties.Property.PostIncrement | AspectXEngine/AX/Utils/AXProperties.h:131 | postfix ++ returns a new property with the old value and leaves this one incremented |
| Properties.Property.PreDecrement | AspectXEngine/AX/Utils/AXProperties.h:133 | prefix -- leaves the value decremented (wrapping in T) |
| Properties.Property.PostDecrement | AspectXEngine/AX/Utils/AXProperties.h:135 | postfix -- returns a new property with the old value and leaves this one decremented |
| Properties.Property.Binary | AspectXEngine/AX/Utils/AXProperties.h:143-156 | binary +, -, *, / and % return a new property holding the result converted to T, and leave the original unchanged |
| Properties.Property.Negate | AspectXEngine/AX/Utils/AXProperties.h:141 | unary - returns a new property holding the negated value converted to T |
| Properties.CompoundMatchesBinary | AspectXEngine/AX/Utils/AXProperties.h:100-156 | a compound assignment leaves exactly the value the binary operator would have returned |
| Properties.PropertyHolder.constructor | AspectXEngine/AX/Utils/AXProperties.h:253-256 | a new holder has no properties |
| Properties.PropertyHolder.RegisterProperty | AspectXEngine/AX/Utils/AXProperties.h:243-250 | RegisterProperty names the property, so GetName returns that name, and appends it, keeping registration order |
| MathVector.CommonType | AspectXEngine/AX/Math/AXMathVector.h:200 | the usual arithmetic conversions of a mixed comparison: integer promotion to at least int, then one of the two promoted operand types |
| MathVector.CommonTypeSymmetric | AspectXEngine/AX/Math/AXMathVector.h:200 | the common type does not depend on the order of the operands |
| MathVector.SameTypeCompares | AspectXEngine/AX/Math/AXMathVector.h:200 | for two vectors of the same element type, element comparison is plain equality of the values |
| MathVector.MixedSignsCompareEqual | AspectXEngine/AX/Math/AXMathVector.h:193-204 | comparing int32 with uint32 converts to uint32, so -1 equals 0xFFFFFFFF |
| MathVector.MathVector.Fill | AspectXEngine/AX/Math/AXMathVector.h:23-29 | the scalar constructor fills every element with the value |
| MathVector.MathVector.FromValues | AspectXEngine/AX/Math/AXMathVector.h:31-41 | the variadic constructor takes exactly N values and stores each, cast to the element type, in order |
| MathVector.MathVector.Copy | AspectXEngine/AX/Math/AXMathVector.h:162 | the copy constructor used by + and - copies every element |
| MathVector.MathVector.AssignVector | AspectXEngine/AX/Math/AXMathVector.h:47-56 | assigning a vector stores each of its elements cast to this vector's element type |
| MathVector.MathVector.AssignScalar | AspectXEngine/AX/Math/AXMathVector.h:58-67 | assigning a scalar stores it, cast, in every element |
| MathVector.MathVector.CompoundVector | AspectXEngine/AX/Math/AXMathVector.h:69-144 | +=, -=, *= and /= with a vector act elementwise, element i combined with the other's element i cast to the element type and stored back wrapped; signed overflow and zero divisors are excluded |
| MathVector.MathVector.CompoundScalar | AspectXEngine/AX/Math/AXMathVector.h:80-155 | the scalar forms broadcast the scalar, cast once, to every element |
| MathVector.MathVector.BinaryVector | AspectXEngine/AX/Math/AXMathVector.h:159-181 | a + b and a - b with a vector return a new vector holding what the compound operator would store, and leave a unchanged |
| MathVector.MathVector.BinaryScalar | AspectXEngine/AX/Math/AXMathVector.h:167-189 | a + s and a - s with a scalar return a new vector and leave a unchanged |
| MathVector.MathVector.Equals | AspectXEngine/AX/Math/AXMathVector.h:193-204 | == holds iff every pair of elements compares equal after the usual arithmetic conversions |
| MathVector.MathVector.NotEquals | AspectXEngine/AX/Math/AXMathVector.h:206-210 | != holds iff some pair of elements differs: exactly the negation of == |
| MathVector.MathVector.X | AspectXEngine/AX/Math/AXMathVector.h:214 | the first element, a value of the element type |
| MathVector.MathVector.Y | AspectXEngine/AX/Math/AXMathVector.h:215 | the second element; requires N >= 2 |
| MathVector.MathVector.Z | AspectXEngine/AX/Math/AXMathVector.h:216 | the third element; requires N >= 3 |
| MathVector.MathVector.W | AspectXEngine/AX/Math/AXMathVector.h:217 | the fourth element; requires N >= 4 |
| MathVector.EqualsSameType | AspectXEngine/AX/Math/AXMathVector.h:193-204 | for vectors of one element type, == holds iff their contents are equal |
| BitFlags.StorageLength | AspectXEngine/AX/Utils/AXBitFlags.h:21 | the length of mStorage, (FlagMax + sizeof*8 - 1) / sizeof words, is at least one and provides at least FlagMax bytes' worth of words |
| BitFlags.Word | AspectXEngine/AX/Utils/AXBitFlags.h:17 | the word index flag / sizeof never exceeds the flag |
| BitFlags.WordInBounds | AspectXEngine/AX/Utils/AXBitFlags.h:16-21 | for every flag below FlagMax the word index lies inside mStorage |
| BitFlags.Position | AspectXEngine/AX/Utils/AXBitFlags.h:17 | the bit position flag % sizeof lies inside the word |
| BitFlags.Mask | AspectXEngine/AX/Utils/AXBitFlags.h:17 | 0x1 << (flag % sizeof) has exactly the flag's bit set |
| BitFlags.DistinctFlagsDistinctPositions | AspectXEngine/AX/Utils/AXBitFlags.h:17 | two distinct flags in the same word have distinct bit positions |
| BitFlags.And | AspectXEngine/AX/Utils/AXBitFlags.h:17 | bitwise AND of two words: a bit is set iff it is set in both |
| BitFlags.Or | AspectXEngine/AX/Utils/AXBitFlags.h:17 | bitwise OR of two words: a bit is set iff it is set in either |
| BitFlags.SetWordAsWritten | AspectXEngine/AX/Utils/AXBitFlags.h:17 | the word that Set as written (&=) stores is still a value of the storage type |
| BitFlags.SetWordAsWrittenKeepsAtMostFlag | AspectXEngine/AX/Utils/AXBitFlags.h:17 | after &= a bit is set iff it is the flag's bit and was already set |
| BitFlags.SetAsWrittenDoesNotSet | AspectXEngine/AX/Utils/AXBitFlags.h:14-18 | Set as written leaves the flag clear in a clear word and clears every other flag sharing the word |
| BitFlags.SetWordAsWrittenIdempotent | AspectXEngine/AX/Utils/AXBitFlags.h:17 | applying Set as written twice is the same as once |
| BitFlags.SetWord | AspectXEngine/AX/Utils/AXBitFlags.h:17 | the intended Set (\|=) stores a word with the flag set |
| BitFlags.SetWordKeepsOthers | AspectXEngine/AX/Utils/AXBitFlags.h:17 | the intended Set leaves every other flag of the word as it was |
| BitFlags.SetWordIdempotent | AspectXEngine/AX/Utils/AXBitFlags.h:17 | applying the intended Set twice is the same as once |
| BitFlags.BitFlags.constructor | AspectXEngine/AX/Utils/AXBitFlags.h:10-21 | FlagMax > 0; mStorage holds StorageLength words, all clear |
| BitFlags.BitFlags.SetAsWritten | AspectXEngine/AX/Utils/AXBitFlags.h:14-18 | Set as written: only the flag's word changes, to its AND with the flag's mask |
| BitFlags.BitFlags.Set | AspectXEngine/AX/Utils/AXBitFlags.h:14-18 | the intended Set: only the flag's word changes, the flag is then set and every other flag keeps its value |
| Singleton.Instance.constructor | AspectXEngine/AX/Utils/AXSingleton.h:28 | an object created by new has the dynamic type it was created as |
| Singleton.Singleton.constructor | AspectXEngine/AX/Utils/AXSingleton.h:38-39 | sInstance starts as nullptr |
| Singleton.Singleton.Use | AspectXEngine/AX/Utils/AXSingleton.h:14-22 | Use<DerivedType> requires no instance and DerivedType derived from T, installs a fresh DerivedType and returns it |
| Singleton.Singleton.Get | AspectXEngine/AX/Utils/AXSingleton.h:24-32 | Get returns the existing instance untouched, or creates, installs and returns a fresh T when there is none |
| Singleton.GetTwice | AspectXEngine/AX/Utils/AXSingleton.h:24-32 | every Get after the first returns the same instance |
| Singleton.UseThenGet | AspectXEngine/AX/Utils/AXSingleton.h:14-32 | after Use<DerivedType>, Get returns that same DerivedType instance |
| Settings.FirstNamed | AspectXEngine/AX/Core/AXSettings.h:171-177 | the first index whose item carries the name, or none exactly when no item does |
| Settings.SettingsItem.constructor | AspectXEngine/AX/Core/AXSettings.h:22-32 | a new settings item is named "Undefined" |
| Settings.SettingsItem.Named | AspectXEngine/AX/Core/AXSettings.h:178-179 | the item RegisterNewItem hands out: created, then given the requested name |
| Settings.NamesOf | AspectXEngine/AX/Core/AXSettings.h:57-65 | the items' names, one per item, in registration order |
| Settings.SettingsFile.constructor | AspectXEngine/AX/Core/AXSettings.cpp:169-172 | a settings file has the given name and no items |
| Settings.SettingsFile.GetItems | AspectXEngine/AX/Core/AXSettings.h:57 | the items themselves, in registration order |
| Settings.SettingsFile.FindItemNamed | AspectXEngine/AX/Core/AXSettings.h:171-177 | the loop over mSettingsItems stops at the first item with the name, none when there is none |
| Settings.SettingsFile.RegisterNewItemAsWritten | AspectXEngine/AX/Core/AXSettings.h:166-185 | as written: returns the first item named "Undefined" if any, leaving the list unchanged; otherwise appends and returns a fresh item with the given name |
| Settings.SettingsFile.RegisterNewItem | AspectXEngine/AX/Core/AXSettings.h:161-185 | as documented: returns the first item with the given name, leaving the list unchanged, or appends and returns a fresh item with that name; the result always carries the name and is in the list |
| Settings.FirstNamedFound | AspectXEngine/AX/Core/AXSettings.h:171-177 | an index whose name matches and that no earlier name matches is the one found |
| Settings.RegisterTwiceAsWritten | AspectXEngine/AX/Core/AXSettings.h:161-185 | as written, registering one name twice appends two distinct items of that name |
| Settings.RegisterTwice | AspectXEngine/AX/Core/AXSettings.h:37-43 | with the documented comparison, registering one name twice returns the original item and adds at most one |
| Settings.BuildPathToConfigFile | AspectXEngine/AX/Core/AXSettings.cpp:145-164 | root/configDir/filename.ext with root "." or the content root, or just the root when there is no settings system |
| Settings.ConfigPathInjective | AspectXEngine/AX/Core/AXSettings.cpp:154-161 | with the settings system, distinct filenames give distinct paths |
| Settings.NoSettingsIgnoresFilename | AspectXEngine/AX/Core/AXSettings.cpp:147-163 | without the settings system the filename does not matter |
| Logging.Ordinal | AspectXEngine/AX/Core/AXLogging.h:18-29 | each level's uint8_t value lies below MaxLogLevel |
| Logging.OrdinalInjective | AspectXEngine/AX/Core/AXLogging.h:20-29 | distinct levels have distinct values |
| Logging.ToString | AspectXEngine/AX/Core/AXLogging.h:31-35 | a level value below MaxLogLevel names one of "Info", "Warning", "Error" |
| Logging.ToStringNamesLevels | AspectXEngine/AX/Core/AXLogging.h:31-35 | distinct level values have distinct names, and each level's name spells it |
| Logging.DropDownOptions | AspectXEngine/AX/Core/AXLogging.h:64-71 | the level drop-down has one entry (i, ToString(i)) per level value, in order |
| Logging.PassesFilterMonotone | AspectXEngine/AX/Core/AXLogging.h:164 | a level that passes the filter lets every higher level pass |
| Logging.DefaultsPassEverything | AspectXEngine/AX/Core/AXLogging.h:82 | the default filter Info lets every level pass, and Error passes whenever any level does |
| Logging.Recorder.constructor | AspectXEngine/AX/Core/AXLogging.h:48-55 | a listener starts having received no entries |
| Logging.Recorder.Log | AspectXEngine/AX/Core/AXLogging.h:54 | a listener's Log receives exactly one more entry |
| Logging.Logging.constructor | AspectXEngine/AX/Core/AXLogging.cpp:14-17 | no listeners; no settings until CreateEngineSettings |
| Logging.Logging.CreateEngineSettings | AspectXEngine/AX/Core/AXLogging.cpp:51-54 | mSettings points to the registered settings item |
| Logging.Logging.RegisterNewListener | AspectXEngine/AX/Core/AXLogging.h:148-152 | a fresh listener is appended to the end of mListeners |
| Logging.Logging.OnShutdown | AspectXEngine/AX/Core/AXLogging.cpp:30-38 | every listener is removed |
| Logging.CrashOnlyAfterDispatch | AspectXEngine/AX/Core/AXLogging.h:160-181 | the crash happens only after dispatch, only at Error with crash-on-error set; never with the defaults or without settings |
| Logging.LogInternal | AspectXEngine/AX/Core/AXLogging.h:157-185 | with a logger, listeners and a level that passes the filter, the entry (level, tag, message, file, line) goes to every listener in order, once each; otherwise nobody receives it; the crash assert fires exactly when crash-on-error is set and the level is Error |
| Logging.Dispatch | AspectXEngine/AX/Core/AXLogging.h:173-176 | every listener in mListeners, in order, receives the entry exactly once |
| Logging.OnceSite.constructor | AspectXEngine/AX/Core/AXLogging.h:197 | the static logged flag of one *ONCE expansion starts false |
| Logging.LogOnce | AspectXEngine/AX/Core/AXLogging.h:197-199 | the first run at a site logs through Log_Internal; once the flag is set, nobody receives anything and nothing crashes |
| Logging.LogOnceTwice | AspectXEngine/AX/Core/AXLogging.h:197-199 | the second run of the same site notifies nobody |
| Files.File.constructor | AspectXEngine/AX/IO/AXFile.cpp:10-13 | a new file has no buffer and size 0 |
| Files.File.DestroyInternalBuffer | AspectXEngine/AX/IO/AXFile.cpp:130-136 | the buffer is released and the pair reset to null and 0 |
| Files.File.CreateInternalBuffer | AspectXEngine/AX/IO/AXFile.cpp:106-125 | the old buffer is destroyed; size 0 leaves none; otherwise a fresh buffer of exactly size bytes, holding the first size bytes of data when data is given; the internal buffer is returned |
| Files.File.ObtainInternalBuffer | AspectXEngine/AX/IO/AXFile.cpp:93-104 | the caller receives the buffer and size that were held, and the file is left with null and 0 |
| Files.File.OpenFile | AspectXEngine/AX/IO/AXFile.cpp:36-40 | the base class never opens a file |
| Files.File.IsOpen | AspectXEngine/AX/IO/AXFile.cpp:45-49 | the base class reports that no file is open |
| Files.File.GetFileSize | AspectXEngine/AX/IO/AXFile.cpp:62-66 | the base class reports size 0 |
| Files.File.ReadFileToInternalBuffer | AspectXEngine/AX/IO/AXFile.cpp:71-75 | the base class reads nothing and returns the internal buffer as it is |
| Files.OpenNewFile | AspectXEngine/AX/IO/AXFile.cpp:18-21 | the open-file constructor leaves a fresh file with no buffer and not open |
| Files.GetExtentionAsWritten | AspectXEngine/AX/IO/AXFile.cpp:141-152 | as written: a path with a period yields the suffix from the first period; a path without one reaches substr(npos), which throws (None) |
| Files.GetExtentionAsWrittenNeverEmptyGuard | AspectXEngine/AX/IO/AXFile.cpp:146-149 | the periodLoc == length guard never fires, so "" is never returned |
| Files.GetExtention | AspectXEngine/AX/IO/AXFile.cpp:138-152 | the intended result: "" without a period, otherwise the suffix of path that starts at its first period |
| Files.GetExtentionAgrees | AspectXEngine/AX/IO/AXFile.cpp:141-152 | whenever the path has a period, the written and intended versions agree |
| Files.GetExtentionOfStem | AspectXEngine/AX/IO/AXFile.cpp:143-151 | the extension of stem.rest, for a stem without a period, is .rest |
| Files.GetExtentionExample | AspectXEngine/AX/IO/AXFile.cpp:141-152 | "a.b.png" has extension ".b.png" and "texture" has "" |
| Content.StrLessIrreflexive | AspectXEngine/AX/Content/AXContent.h:120 | the std::string order that keys mContentManagers is irreflexive |
| Content.StrLessTransitive | AspectXEngine/AX/Content/AXContent.h:120 | the key order is transitive |
| Content.StrLessTotal | AspectXEngine/AX/Content/AXContent.h:120 | any two distinct keys are ordered one way or the other |
| Content.Importer.constructor | AspectXEngine/AX/Content/Importers/AXContentImporter.h:15 | an importer is fixed to its supported extension |
| Content.ContentManager.constructor | AspectXEngine/AX/Content/Managers/AXContentManager.h:15 | a manager has its name and no importers |
| Content.ContentManager.IsExtentionSupported | AspectXEngine/AX/Content/Managers/AXContentManager.h:20 | an extension is supported exactly when one of the importers was built for precisely that extension (a case-sensitive match) |
| Content.ContentManager.RegisterContentImporter | AspectXEngine/AX/Content/Managers/AXContentManager.h:72-86 | an extension that already has an importer logs an error and changes nothing; otherwise exactly one fresh importer is added under that extension |
| Content.NewContentManager | AspectXEngine/AX/Content/Managers/AXContentManager.h:70-86 | a derived manager's constructor produces a manager with the given name whose importer keys are exactly the extensions it registers |
| Content.FindByName | AspectXEngine/AX/Content/AXContent.cpp:50-60 | map lookup: a manager with the name if one is registered, none exactly when no manager has it |
| Content.FindByNameOnly | AspectXEngine/AX/Content/AXContent.cpp:52-59 | a manager that is the only one with its name is the one the by-name lookup returns |
| Content.InsertByName | AspectXEngine/AX/Content/AXContent.h:151 | inserting into the map adds exactly the new manager |
| Content.InsertByNameSorted | AspectXEngine/AX/Content/AXContent.h:120-151 | the managers stay in strictly increasing key order after an insertion under a new key |
| Content.SortedNamesDistinct | AspectXEngine/AX/Content/AXContent.h:120 | no two managers share a key |
| Content.Content.constructor | AspectXEngine/AX/Content/AXContent.h:115-125 | no managers, and a content settings file named "Content" with no items |
| Content.Content.FindContentManagerByType | AspectXEngine/AX/Content/AXContent.cpp:50-60 | the manager registered under the name, or none exactly when no manager has that name |
| Content.Content.RegisterContentManager | AspectXEngine/AX/Content/AXContent.h:144-156 | with no manager of that name, a fresh manager is inserted in key order and then found by name, and, when it has settings, RegisterNewItem as written runs on the content settings file: an existing "Undefined" item leaves the items as they were, otherwise exactly one fresh item of the textures settings kind, named after the manager, is appended; otherwise nothing changes |
| Content.Content.FindContentManagerByExtension | AspectXEngine/AX/Content/AXContent.cpp:62-76 | the first manager, in key order, that supports the extension: it supports it, no earlier one does and every other that does comes later; none exactly when no manager supports it |
| Content.Content.RequestAssetLoad | AspectXEngine/AX/Content/AXContent.cpp:82-90 | a name without a period makes GetExtention throw std::out_of_range (OutOfRange) before any lookup; otherwise a default handle is returned and a manager is found exactly when some manager supports the name's extension |
| Content.Content.OnInitialize | AspectXEngine/AX/Content/AXContent.cpp:16-28 | the Textures manager with its single PNG importer is registered and can then be found by name |
| Content.ExtentionNeverMatchesBareKey | AspectXEngine/AX/IO/AXFile.cpp:141-152 | GetExtention as written never returns a key without a leading period, the empty key included |
| Content.RequestAfterInitialize | AspectXEngine/AX/Content/AXContent.cpp:82-90 | after initialisation registers only the textures manager, RequestAssetLoad finds no manager for any name: a name with a period has an extension starting with the period, never "PNG", and a name without one throws |
| Content.ImportChain | AspectXEngine/AX/Content/Importers/AXContentImporter.h:55-94 | a path without a period throws in GetExtention; otherwise Import succeeds exactly when the extension matches, the file is open, the buffer is non-null and non-empty and ImportAsset produced an asset, and then returns that asset |
| Content.Import | AspectXEngine/AX/Content/Importers/AXContentImporter.h:55-94 | a path without a period throws; any other Import fails, at the extension check or, because a base AXFile never opens, at the open check |
| Content.PngImportFailsOnExtention | AspectXEngine/AX/Content/Importers/AXContentImporter.h:58-64 | with the PNG importer, an Import of a path with a period fails at the extension check, and one without a period throws |

## Left out

- Real concurrency is not modelled: OS threads and joining, the `NativeThreadFunc` busy loop and `sShuttingDown`, compare-and-set races, and `thread_local` lock ids. The model has one thread. Each CAS succeeds, and spinning waits are preconditions.
- `SetThreadName`, Win32 windowing and message pumps, and all ImGui and DirectX rendering are not modelled, including the settings, threads and content debug windows. Only the trie insertion of `RegisterSystemDebugMenuItem` is modelled. The trie is a value rather than a structure walked through pointers. System `OnInitialize` bodies that only register debug-menu items are not modelled.
- JSON persistence (`AXSettingsFile::Load`/`Save`, `AXProperties.cpp`, vector JSON I/O) wraps cJSON, whose behaviour is outside the model. `Startup` records only whether the settings would be saved.
- `AXUtils::FormatString` (snprintf) is not modelled. The entry message of `Log_Internal` is taken already formatted, and the path of `BuildPathToConfigFile` is plain concatenation.
- File-system I/O is not modelled (`AXFile_Windows`, `AXDirectory`, `AXFileSystem`). The base `AXFile` operations are modelled as the stubs they are. Their `AXLOG_UNIMPLEMENTED_FUNCTION` logs, `CloseFile` and `WriteInternalBufferToFile` do nothing else, so only the values they return are modelled.
- The contents of a buffer created without data (`new uint8_t[size]`) are indeterminate. The model leaves them unconstrained.
- Floating point and time are not modelled: `ThreadResult::mDelayTime`, the frame loop of `RunEngineLoop`, and float vectors and colours. `AXMathVector` and `AXProperty` are modelled for integer element types only. The bitwise and shift operators of `AXProperty` are not modelled.
- Object lifetime is not modelled: new/delete of tasks, user data, listeners and systems, and the in-place destructor call in `Release`. Deleting is modelled as dropping the reference.
- `AXResourcePool::Get` calls itself forever, so it is not modelled. `Sleep` and `Wake` are declared but never defined, so they are not modelled either.
- `AXBitFlags` storage is uninitialised in the source. The model starts from a value-initialised (all clear) object.
- `AXLogging::mSettings` is never initialised in its constructor. The model treats it as null (`None`) until `CreateEngineSettings` runs.
- `InitialiseNewImporter` (in AXContentManager.cpp) and importer settings registration are not modelled. The content manager's settings item is registered through `RegisterNewItem` as written.
- `Files.GetExtentionAsWritten`: a path without a period is not excluded by a precondition. It is modelled as the `std::out_of_range` that `substr(npos)` throws (`None`). The intended `Files.GetExtention` returns "" for it.
- `Content.Content.RequestAssetLoad`, `Content.ImportChain`, `Content.Import`: each requires a name shorter than `npos`, as every `std::string` is, because `GetExtentionAsWritten` compares positions with `npos`.
- `Utils.SplitString`: `subStrStart` and `subStrCount` are `uint32_t` in the source. The model keeps them unbounded, so their wrap on strings of 2^32 or more characters is not modelled.
- `Application.Application.LoadSettings`: which system types override `CreateEngineSettings` is a parameter, because it is decided by virtual dispatch. Each override's item is modelled by its name and kind only. The pointer each override keeps (`mSettings`, `mAppSettings`) is not handed back to its system, and `Load` is left out with the rest of JSON persistence.
- Handle copy construction and assignment are not separate members: a handle is a datatype value, so copies keep id and unique by construction.
- `Application.Application.InitializeAllSystems`: the source loop may retry forever. The model draws `OnInitialize` results from a finite sequence and reports `None` when it runs out, so non-termination shows up only as that outcome.

## Findings

| source | as written | input that shows it | evidently intended | confidence | as-written member | corrected member |
|---|---|---|---|---|---|---|
| AspectXEngine/AX/Core/Threads/AXThreadedTasks.cpp:111-121 | the read lock taken to test the queue is still held when the write lock is tried | a queue holding one task: TryGetWrite fails, no task runs, false is returned, and a reader entry stays behind | release the read lock before taking the write lock, so the selected task runs | not executed | ThreadedTasks.ThreadedTasks.RunNextAvailableTaskAsWritten | ThreadedTasks.ThreadedTasks.RunNextAvailableTask |
| AspectXEngine/AX/Core/AXSettings.h:169-176 | existing items are compared with a default-constructed item's name, always "Undefined" | registering "Logging" twice in a file with no item named "Undefined" appends two distinct items | compare with the requested name, so a second registration returns the original, as the doc comment says | not executed | Settings.RegisterTwiceAsWritten | Settings.RegisterTwice |
| AspectXEngine/AX/Utils/AXBitFlags.h:17 | Set ANDs the word with the flag's mask, which clears bits | Set(0) on an all-clear word leaves flag 0 clear, and clears every other flag in the word | OR the mask in, so the flag is set and the other flags keep their values | not executed | BitFlags.SetAsWrittenDoesNotSet | BitFlags.BitFlags.Set |
| AspectXEngine/AX/IO/AXFile.cpp:146 | the no-period guard compares find_first_of's result with the length, which it never returns | "texture" reaches substr(npos, ...), which throws std::out_of_range | compare with npos and return "" when there is no period | not executed | Files.GetExtentionAsWrittenNeverEmptyGuard | Files.GetExtention |
