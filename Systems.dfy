/**
 * AXSystemBase and AXISystemOwner: the per-system lifecycle state machine and
 * the registry of systems, looked up by name. What a system's OnInitialize
 * returns is an input of the model; OnShutdown's work is left abstract and
 * only whether it runs is recorded.
 */
module Systems {
  import opened Options

  datatype InitResult = Initialized | Retry | Failed

  datatype State = Uninitialized | Initialized | FailedToInitialize | Shutdown

  /** The name every system carries unless its constructor gives another. */
  const UndefinedName: string := "Undefined"

  /** The result of the base class's OnInitialize. */
  function DefaultOnInitialize(): (r: InitResult)
    ensures r == InitResult.Initialized
  {
    InitResult.Initialized
  }

  /** Whether Shutdown from state s runs OnShutdown. */
  predicate ShutdownRuns(s: State) {
    s == State.Initialized || s == State.FailedToInitialize
  }

  class SystemBase {
    const name: string
    var state: State

    /** A new system is Uninitialized. */
    constructor (name: string)
      ensures this.name == name && state == State.Uninitialized
    {
      this.name := name;
      state := State.Uninitialized;
    }

    function GetName(): (r: string)
      ensures r == name
    {
      name
    }

    function GetState(): (r: State)
      reads this
      ensures r == state
    {
      state
    }

    /**
     * Initialize, with res standing for what OnInitialize returned: its result
     * is res; Initialized and Failed set the matching state, Retry leaves the
     * state as it was.
     */
    method Initialize(res: InitResult) returns (r: InitResult)
      modifies this
      ensures r == res
      ensures res == InitResult.Initialized ==> state == State.Initialized
      ensures res == InitResult.Failed ==> state == State.FailedToInitialize
      ensures res == InitResult.Retry ==> state == old(state)
    {
      r := res;
      if r == InitResult.Initialized {
        state := State.Initialized;
      } else if r == InitResult.Failed {
        state := State.FailedToInitialize;
      }
    }

    /**
     * Shutdown: OnShutdown runs only from Initialized or FailedToInitialize,
     * and the state always ends as Shutdown, so a second Shutdown never runs
     * OnShutdown again.
     */
    method Shutdown() returns (ranOnShutdown: bool)
      modifies this
      ensures ranOnShutdown <==> ShutdownRuns(old(state))
      ensures state == State.Shutdown && !ShutdownRuns(state)
    {
      ranOnShutdown := state == State.Initialized || state == State.FailedToInitialize;
      state := State.Shutdown;
    }
  }

  /** The states of the systems, in registry order. */
  function StatesOf(ss: seq<SystemBase>): (r: seq<State>)
    reads set s | s in ss
    ensures |r| == |ss|
    ensures forall i :: 0 <= i < |ss| ==> r[i] == ss[i].state
  {
    if ss == [] then [] else StatesOf(ss[..|ss| - 1]) + [ss[|ss| - 1].state]
  }

  /** States read one by one determine StatesOf. */
  lemma StatesAre(ss: seq<SystemBase>, states: seq<State>)
    requires |states| == |ss|
    requires forall k :: 0 <= k < |ss| ==> ss[k].state == states[k]
    ensures StatesOf(ss) == states
  {
  }

  /** The names of the systems, in registry order. */
  function NamesOf(ss: seq<SystemBase>): (r: seq<string>)
    ensures |r| == |ss|
    ensures forall i :: 0 <= i < |ss| ==> r[i] == ss[i].name
  {
    if ss == [] then [] else NamesOf(ss[..|ss| - 1]) + [ss[|ss| - 1].name]
  }

  function Reverse<T>(s: seq<T>): (r: seq<T>)
    ensures |r| == |s|
    ensures forall i :: 0 <= i < |s| ==> r[i] == s[|s| - 1 - i]
  {
    if s == [] then [] else [s[|s| - 1]] + Reverse(s[..|s| - 1])
  }

  /** i is the position of the first system called name. */
  predicate FirstNamed(ss: seq<SystemBase>, i: int, name: string) {
    0 <= i < |ss| && ss[i].name == name && forall j :: 0 <= j < i ==> ss[j].name != name
  }

  /** Registered systems have pairwise distinct names. */
  predicate DistinctNames(ss: seq<SystemBase>) {
    forall i, j :: 0 <= i < j < |ss| ==> ss[i].name != ss[j].name
  }

  /** AXISystemOwner: the owned systems, in creation order. */
  class SystemOwner {
    var systems: seq<SystemBase>

    ghost predicate Valid()
      reads this
    {
      DistinctNames(systems)
    }

    constructor ()
      ensures Valid() && systems == []
    {
      systems := [];
    }

    /**
     * FindSystem(name): the first system with that name, or none. The typed
     * FindSystem<T> and GetFrom are this lookup on T's static name.
     */
    method FindSystem(name: string) returns (r: Option<SystemBase>)
      ensures r.None? <==> forall i :: 0 <= i < |systems| ==> systems[i].name != name
      ensures r.Some? ==> r.value.name == name
      ensures r.Some? ==> exists i :: FirstNamed(systems, i, name) && systems[i] == r.value
    {
      var i := 0;
      while i < |systems|
        invariant 0 <= i <= |systems|
        invariant forall j :: 0 <= j < i ==> systems[j].name != name
      {
        if systems[i].GetName() == name {
          return Some(systems[i]);
        }
        i := i + 1;
      }
      r := None;
    }

    /**
     * CreateSystem<T>, for the system type whose static name is name: the
     * registered system of that name if there is one, with the registry
     * unchanged; otherwise a new Uninitialized system appended at the end.
     */
    method CreateSystem(name: string) returns (s: SystemBase)
      requires Valid()
      modifies this
      ensures Valid() && s.name == name && s in systems
      ensures (exists i :: 0 <= i < |old(systems)| && old(systems)[i].name == name) ==>
        systems == old(systems) && s.state == old(s.state)
      ensures (forall i :: 0 <= i < |old(systems)| ==> old(systems)[i].name != name) ==>
        fresh(s) && s.state == State.Uninitialized && systems == old(systems) + [s]
    {
      var existing := FindSystem(name);
      if existing.Some? {
        return existing.value;
      }
      s := new SystemBase(name);
      systems := systems + [s];
    }

    /** CleanupSystems: destroys the systems last to first, then empties the registry. */
    method CleanupSystems() returns (destroyed: seq<SystemBase>)
      modifies this
      ensures Valid() && systems == []
      ensures destroyed == Reverse(old(systems))
    {
      destroyed := [];
      var i := |systems|;
      while i > 0
        invariant 0 <= i <= |systems|
        invariant |destroyed| == |systems| - i
        invariant forall k :: 0 <= k < |destroyed| ==> destroyed[k] == systems[|systems| - 1 - k]
      {
        i := i - 1;
        destroyed := destroyed + [systems[i]];
      }
      assert destroyed == Reverse(systems);
      systems := [];
    }
  }

  /** No system object is registered twice. */
  predicate DistinctObjects(ss: seq<SystemBase>) {
    forall i, j :: 0 <= i < j < |ss| ==> ss[i] != ss[j]
  }

  /** Distinct names make the systems distinct objects. */
  lemma NamesMakeObjectsDistinct(ss: seq<SystemBase>)
    requires DistinctNames(ss)
    ensures DistinctObjects(ss)
  {
    forall i, j | 0 <= i < j < |ss|
      ensures ss[i] != ss[j]
    {
      assert ss[i].name != ss[j].name;
    }
  }

  // ---------------------------------------------------------------------------
  // The retry loop of InitializeAllSystems, on the states alone.
  // results are the values the successive OnInitialize calls return, in the
  // order the calls happen.

  /** Where a pass over the systems stopped, and with which states. */
  datatype PassEnd = PassEnd(states: seq<State>, rest: seq<InitResult>, retry: bool, failed: bool, dry: bool)

  /**
   * One pass from system i on: each Uninitialized system takes the next
   * result; Failed ends the pass at once; Retry marks the pass for repetition.
   * dry means an Uninitialized system was reached with no result left.
   */
  function Pass(states: seq<State>, i: nat, results: seq<InitResult>, retry: bool): (p: PassEnd)
    requires i <= |states|
    ensures |p.states| == |states| && |p.rest| <= |results|
    ensures p.retry && !retry ==> |p.rest| < |results|
    ensures p.dry ==> !p.failed
    decreases |states| - i
  {
    if i == |states| then PassEnd(states, results, retry, false, false)
    else if states[i] != State.Uninitialized then Pass(states, i + 1, results, retry)
    else if results == [] then PassEnd(states, results, retry, false, true)
    else match results[0]
      case Initialized => Pass(states[i := State.Initialized], i + 1, results[1..], retry)
      case Failed => PassEnd(states[i := State.FailedToInitialize], results[1..], retry, true, false)
      case Retry => Pass(states, i + 1, results[1..], true)
  }

  /** What InitializeAllSystems returns (none when the results ran out) and the final states. */
  datatype Outcome = Outcome(result: Option<bool>, states: seq<State>)

  /** Passes until one ends with neither Retry nor Failed. */
  function InitAll(states: seq<State>, results: seq<InitResult>): (o: Outcome)
    ensures |o.states| == |states|
    decreases |results|
  {
    var p := Pass(states, 0, results, false);
    if p.dry then Outcome(None, p.states)
    else if p.failed then Outcome(Some(false), p.states)
    else if p.retry then InitAll(p.states, p.rest)
    else Outcome(Some(true), p.states)
  }

  /** A state change allowed by initialisation: only Uninitialized systems move, to Initialized or FailedToInitialize. */
  predicate Advanced(before: seq<State>, after: seq<State>)
    requires |before| == |after|
  {
    forall k :: 0 <= k < |before| ==>
      after[k] == before[k] ||
      (before[k] == State.Uninitialized && (after[k] == State.Initialized || after[k] == State.FailedToInitialize))
  }

  /** A pass touches only Uninitialized systems at or after i. */
  lemma {:induction false} PassAdvances(states: seq<State>, i: nat, results: seq<InitResult>, retry: bool)
    requires i <= |states|
    ensures Advanced(states, Pass(states, i, results, retry).states)
    ensures forall k :: 0 <= k < i ==> Pass(states, i, results, retry).states[k] == states[k]
    decreases |states| - i
  {
    if i == |states| {
    } else if states[i] != State.Uninitialized {
      PassAdvances(states, i + 1, results, retry);
    } else if results != [] {
      match results[0]
      case Initialized =>
        var s' := states[i := State.Initialized];
        PassAdvances(s', i + 1, results[1..], retry);
      case Failed =>
      case Retry =>
        PassAdvances(states, i + 1, results[1..], true);
    }
  }

  lemma AdvancedTransitive(a: seq<State>, b: seq<State>, c: seq<State>)
    requires |a| == |b| == |c| && Advanced(a, b) && Advanced(b, c)
    ensures Advanced(a, c)
  {
  }

  /** InitializeAllSystems only ever moves Uninitialized systems, to Initialized or FailedToInitialize. */
  lemma {:induction false} InitAllAdvances(states: seq<State>, results: seq<InitResult>)
    ensures Advanced(states, InitAll(states, results).states)
    decreases |results|
  {
    var p := Pass(states, 0, results, false);
    PassAdvances(states, 0, results, false);
    if !p.dry && !p.failed && p.retry {
      InitAllAdvances(p.states, p.rest);
      AdvancedTransitive(states, p.states, InitAll(p.states, p.rest).states);
    }
  }

  /**
   * A pass that ends without Retry, Failed or running dry leaves no system at
   * or after i Uninitialized.
   */
  lemma {:induction false} CleanPassInitializesAll(states: seq<State>, i: nat, results: seq<InitResult>)
    requires i <= |states|
    requires var p := Pass(states, i, results, false); !p.retry && !p.failed && !p.dry
    ensures forall k :: i <= k < |states| ==> Pass(states, i, results, false).states[k] != State.Uninitialized
    decreases |states| - i
  {
    if i == |states| {
    } else if states[i] != State.Uninitialized {
      CleanPassInitializesAll(states, i + 1, results);
      PassAdvances(states, i + 1, results, false);
    } else {
      match results[0]
      case Initialized =>
        var s' := states[i := State.Initialized];
        CleanPassInitializesAll(s', i + 1, results[1..]);
        PassAdvances(s', i + 1, results[1..], false);
      case Retry =>
        assert Pass(states, i, results, false) == Pass(states, i + 1, results[1..], true);
        PassKeepsRetry(states, i + 1, results[1..]);
    }
  }

  /** Once a pass has seen a Retry it reports one, unless it fails or runs dry. */
  lemma {:induction false} PassKeepsRetry(states: seq<State>, i: nat, results: seq<InitResult>)
    requires i <= |states|
    ensures var p := Pass(states, i, results, true); p.retry || p.failed || p.dry
    decreases |states| - i
  {
    if i == |states| {
    } else if states[i] != State.Uninitialized {
      PassKeepsRetry(states, i + 1, results);
    } else if results != [] {
      match results[0]
      case Initialized => PassKeepsRetry(states[i := State.Initialized], i + 1, results[1..]);
      case Failed =>
      case Retry => PassKeepsRetry(states, i + 1, results[1..]);
    }
  }

  /** A true result means no system remains Uninitialized. */
  lemma {:induction false} InitAllSucceeded(states: seq<State>, results: seq<InitResult>)
    requires InitAll(states, results).result == Some(true)
    ensures forall k :: 0 <= k < |states| ==> InitAll(states, results).states[k] != State.Uninitialized
    decreases |results|
  {
    var p := Pass(states, 0, results, false);
    if p.retry {
      InitAllSucceeded(p.states, p.rest);
    } else {
      CleanPassInitializesAll(states, 0, results);
    }
  }

  /**
   * Position k, at or after i, was Uninitialized and became
   * FailedToInitialize, and every system after it is unchanged.
   */
  predicate FailedAt(before: seq<State>, after: seq<State>, i: nat, k: int)
    requires |before| == |after|
  {
    && i <= k < |before|
    && before[k] == State.Uninitialized
    && after[k] == State.FailedToInitialize
    && forall j :: k < j < |before| ==> after[j] == before[j]
  }

  /**
   * A pass that fails stops at the failing system: it alone became
   * FailedToInitialize, and the systems after it are as they were.
   */
  lemma {:induction false} PassStopsAtFailure(states: seq<State>, i: nat, results: seq<InitResult>, retry: bool)
    requires i <= |states| && Pass(states, i, results, retry).failed
    ensures exists k :: FailedAt(states, Pass(states, i, results, retry).states, i, k)
    decreases |states| - i
  {
    if states[i] != State.Uninitialized {
      PassStopsAtFailure(states, i + 1, results, retry);
      var k :| FailedAt(states, Pass(states, i + 1, results, retry).states, i + 1, k);
      assert FailedAt(states, Pass(states, i, results, retry).states, i, k);
    } else {
      match results[0]
      case Initialized =>
        var s' := states[i := State.Initialized];
        PassStopsAtFailure(s', i + 1, results[1..], retry);
        var k :| FailedAt(s', Pass(s', i + 1, results[1..], retry).states, i + 1, k);
        assert FailedAt(states, Pass(states, i, results, retry).states, i, k);
      case Failed =>
        assert FailedAt(states, Pass(states, i, results, retry).states, i, i);
      case Retry =>
        PassStopsAtFailure(states, i + 1, results[1..], true);
        var k :| FailedAt(states, Pass(states, i + 1, results[1..], true).states, i + 1, k);
        assert FailedAt(states, Pass(states, i, results, retry).states, i, k);
    }
  }

  /** A false result comes from a system that failed: some system ends FailedToInitialize. */
  lemma {:induction false} InitAllFailed(states: seq<State>, results: seq<InitResult>)
    requires InitAll(states, results).result == Some(false)
    ensures exists k :: 0 <= k < |states| && InitAll(states, results).states[k] == State.FailedToInitialize
    decreases |results|
  {
    var p := Pass(states, 0, results, false);
    if p.failed {
      PassStopsAtFailure(states, 0, results, false);
    } else {
      InitAllFailed(p.states, p.rest);
    }
  }
}
