/**
 * AXApplication: start-up, the initialisation retry loop, command-line
 * delivery and shutdown of the registered systems. The application is the
 * owner of its systems; a system type is identified by its static name.
 */
module Application {
  import opened Options
  import opened Systems
  import Utils
  import Settings

  /** What one system's HandleCommandLine received. */
  datatype Delivery = Delivery(system: string, args: seq<string>)

  /** The static name of the settings system. */
  const SettingsSystemName: string := "Settings"

  /** The name LoadSettings registers the application's own settings item under. */
  const AppSettingsName: string := "Application"

  /** The kind of the settings item a system called name registers, name::Settings. */
  function SettingsKind(name: string): string
  {
    name + "::Settings"
  }

  /** The names, in order, of the systems whose type overrides CreateEngineSettings. */
  function Overriding(names: seq<string>, overrides: set<string>): (r: seq<string>)
    ensures |r| <= |names|
    ensures forall n :: n in r <==> n in names && n in overrides
  {
    if names == [] then []
    else (if names[0] in overrides then [names[0]] else []) + Overriding(names[1..], overrides)
  }

  /** The first name is kept exactly when its type overrides CreateEngineSettings. */
  lemma OverridingStep(names: seq<string>, i: nat, overrides: set<string>)
    requires i < |names|
    ensures Overriding(names[i..], overrides) ==
      (if names[i] in overrides then [names[i]] else []) + Overriding(names[i + 1..], overrides)
  {
    assert names[i..][1..] == names[i + 1..];
  }

  /** A settings file's item names after one RegisterNewItem, as written, of name. */
  function NamesAfterRegister(names: seq<string>, name: string): seq<string>
  {
    if Settings.DefaultItemName in names then names else names + [name]
  }

  /**
   * The item names after RegisterNewItem, as written, has registered each of
   * regs in order: each name is appended until an item named "Undefined"
   * exists, after which every registration hands that item back.
   */
  function RegisteredNames(names: seq<string>, regs: seq<string>): (r: seq<string>)
    ensures names <= r && |r| <= |names| + |regs|
    decreases |regs|
  {
    if regs == [] || Settings.DefaultItemName in names then names
    else RegisteredNames(names + [regs[0]], regs[1..])
  }

  /** Registering x first is one step, then the rest. */
  lemma RegisteredStep(names: seq<string>, x: string, rest: seq<string>)
    ensures RegisteredNames(names, [x] + rest) == RegisteredNames(NamesAfterRegister(names, x), rest)
  {
    assert ([x] + rest)[1..] == rest;
  }

  /** With no "Undefined" among them, every registration appends its name. */
  lemma {:induction false} RegisteredNamesAppend(names: seq<string>, regs: seq<string>)
    requires Settings.DefaultItemName !in names && Settings.DefaultItemName !in regs
    ensures RegisteredNames(names, regs) == names + regs
    decreases |regs|
  {
    if regs != [] {
      assert regs == [regs[0]] + regs[1..];
      RegisteredStep(names, regs[0], regs[1..]);
      RegisteredNamesAppend(names + [regs[0]], regs[1..]);
      assert names + [regs[0]] + regs[1..] == names + regs;
    }
  }

  /** One RegisterNewItem call, as written, seen through the file's item names. */
  method RegisterAsWritten(file: Settings.SettingsFile, name: string)
    modifies file`items
    ensures Settings.NamesOf(file.items) == NamesAfterRegister(Settings.NamesOf(old(file.items)), name)
  {
    ghost var before := Settings.NamesOf(file.items);
    var item := file.RegisterNewItemAsWritten(SettingsKind(name), name);
    if Settings.DefaultItemName !in before {
      assert Settings.NamesOf(file.items) == before + [name];
    }
  }

  /**
   * The loop of LoadSettings: CreateEngineSettings for each system in order,
   * which for the types in overrides registers an item under the system's name.
   */
  method CreateEngineSettings(file: Settings.SettingsFile, systems: seq<SystemBase>, overrides: set<string>)
    modifies file`items
    ensures Settings.NamesOf(file.items) == RegisteredNames(Settings.NamesOf(old(file.items)), Overriding(NamesOf(systems), overrides))
  {
    ghost var names := NamesOf(systems);
    ghost var target := RegisteredNames(Settings.NamesOf(file.items), Overriding(names, overrides));
    assert names[0..] == names;
    var i := 0;
    while i < |systems|
      invariant 0 <= i <= |systems|
      invariant RegisteredNames(Settings.NamesOf(file.items), Overriding(names[i..], overrides)) == target
    {
      var name := systems[i].GetName();
      ghost var cur := Settings.NamesOf(file.items);
      ghost var later := Overriding(names[i + 1..], overrides);
      OverridingStep(names, i, overrides);
      if name in overrides {
        RegisteredStep(cur, name, later);
        RegisterAsWritten(file, name);
        assert Settings.NamesOf(file.items) == NamesAfterRegister(cur, name);
      } else {
        assert Overriding(names[i..], overrides) == later;
      }
      assert RegisteredNames(Settings.NamesOf(file.items), later) == target;
      i := i + 1;
    }
    assert names[i..] == [];
  }

  class Application {
    const owner: SystemOwner
    /** The settings system's engine settings file, named "Engine". */
    const engineSettings: Settings.SettingsFile

    constructor ()
      ensures fresh(owner) && owner.Valid() && owner.systems == []
      ensures fresh(engineSettings) && engineSettings.name == Settings.EngineFileName && engineSettings.items == []
    {
      owner := new SystemOwner();
      engineSettings := new Settings.SettingsFile(Settings.EngineFileName);
    }

    /**
     * LoadSettings: with the settings system, the "Application" item is
     * registered in the engine settings file and then every system, in
     * registry order, gets CreateEngineSettings; the types in overrides
     * register an item under their static name, the others, keeping the base
     * version, register nothing. Without the settings system an error is
     * logged and nothing is registered.
     */
    method LoadSettings(overrides: set<string>) returns (hasSettings: bool)
      modifies engineSettings`items
      ensures hasSettings <==> SettingsSystemName in NamesOf(owner.systems)
      ensures !hasSettings ==> engineSettings.items == old(engineSettings.items)
      ensures hasSettings ==>
        Settings.NamesOf(engineSettings.items) == RegisteredNames(Settings.NamesOf(old(engineSettings.items)), [AppSettingsName] + Overriding(NamesOf(owner.systems), overrides))
    {
      var settings := owner.FindSystem(SettingsSystemName);
      hasSettings := settings.Some?;
      if !hasSettings {
        return;
      }
      RegisteredStep(Settings.NamesOf(engineSettings.items), AppSettingsName, Overriding(NamesOf(owner.systems), overrides));
      RegisterAsWritten(engineSettings, AppSettingsName);
      CreateEngineSettings(engineSettings, owner.systems, overrides);
    }

    /**
     * CreateDefaultSystems: CreateSystem for each name in order (the engine's
     * list, or an application's own). Names already registered are skipped;
     * every new system is fresh, Uninitialized and appended.
     */
    method CreateDefaultSystems(names: seq<string>)
      requires owner.Valid()
      modifies owner
      ensures owner.Valid()
      ensures |owner.systems| >= |old(owner.systems)| && owner.systems[..|old(owner.systems)|] == old(owner.systems)
      ensures forall n :: n in names ==> exists k :: 0 <= k < |owner.systems| && owner.systems[k].name == n
      ensures forall k :: |old(owner.systems)| <= k < |owner.systems| ==>
        fresh(owner.systems[k]) && owner.systems[k].state == State.Uninitialized && owner.systems[k].name in names
    {
      var i := 0;
      while i < |names|
        invariant 0 <= i <= |names| && owner.Valid()
        invariant |owner.systems| >= |old(owner.systems)| && owner.systems[..|old(owner.systems)|] == old(owner.systems)
        invariant forall n :: n in names[..i] ==> exists k :: 0 <= k < |owner.systems| && owner.systems[k].name == n
        invariant forall k :: |old(owner.systems)| <= k < |owner.systems| ==>
          fresh(owner.systems[k]) && owner.systems[k].state == State.Uninitialized && owner.systems[k].name in names
      {
        ghost var before := owner.systems;
        var s := owner.CreateSystem(names[i]);
        if owner.systems != before {
          assert owner.systems == before + [s];
          assert owner.systems[..|old(owner.systems)|] == before[..|old(owner.systems)|];
        }
        assert forall k :: 0 <= k < |before| ==> owner.systems[k] == before[k];
        assert exists k :: 0 <= k < |owner.systems| && owner.systems[k] == s;
        assert names[..i + 1] == names[..i] + [names[i]];
        i := i + 1;
      }
      assert names[..i] == names;
    }

    /** HandleCommandLine: splits on ' ' and hands every system the same argument list, in registry order. */
    method HandleCommandLine(commandLine: string) returns (delivered: seq<Delivery>)
      ensures |delivered| == |owner.systems|
      ensures forall i :: 0 <= i < |delivered| ==>
        delivered[i] == Delivery(owner.systems[i].name, Utils.Split(commandLine, ' '))
    {
      var args := Utils.SplitString(commandLine, ' ', []);
      assert args == Utils.Split(commandLine, ' ');
      delivered := [];
      var i := 0;
      while i < |owner.systems|
        invariant 0 <= i <= |owner.systems| && |delivered| == i
        invariant forall j :: 0 <= j < i ==> delivered[j] == Delivery(owner.systems[j].name, args)
      {
        delivered := delivered + [Delivery(owner.systems[i].GetName(), args)];
        i := i + 1;
      }
    }

    /**
     * InitializeAllSystems, with results the values successive OnInitialize
     * calls return. The outcome and the final states are those of InitAll;
     * none means the results ran out while a system was still to be
     * initialised, where the program would go on looping.
     */
    method InitializeAllSystems(results: seq<InitResult>) returns (ok: Option<bool>)
      requires owner.Valid()
      modifies set s | s in owner.systems
      ensures Outcome(ok, StatesOf(owner.systems)) == InitAll(old(StatesOf(owner.systems)), results)
    {
      var systems := owner.systems;
      var rest := results;
      ghost var start := StatesOf(systems);
      while true
        invariant InitAll(StatesOf(systems), rest) == InitAll(start, results)
        decreases |rest|
      {
        var needToRetry, failed, dry;
        NamesMakeObjectsDistinct(systems);
        rest, needToRetry, failed, dry := InitializePass(systems, rest);
        if dry {
          return None;
        } else if failed {
          return Some(false);
        } else if !needToRetry {
          return Some(true);
        }
      }
    }

    /**
     * One pass of the do-while loop: in registry order, each Uninitialized
     * system is initialised with the next result. A failure ends the pass
     * (and InitializeAllSystems) at once; a Retry asks for another pass.
     */
    method InitializePass(systems: seq<SystemBase>, results: seq<InitResult>)
      returns (rest: seq<InitResult>, needToRetry: bool, failed: bool, dry: bool)
      requires DistinctObjects(systems)
      modifies set s | s in systems
      ensures Pass(old(StatesOf(systems)), 0, results, false) == PassEnd(StatesOf(systems), rest, needToRetry, failed, dry)
    {
      rest, needToRetry, failed, dry := results, false, false, false;
      ghost var passStates := StatesOf(systems);
      ghost var cur := passStates;
      var i := 0;
      while i < |systems|
        invariant 0 <= i <= |systems| && |cur| == |systems|
        invariant forall k :: 0 <= k < |systems| ==> systems[k].state == cur[k]
        invariant Pass(cur, i, rest, needToRetry) == Pass(passStates, 0, results, false)
      {
        var sys := systems[i];
        ghost var c0, r0, t0 := cur, rest, needToRetry;
        if sys.GetState() == State.Uninitialized {
          if rest == [] {
            dry := true;
            StatesAre(systems, cur);
            return;
          }
          var res;
          res, cur := InitializeAt(systems, i, rest[0], cur);
          rest := rest[1..];
          if res == InitResult.Initialized {
            assert Pass(c0, i, r0, t0) == Pass(cur, i + 1, rest, t0);
          } else if res == InitResult.Failed {
            failed := true;
            assert Pass(c0, i, r0, t0) == PassEnd(cur, rest, t0, true, false);
            StatesAre(systems, cur);
            return;
          } else {
            assert cur == c0;
            needToRetry := true;
            assert Pass(c0, i, r0, t0) == Pass(cur, i + 1, rest, true);
          }
        } else {
          assert Pass(c0, i, r0, t0) == Pass(cur, i + 1, rest, t0);
        }
        i := i + 1;
      }
      StatesAre(systems, cur);
    }

    /** Initialize on the i-th system; the others keep their states. */
    method InitializeAt(systems: seq<SystemBase>, i: nat, r: InitResult, ghost cur: seq<State>)
      returns (res: InitResult, ghost next: seq<State>)
      requires DistinctObjects(systems) && i < |systems| == |cur|
      requires forall k :: 0 <= k < |systems| ==> systems[k].state == cur[k]
      modifies systems[i]
      ensures res == r && |next| == |systems|
      ensures forall k :: 0 <= k < |systems| ==> systems[k].state == next[k]
      ensures r == InitResult.Initialized ==> next == cur[i := State.Initialized]
      ensures r == InitResult.Failed ==> next == cur[i := State.FailedToInitialize]
      ensures r == InitResult.Retry ==> next == cur
    {
      res := systems[i].Initialize(r);
      next := cur[i := systems[i].state];
    }

    /**
     * ShutdownAllSystems: shuts the systems down last to first, then empties
     * the registry. order holds the names in shutdown order and ran whether
     * each one's OnShutdown ran.
     */
    method ShutdownAllSystems() returns (order: seq<string>, ran: seq<bool>)
      requires owner.Valid()
      modifies owner, set s | s in owner.systems
      ensures owner.Valid() && owner.systems == []
      ensures |order| == |ran| == |old(owner.systems)|
      ensures forall k :: 0 <= k < |order| ==> order[k] == old(owner.systems)[|order| - 1 - k].name
      ensures forall k :: 0 <= k < |ran| ==> (ran[k] <==> ShutdownRuns(old(owner.systems[|ran| - 1 - k].state)))
      ensures forall s :: s in old(owner.systems) ==> s.state == State.Shutdown
    {
      NamesMakeObjectsDistinct(owner.systems);
      order, ran := ShutdownInReverse(owner.systems);
      var destroyed := owner.CleanupSystems();
    }

    /** The loop of ShutdownAllSystems, from the last system to the first. */
    method ShutdownInReverse(systems: seq<SystemBase>) returns (order: seq<string>, ran: seq<bool>)
      requires DistinctObjects(systems)
      modifies set s | s in systems
      ensures |order| == |ran| == |systems|
      ensures forall k :: 0 <= k < |order| ==> order[k] == systems[|systems| - 1 - k].name
      ensures forall k :: 0 <= k < |ran| ==> (ran[k] <==> ShutdownRuns(old(systems[|systems| - 1 - k].state)))
      ensures forall k :: 0 <= k < |systems| ==> systems[k].state == State.Shutdown
    {
      order, ran := [], [];
      var i := |systems|;
      while i > 0
        invariant 0 <= i <= |systems| && |order| == |ran| == |systems| - i
        invariant forall k :: 0 <= k < |order| ==> order[k] == systems[|systems| - 1 - k].name
        invariant forall k :: 0 <= k < |ran| ==> (ran[k] <==> ShutdownRuns(old(systems[|systems| - 1 - k].state)))
        invariant forall k :: i <= k < |systems| ==> systems[k].state == State.Shutdown
        invariant forall k :: 0 <= k < i ==> systems[k].state == old(systems[k].state)
      {
        i := i - 1;
        var sys := systems[i];
        var r := sys.Shutdown();
        order, ran := order + [sys.GetName()], ran + [r];
      }
    }

    /**
     * The first half of Startup: creates the default systems, loads the
     * settings and hands every system the command line.
     */
    method PrepareSystems(defaultSystems: seq<string>, overrides: set<string>, commandLine: string)
      returns (delivered: seq<Delivery>)
      requires owner.Valid()
      modifies owner, engineSettings`items
      ensures owner.Valid()
      ensures |owner.systems| >= |old(owner.systems)| && owner.systems[..|old(owner.systems)|] == old(owner.systems)
      ensures forall k :: |old(owner.systems)| <= k < |owner.systems| ==>
        fresh(owner.systems[k]) && owner.systems[k].state == State.Uninitialized
      ensures forall n :: n in defaultSystems ==> exists k :: 0 <= k < |owner.systems| && owner.systems[k].name == n
      ensures SettingsSystemName !in NamesOf(owner.systems) ==> engineSettings.items == old(engineSettings.items)
      ensures SettingsSystemName in NamesOf(owner.systems) ==>
        Settings.NamesOf(engineSettings.items) == RegisteredNames(Settings.NamesOf(old(engineSettings.items)), [AppSettingsName] + Overriding(NamesOf(owner.systems), overrides))
      ensures |delivered| == |owner.systems|
      ensures forall i :: 0 <= i < |delivered| ==> delivered[i] == Delivery(owner.systems[i].name, Utils.Split(commandLine, ' '))
    {
      CreateDefaultSystems(defaultSystems);
      var hasSettings := LoadSettings(overrides);
      delivered := HandleCommandLine(commandLine);
    }

    /**
     * Startup: creates the default systems, loads the settings, hands every
     * system the command line and initialises them; only after a successful
     * initialisation is the settings file saved, and only when the settings
     * system exists. overrides names the system types that override
     * CreateEngineSettings.
     */
    method Startup(defaultSystems: seq<string>, overrides: set<string>, commandLine: string, results: seq<InitResult>)
      returns (ok: Option<bool>, delivered: seq<Delivery>, saved: bool)
      requires owner.Valid()
      modifies owner, engineSettings`items, set s | s in owner.systems
      ensures owner.Valid()
      ensures |owner.systems| >= |old(owner.systems)| && owner.systems[..|old(owner.systems)|] == old(owner.systems)
      ensures forall s :: s in owner.systems ==> s in old(owner.systems) || fresh(s)
      ensures forall n :: n in defaultSystems ==> exists k :: 0 <= k < |owner.systems| && owner.systems[k].name == n
      ensures SettingsSystemName !in NamesOf(owner.systems) ==> engineSettings.items == old(engineSettings.items)
      ensures SettingsSystemName in NamesOf(owner.systems) ==>
        Settings.NamesOf(engineSettings.items) == RegisteredNames(Settings.NamesOf(old(engineSettings.items)), [AppSettingsName] + Overriding(NamesOf(owner.systems), overrides))
      ensures |delivered| == |owner.systems|
      ensures forall i :: 0 <= i < |delivered| ==> delivered[i] == Delivery(owner.systems[i].name, Utils.Split(commandLine, ' '))
      ensures saved ==> ok == Some(true)
      ensures ok == Some(true) ==> (saved <==> SettingsSystemName in NamesOf(owner.systems))
      ensures ok == Some(true) ==> forall k :: 0 <= k < |owner.systems| ==> owner.systems[k].state != State.Uninitialized
    {
      delivered := PrepareSystems(defaultSystems, overrides, commandLine);
      ghost var systems, items := owner.systems, engineSettings.items;
      ghost var before := StatesOf(systems);
      ok := InitializeAllSystems(results);
      assert owner.systems == systems && engineSettings.items == items;
      saved := false;
      if ok != Some(true) {
        return;
      }
      InitAllSucceeded(before, results);
      var settings := owner.FindSystem(SettingsSystemName);
      saved := settings.Some?;
    }

    /**
     * RunEngine: the engine loop runs only after a successful start-up, and
     * Shutdown follows whether or not start-up succeeded. When the results
     * run out during initialisation, start-up has not returned, so neither
     * the loop nor Shutdown is reached. registered is the registry after
     * start-up, and Shutdown walks it from last to first. The frame loop
     * itself is not modelled.
     */
    method RunEngine(defaultSystems: seq<string>, overrides: set<string>, commandLine: string, results: seq<InitResult>)
      returns (started: Option<bool>, ranLoop: bool, registered: seq<string>, shutdownOrder: seq<string>)
      requires owner.Valid()
      modifies owner, engineSettings`items, set s | s in owner.systems
      ensures ranLoop <==> started == Some(true)
      ensures forall n :: n in defaultSystems ==> n in registered
      ensures |registered| >= |old(owner.systems)| &&
        forall k :: 0 <= k < |old(owner.systems)| ==> registered[k] == old(owner.systems)[k].name
      ensures started.Some? ==> owner.Valid() && owner.systems == [] && shutdownOrder == Reverse(registered)
      ensures started.None? ==> shutdownOrder == []
    {
      var delivered, saved;
      started, delivered, saved := Startup(defaultSystems, overrides, commandLine, results);
      registered := NamesOf(owner.systems);
      ranLoop := started == Some(true);
      shutdownOrder := [];
      if started.Some? {
        var ran;
        shutdownOrder, ran := ShutdownAllSystems();
        assert |shutdownOrder| == |Reverse(registered)|;
      }
    }
  }
}
