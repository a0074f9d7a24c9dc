/**
 * AXSettingsFile: a named list of settings items in registration order,
 * with RegisterNewItem as the only way to add one; the engine settings
 * item of AXSettings; and AXSettings::BuildPathToConfigFile.
 */
module Settings {
  import opened Options

  /** The name every SettingsItem is created with, before RegisterNewItem renames it. */
  const DefaultItemName: string := "Undefined"

  /** The name of a settings file that was not given one. */
  const DefaultFileName: string := "Settings"

  /** The name AXSettings gives its engine settings file. */
  const EngineFileName: string := "Engine"

  /** The first index whose name is n, if any. */
  function FirstNamed(names: seq<string>, n: string): (r: Option<nat>)
    ensures r.Some? ==> (r.value < |names| && names[r.value] == n && forall j :: 0 <= j < r.value ==> names[j] != n)
    ensures r.None? <==> n !in names
  {
    if names == [] then None
    else if names[0] == n then Some(0)
    else match FirstNamed(names[1..], n)
      case None => None
      case Some(k) => Some(k + 1)
  }

  /** An AXSettingsFile::SettingsItem of the item type kind (the T of RegisterNewItem<T>). */
  class SettingsItem {
    const kind: string
    const name: string

    /** A new item carries the default name. */
    constructor (kind: string)
      ensures this.kind == kind && name == DefaultItemName
    {
      this.kind := kind;
      name := DefaultItemName;
    }

    /**
     * An item as RegisterNewItem hands it out: created, then renamed by
     * AXSettingsFile, the only class that may set mName, before anyone else
     * sees it.
     */
    constructor Named(kind: string, name: string)
      ensures this.kind == kind && this.name == name
    {
      this.kind := kind;
      this.name := name;
    }
  }

  /** The names of the items, in order. */
  ghost function NamesOf(items: seq<SettingsItem>): (names: seq<string>)
    ensures |names| == |items| && forall i :: 0 <= i < |items| ==> names[i] == items[i].name
  {
    seq(|items|, i requires 0 <= i < |items| => items[i].name)
  }

  /** AXSettingsFile: mName and mSettingsItems. */
  class SettingsFile {
    const name: string
    var items: seq<SettingsItem>

    constructor (name: string)
      ensures this.name == name && items == []
    {
      this.name := name;
      items := [];
    }

    /** GetItems: the items in registration order. */
    function GetItems(): (r: seq<SettingsItem>)
      reads this
      ensures r == items
    {
      items
    }

    /** The loop of RegisterNewItem: the first item whose name is target. */
    method FindItemNamed(target: string) returns (k: Option<nat>)
      ensures k == FirstNamed(NamesOf(items), target)
    {
      var i := 0;
      while i < |items|
        invariant 0 <= i <= |items|
        invariant forall j :: 0 <= j < i ==> items[j].name != target
      {
        if items[i].name == target {
          k := Some(i);
          assert FirstNamed(NamesOf(items), target) == Some(i) by {
            FirstNamedFound(NamesOf(items), target, i);
          }
          return;
        }
        i := i + 1;
      }
      k := None;
    }

    /**
     * RegisterNewItem<T>(name) as written: the existing items are compared
     * with the name of a default-constructed T, which is always "Undefined".
     * An item named "Undefined" is returned unchanged; otherwise a new T
     * named name is appended, even when an item of that name exists.
     */
    method RegisterNewItemAsWritten(kind: string, name: string) returns (item: SettingsItem)
      modifies this`items
      ensures var k := FirstNamed(NamesOf(old(items)), DefaultItemName);
        && (k.Some? ==> item == old(items)[k.value] && items == old(items))
        && (k.None? ==> fresh(item) && item.kind == kind && item.name == name && items == old(items) + [item])
    {
      var newItem := new SettingsItem(kind);
      var k := FindItemNamed(newItem.name);
      if k.Some? {
        return items[k.value];
      }
      item := new SettingsItem.Named(kind, name);
      items := items + [item];
    }

    /**
     * RegisterNewItem<T>(name) as its documentation describes it: registering
     * a name a second time returns the original item.
     */
    method RegisterNewItem(kind: string, name: string) returns (item: SettingsItem)
      modifies this`items
      ensures var k := FirstNamed(NamesOf(old(items)), name);
        && (k.Some? ==> item == old(items)[k.value] && items == old(items))
        && (k.None? ==> fresh(item) && item.kind == kind && item.name == name && items == old(items) + [item])
      ensures item.name == name && item in items
    {
      var k := FindItemNamed(name);
      if k.Some? {
        return items[k.value];
      }
      item := new SettingsItem.Named(kind, name);
      items := items + [item];
    }
  }

  /** FirstNamed finds the first match. */
  lemma {:induction false} FirstNamedFound(names: seq<string>, n: string, i: nat)
    requires i < |names| && names[i] == n && forall j :: 0 <= j < i ==> names[j] != n
    ensures FirstNamed(names, n) == Some(i)
    decreases i
  {
    if i > 0 {
      FirstNamedFound(names[1..], n, i - 1);
    }
  }

  /**
   * As written, registering the same name twice in a file with no item named
   * "Undefined" appends two distinct items of that name.
   */
  method RegisterTwiceAsWritten(file: SettingsFile, kind: string, name: string) returns (first: SettingsItem, second: SettingsItem)
    requires DefaultItemName !in NamesOf(file.items) && name != DefaultItemName
    modifies file`items
    ensures first != second && first.name == name && second.name == name
    ensures file.items == old(file.items) + [first, second]
  {
    first := file.RegisterNewItemAsWritten(kind, name);
    assert NamesOf(file.items) == NamesOf(old(file.items)) + [name];
    second := file.RegisterNewItemAsWritten(kind, name);
  }

  /** With the intended comparison, registering a name twice returns the original item. */
  method RegisterTwice(file: SettingsFile, kind: string, name: string) returns (first: SettingsItem, second: SettingsItem)
    modifies file`items
    ensures first == second && first.name == name
    ensures |file.items| <= |old(file.items)| + 1
  {
    first := file.RegisterNewItem(kind, name);
    second := file.RegisterNewItem(kind, name);
    assert FirstNamed(NamesOf(file.items), name).Some?;
  }

  /** AXSettings::Settings: the configuration directory and extension properties. */
  datatype ConfigSettings = ConfigSettings(configDirectory: string, configExtention: string)

  /** The defaults, "Config" and "cfg". */
  const DefaultConfig: ConfigSettings := ConfigSettings("Config", "cfg")

  /** The names its constructor registers its properties under, in order. */
  const ConfigPropertyNames: seq<string> := ["Config Directory", "Config Extention"]

  /** The content root when no content system exists. */
  const NoContentRoot: string := "."

  /**
   * BuildPathToConfigFile: root "/" configDir "/" filename "." ext when the
   * settings system exists, with root the content system's root directory
   * or "." without one; without the settings system, just the root.
   */
  function BuildPathToConfigFile(contentRoot: Option<string>, settings: Option<ConfigSettings>, filename: string): (path: string)
    ensures var root := if contentRoot.Some? then contentRoot.value else NoContentRoot;
      && (settings.None? ==> path == root)
      && (settings.Some? ==>
            var dir := settings.value.configDirectory;
            var ext := settings.value.configExtention;
            && |path| == |root| + |dir| + |filename| + |ext| + 3
            && path[..|root| + 1] == root + "/"
            && path[|root| + 1..|root| + 1 + |dir|] == dir
            && path[|root| + 1 + |dir|] == '/'
            && path[|root| + |dir| + 2..|root| + |dir| + 2 + |filename|] == filename
            && path[|path| - |ext| - 1..] == "." + ext)
  {
    var root := if contentRoot.Some? then contentRoot.value else NoContentRoot;
    if settings.Some? then
      root + "/" + settings.value.configDirectory + "/" + filename + "." + settings.value.configExtention
    else root
  }

  /** With the settings system, different filenames give different paths. */
  lemma ConfigPathInjective(contentRoot: Option<string>, settings: ConfigSettings, f: string, g: string)
    requires BuildPathToConfigFile(contentRoot, Some(settings), f) == BuildPathToConfigFile(contentRoot, Some(settings), g)
    ensures f == g
  {
    var root := if contentRoot.Some? then contentRoot.value else NoContentRoot;
    var p := BuildPathToConfigFile(contentRoot, Some(settings), f);
    assert |f| == |g|;
    var lo := |root| + |settings.configDirectory| + 2;
    assert f == p[lo..lo + |f|] == g;
  }

  /** Without the settings system the filename is ignored. */
  lemma NoSettingsIgnoresFilename(contentRoot: Option<string>, f: string, g: string)
    ensures BuildPathToConfigFile(contentRoot, None, f) == BuildPathToConfigFile(contentRoot, None, g)
  {
  }
}
