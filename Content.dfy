/**
 * AXContent and its content managers and importers: managers are keyed by
 * name in a std::map, so they are held here as a sequence sorted by name,
 * the order in which the map iterates; each manager keys its importers by
 * the extension they support; an importer's Import runs a chain of guards.
 */
module Content {
  import opened Options
  import Files
  import Settings

  /** std::string's operator<: lexicographic order on characters. */
  predicate StrLess(a: string, b: string)
    decreases |a|
  {
    if a == [] then b != []
    else if b == [] then false
    else if a[0] == b[0] then StrLess(a[1..], b[1..])
    else a[0] < b[0]
  }

  lemma {:induction false} StrLessIrreflexive(a: string)
    ensures !StrLess(a, a)
    decreases |a|
  {
    if a != [] {
      StrLessIrreflexive(a[1..]);
    }
  }

  lemma {:induction false} StrLessTransitive(a: string, b: string, c: string)
    requires StrLess(a, b) && StrLess(b, c)
    ensures StrLess(a, c)
    decreases |a|
  {
    if a != [] && a[0] == b[0] && b[0] == c[0] {
      StrLessTransitive(a[1..], b[1..], c[1..]);
    }
  }

  lemma {:induction false} StrLessTotal(a: string, b: string)
    requires a != b
    ensures StrLess(a, b) || StrLess(b, a)
    decreases |a|
  {
    if a != [] && b != [] && a[0] == b[0] {
      assert a == [a[0]] + a[1..] && b == [b[0]] + b[1..];
      StrLessTotal(a[1..], b[1..]);
    }
  }

  /** AXContentImporterBase: the extension fixed at construction. */
  class Importer {
    const supportedExtention: string

    constructor (supportedExtention: string)
      ensures this.supportedExtention == supportedExtention
    {
      this.supportedExtention := supportedExtention;
    }
  }

  /** AXContentManagerBase: mName and mContentImporters. */
  class ContentManager {
    const name: string
    var importers: map<string, Importer>

    /** Every importer is registered under the extension it supports. */
    ghost predicate Valid()
      reads this, importers.Values
    {
      forall e :: e in importers ==> importers[e].supportedExtention == e
    }

    /** The base constructor: the name is fixed; no importers. */
    constructor (name: string)
      ensures Valid() && this.name == name && importers == map[]
    {
      this.name := name;
      importers := map[];
    }

    /**
     * IsExtentionSupported: an exact, case-sensitive match against the
     * importers' keys, so ext is supported exactly when one of the
     * importers was built for precisely that extension.
     */
    function IsExtentionSupported(ext: string): (r: bool)
      reads this, importers.Values
      ensures Valid() ==> (r <==> exists e :: e in importers && importers[e].supportedExtention == ext)
    {
      ext in importers
    }

    /**
     * RegisterContentImporter<TImporter>: an extension that already has an
     * importer logs an error and changes nothing; otherwise one new importer
     * is inserted under its extension.
     */
    method RegisterContentImporter(ext: string) returns (errorLogged: bool)
      requires Valid()
      modifies this`importers
      ensures Valid() && errorLogged == (ext in old(importers))
      ensures errorLogged ==> importers == old(importers)
      ensures !errorLogged ==> ext in importers && fresh(importers[ext]) && importers == old(importers)[ext := importers[ext]]
    {
      if ext in importers {
        return true;
      }
      var importer := new Importer(ext);
      importers := importers[ext := importer];
      errorLogged := false;
    }
  }

  /**
   * A derived manager's constructor: the base constructor with its name,
   * then one RegisterContentImporter per importer in exts, in order.
   */
  method NewContentManager(name: string, exts: seq<string>) returns (m: ContentManager)
    ensures fresh(m) && m.Valid() && m.name == name
    ensures m.importers.Keys == set e | e in exts
  {
    m := new ContentManager(name);
    var i := 0;
    while i < |exts|
      invariant 0 <= i <= |exts| && m.Valid()
      invariant m.importers.Keys == set e | e in exts[..i]
    {
      var errorLogged := m.RegisterContentImporter(exts[i]);
      assert exts[..i + 1] == exts[..i] + [exts[i]];
      i := i + 1;
    }
    assert exts[..i] == exts;
  }

  /** The managers are in strictly increasing name order. */
  ghost predicate SortedByName(ms: seq<ContentManager>)
  {
    forall i, j :: 0 <= i < j < |ms| ==> StrLess(ms[i].name, ms[j].name)
  }

  /** std::map::find on the managers: the manager registered under name, if any. */
  function FindByName(ms: seq<ContentManager>, name: string): (r: Option<ContentManager>)
    ensures r.Some? ==> r.value in ms && r.value.name == name
    ensures r.None? <==> forall i :: 0 <= i < |ms| ==> ms[i].name != name
  {
    if ms == [] then None
    else if ms[0].name == name then Some(ms[0])
    else FindByName(ms[1..], name)
  }

  /** A manager that is the only one with its name is the one found under that name. */
  lemma {:induction false} FindByNameOnly(ms: seq<ContentManager>, m: ContentManager)
    requires m in ms && forall i :: 0 <= i < |ms| && ms[i].name == m.name ==> ms[i] == m
    ensures FindByName(ms, m.name) == Some(m)
    decreases |ms|
  {
    if ms[0] != m {
      assert m in ms[1..];
      FindByNameOnly(ms[1..], m);
    }
  }

  /** Insertion into the map: m takes its place in name order. */
  function InsertByName(ms: seq<ContentManager>, m: ContentManager): (r: seq<ContentManager>)
    ensures |r| == |ms| + 1
    ensures multiset(r) == multiset(ms) + multiset{m}
  {
    if ms == [] || StrLess(m.name, ms[0].name) then [m] + ms
    else
      assert ms == [ms[0]] + ms[1..];
      [ms[0]] + InsertByName(ms[1..], m)
  }

  /** Insertion keeps the managers sorted by name. */
  lemma {:induction false} InsertByNameSorted(ms: seq<ContentManager>, m: ContentManager)
    requires SortedByName(ms) && FindByName(ms, m.name).None?
    ensures SortedByName(InsertByName(ms, m))
    decreases |ms|
  {
    var r := InsertByName(ms, m);
    if ms == [] {
    } else if StrLess(m.name, ms[0].name) {
      forall i, j | 0 <= i < j < |r| ensures StrLess(r[i].name, r[j].name) {
        if i == 0 && j > 1 {
          StrLessTransitive(m.name, ms[0].name, r[j].name);
        }
      }
    } else {
      StrLessTotal(m.name, ms[0].name);
      var rest := InsertByName(ms[1..], m);
      assert FindByName(ms[1..], m.name).None?;
      InsertByNameSorted(ms[1..], m);
      forall i, j | 0 <= i < j < |r| ensures StrLess(r[i].name, r[j].name) {
        if i == 0 {
          assert r[j] in multiset(rest);
        }
      }
    }
  }

  /** Each manager appears once: their names are all different. */
  lemma SortedNamesDistinct(ms: seq<ContentManager>, i: nat, j: nat)
    requires SortedByName(ms) && i < j < |ms|
    ensures ms[i].name != ms[j].name
  {
    StrLessIrreflexive(ms[i].name);
  }

  /** AXContent::Settings: mContentRootDirectory. */
  datatype ContentSettings = ContentSettings(contentRootDirectory: string)

  /** The default root directory is "Content". */
  const DefaultContentSettings: ContentSettings := ContentSettings("Content")

  /** The name of the textures manager, AXContentManager<AXTexture>::sContentManagerName. */
  const TexturesName: string := "Textures"

  /** The extension of the PNG importer, AXContentImporter<AXTexture>::sSupportedExtention. */
  const PngExtention: string := "PNG"

  /** The name of the settings item the textures manager registers. */
  const TexturesSettingsKind: string := "AXContentManager_Textures::Settings"

  /** The empty AXAssetHandleBase. */
  datatype AssetHandle = AssetHandle

  /**
   * How a call that reaches AXFile::GetExtention ends: with a value, or with
   * the std::out_of_range that GetExtention throws for a name without a period.
   */
  datatype Completion<T> = Returned(value: T) | OutOfRange

  /** The AXContent system: mContentManagers and mContentSettingsFile. */
  class Content {
    var managers: seq<ContentManager>
    const contentSettingsFile: Settings.SettingsFile

    ghost predicate Valid()
      reads this
    {
      SortedByName(managers)
    }

    /** No managers, and a settings file named "Content". */
    constructor ()
      ensures Valid() && managers == [] && fresh(contentSettingsFile)
      ensures contentSettingsFile.name == "Content" && contentSettingsFile.items == []
    {
      managers := [];
      contentSettingsFile := new Settings.SettingsFile("Content");
    }

    /** FindContentManagerByType(name), and FindContentManagerByType<T>() with T::Name(). */
    function FindContentManagerByType(name: string): (r: Option<ContentManager>)
      reads this
      ensures r.Some? ==> r.value in managers && r.value.name == name
      ensures r.None? <==> forall i :: 0 <= i < |managers| ==> managers[i].name != name
    {
      FindByName(managers, name)
    }

    /**
     * RegisterContentManager<T>: when no manager has T::Name(), a new T (a
     * manager named name whose constructor registers importers for exts) is
     * inserted, and its CreateSettings registers a settings item in the
     * content settings file when T overrides it, through RegisterNewItem as
     * written: an existing "Undefined" item is handed back and nothing is
     * added, else one item named name is appended; otherwise nothing changes.
     */
    method RegisterContentManager(name: string, exts: seq<string>, hasSettings: bool) returns (added: Option<ContentManager>)
      requires Valid()
      modifies this`managers, contentSettingsFile`items
      ensures Valid()
      ensures old(FindContentManagerByType(name)).Some? ==>
        added == None && managers == old(managers) && contentSettingsFile.items == old(contentSettingsFile.items)
      ensures old(FindContentManagerByType(name)).None? ==>
        && added.Some? && fresh(added.value) && added.value.Valid()
        && added.value.name == name && added.value.importers.Keys == (set e | e in exts)
        && managers == InsertByName(old(managers), added.value)
        && FindContentManagerByType(name) == added
      ensures !hasSettings ==> contentSettingsFile.items == old(contentSettingsFile.items)
      ensures old(FindContentManagerByType(name)).None? && hasSettings ==>
        var before := old(contentSettingsFile.items);
        var k := Settings.FirstNamed(Settings.NamesOf(before), Settings.DefaultItemName);
        && (k.Some? ==> contentSettingsFile.items == before)
        && (k.None? ==>
              && |contentSettingsFile.items| == |before| + 1 && contentSettingsFile.items[..|before|] == before
              && fresh(contentSettingsFile.items[|before|])
              && contentSettingsFile.items[|before|].kind == TexturesSettingsKind
              && contentSettingsFile.items[|before|].name == name)
    {
      if FindByName(managers, name).Some? {
        return None;
      }
      var m := NewContentManager(name, exts);
      InsertByNameSorted(managers, m);
      managers := InsertByName(managers, m);
      forall i | 0 <= i < |managers| && managers[i].name == name ensures managers[i] == m {
        assert managers[i] in multiset(old(managers)) + multiset{m};
      }
      assert m in multiset(managers);
      FindByNameOnly(managers, m);
      if hasSettings {
        var item := contentSettingsFile.RegisterNewItemAsWritten(TexturesSettingsKind, name);
      }
      added := Some(m);
    }

    /**
     * FindContentManagerByExtension: the managers in name order, the first
     * whose importers support ext; none when no manager does.
     */
    method FindContentManagerByExtension(ext: string) returns (r: Option<ContentManager>)
      requires Valid()
      ensures r.Some? ==> r.value in managers && r.value.IsExtentionSupported(ext)
      ensures r.Some? ==>
        exists i :: 0 <= i < |managers| && managers[i] == r.value && forall j :: 0 <= j < i ==> !managers[j].IsExtentionSupported(ext)
      ensures r.Some? ==> forall m :: m in managers && m.IsExtentionSupported(ext) && m != r.value ==>
        StrLess(r.value.name, m.name)
      ensures r.None? ==> forall i :: 0 <= i < |managers| ==> !managers[i].IsExtentionSupported(ext)
    {
      var i := 0;
      while i < |managers|
        invariant 0 <= i <= |managers|
        invariant forall j :: 0 <= j < i ==> !managers[j].IsExtentionSupported(ext)
      {
        if managers[i].IsExtentionSupported(ext) {
          r := Some(managers[i]);
          forall m | m in managers && m.IsExtentionSupported(ext) && m != r.value
            ensures StrLess(r.value.name, m.name)
          {
            var k :| 0 <= k < |managers| && managers[k] == m;
            assert k > i;
          }
          return;
        }
        i := i + 1;
      }
      r := None;
    }

    /**
     * RequestAssetLoad: looks up a manager by the name's extension and,
     * finding one or not, returns a default handle; found is that lookup. A
     * name without a period makes GetExtention throw before any lookup.
     */
    method RequestAssetLoad(name: string) returns (outcome: Completion<AssetHandle>, found: Option<ContentManager>)
      requires Valid() && |name| < Files.Npos
      ensures outcome.OutOfRange? <==> '.' !in name
      ensures outcome.OutOfRange? ==> found.None?
      ensures outcome.Returned? ==> outcome.value == AssetHandle
      ensures outcome.Returned? ==>
        (found.None? <==> forall i :: 0 <= i < |managers| ==> !managers[i].IsExtentionSupported(Files.GetExtention(name)))
      ensures found.Some? ==> found.value in managers && found.value.IsExtentionSupported(Files.GetExtention(name))
    {
      match Files.GetExtentionAsWritten(name)
      case None =>
        outcome, found := OutOfRange, None;
      case Some(ext) =>
        Files.GetExtentionAgrees(name);
        found := FindContentManagerByExtension(ext);
        outcome := Returned(AssetHandle);
    }

    /**
     * OnInitialize: registers the textures manager, with its PNG importer
     * and its settings item; it is found by name afterwards.
     */
    method OnInitialize()
      requires Valid()
      modifies this`managers, contentSettingsFile`items
      ensures Valid() && FindContentManagerByType(TexturesName).Some?
      ensures old(FindContentManagerByType(TexturesName)).Some? ==> managers == old(managers)
      ensures old(FindContentManagerByType(TexturesName)).None? ==>
        var m := FindContentManagerByType(TexturesName).value;
        fresh(m) && m.importers.Keys == {PngExtention} && managers == InsertByName(old(managers), m)
    {
      var added := RegisterContentManager(TexturesName, [PngExtention], true);
      assert (set e | e in [PngExtention]) == {PngExtention};
    }
  }

  /**
   * GetExtention as written returns the suffix from a period, period
   * included, and never "", so no key without a leading period is ever
   * looked up; that includes the empty key.
   */
  lemma ExtentionNeverMatchesBareKey(name: string, key: string)
    requires |name| < Files.Npos && (key == [] || key[0] != '.')
    ensures Files.GetExtentionAsWritten(name) != Some(key)
  {
    Files.GetExtentionAsWrittenNeverEmptyGuard(name);
    if '.' in name {
      Files.GetExtentionAgrees(name);
    }
  }

  /**
   * After OnInitialize registers only the textures manager, RequestAssetLoad
   * finds no manager for any name: a name with a period has an extension
   * that starts with the period, never "PNG", and a name without one throws.
   */
  method RequestAfterInitialize(name: string) returns (outcome: Completion<AssetHandle>, found: Option<ContentManager>)
    requires |name| < Files.Npos
    ensures found.None?
    ensures outcome.OutOfRange? <==> '.' !in name
  {
    var content := new Content();
    content.OnInitialize();
    var m := content.FindContentManagerByType(TexturesName).value;
    assert content.managers == [m] && m.importers.Keys == {PngExtention};
    if '.' in name {
      ExtentionNeverMatchesBareKey(name, PngExtention);
      Files.GetExtentionAgrees(name);
      assert !m.IsExtentionSupported(Files.GetExtention(name));
    }
    outcome, found := content.RequestAssetLoad(name);
  }

  /** An asset type instance ImportAsset produced, by identity. */
  type Asset = nat

  /**
   * The guard chain of AXContentImporter::Import: the path's extension must
   * be the supported one, the file must be open, the buffer it read must be
   * non-null and non-empty, and ImportAsset must produce an asset. A path
   * without a period throws in GetExtention before any guard.
   */
  function ImportChain(supported: string, path: string, isOpen: bool, bufferNull: bool, bufferSize: nat, imported: Option<Asset>): (r: Completion<Option<Asset>>)
    requires |path| < Files.Npos
    ensures r.OutOfRange? <==> '.' !in path
    ensures r.Returned? ==>
      (r.value.Some? <==> Files.GetExtention(path) == supported && isOpen && !bufferNull && bufferSize > 0 && imported.Some?)
    ensures r.Returned? && r.value.Some? ==> r.value == imported
  {
    match Files.GetExtentionAsWritten(path)
    case None => OutOfRange
    case Some(ext) =>
      Files.GetExtentionAgrees(path);
      if ext != supported then Returned(None)
      else if !isOpen then Returned(None)
      else if bufferSize <= 0 || bufferNull then Returned(None)
      else if imported.None? then Returned(None)
      else Returned(imported)
  }

  /**
   * Import as the source runs it: the local file is a base AXFile, whose
   * OpenFile does nothing and whose IsOpen is false, so a path that passes
   * the extension check fails at the open check of the chain; a path without a period
   * throws in GetExtention. imported is what the derived type's ImportAsset
   * would return.
   */
  method Import(importer: Importer, path: string, imported: Option<Asset>) returns (r: Completion<Option<Asset>>)
    requires |path| < Files.Npos
    ensures '.' !in path ==> r == OutOfRange
    ensures '.' in path ==> r == Returned(None)
  {
    var ext := Files.GetExtentionAsWritten(path);
    if ext.None? {
      return OutOfRange;
    }
    if ext.value != importer.supportedExtention {
      return Returned(None);
    }
    var file := new Files.File();
    var isOpen := file.OpenFile(path, Files.Read, Files.Binary);
    // The base ReadFileToInternalBuffer changes nothing, so reading before
    // the open check, which the chain makes first, gives the same result.
    var buf, n := file.ReadFileToInternalBuffer();
    r := ImportChain(importer.supportedExtention, path, file.IsOpen(), buf == null, n, imported);
  }

  /**
   * With the PNG importer, every Import of a path with a period fails at the
   * extension check, before any file is opened; a path without one throws.
   */
  lemma PngImportFailsOnExtention(path: string, isOpen: bool, bufferNull: bool, bufferSize: nat, imported: Option<Asset>)
    requires |path| < Files.Npos
    ensures '.' in path ==> Files.GetExtention(path) != PngExtention
    ensures '.' in path ==> ImportChain(PngExtention, path, isOpen, bufferNull, bufferSize, imported) == Returned(None)
    ensures '.' !in path ==> ImportChain(PngExtention, path, isOpen, bufferNull, bufferSize, imported) == OutOfRange
  {
    ExtentionNeverMatchesBareKey(path, PngExtention);
    if '.' in path {
      Files.GetExtentionAgrees(path);
    }
  }
}
