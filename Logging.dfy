/**
 * AXLogging: log levels, log entries, the listeners that receive them, the
 * level filter and crash-on-error settings, and Log_Internal, which builds
 * an entry and hands it to every listener in registration order. Listeners
 * are modelled as recorders of the entries they receive.
 */
module Logging {
  import opened Options

  /** LogLevel::E: Info = MinLogLevel = 0, Warning = 1, Error = 2. */
  datatype LogLevel = Info | Warning | Error

  /** MaxLogLevel, one past the last level. */
  const MaxLogLevel: nat := 3

  /** The uint8_t value of a level. */
  function Ordinal(l: LogLevel): (n: nat)
    ensures n < MaxLogLevel
  {
    match l
    case Info => 0
    case Warning => 1
    case Error => 2
  }

  /** Levels are ordered by their values. */
  lemma OrdinalInjective(a: LogLevel, b: LogLevel)
    ensures Ordinal(a) == Ordinal(b) <==> a == b
  {
  }

  /** LogLevel::ToString: the name of a level value; values from MaxLogLevel on index past the table. */
  function ToString(v: nat): (s: string)
    requires v < MaxLogLevel
    ensures s == "Info" || s == "Warning" || s == "Error"
  {
    ["Info", "Warning", "Error"][v]
  }

  /** Distinct levels have distinct names, and each name spells its level. */
  lemma ToStringNamesLevels(a: nat, b: nat)
    requires a < MaxLogLevel && b < MaxLogLevel
    ensures ToString(a) == ToString(b) <==> a == b
    ensures ToString(Ordinal(Info)) == "Info" && ToString(Ordinal(Warning)) == "Warning" && ToString(Ordinal(Error)) == "Error"
  {
  }

  /**
   * The drop-down the Settings constructor builds for the level filter: one
   * entry (i, ToString(i)) for each i from MinLogLevel up to MaxLogLevel.
   */
  method DropDownOptions() returns (options: seq<(nat, string)>)
    ensures |options| == MaxLogLevel
    ensures forall i :: 0 <= i < MaxLogLevel ==> options[i] == (i, ToString(i))
  {
    options := [];
    var i := 0;
    while i < MaxLogLevel
      invariant 0 <= i <= MaxLogLevel && |options| == i
      invariant forall j :: 0 <= j < i ==> options[j] == (j, ToString(j))
    {
      options := options + [(i, ToString(i))];
      i := i + 1;
    }
  }

  /** LogEntry: level, tag, message, file and line, as Log_Internal fills them. */
  datatype LogEntry = LogEntry(level: LogLevel, tag: string, message: string, file: string, line: int)

  /** AXLogging::Settings: mLogLevelFilter (a uint8_t) and mCrashOnError. */
  datatype LogSettings = LogSettings(levelFilter: nat, crashOnError: bool)

  /** The defaults: filter Info, crash-on-error off. */
  const DefaultLogSettings: LogSettings := LogSettings(Ordinal(Info), false)

  /** The names the Settings constructor registers its properties under, in order. */
  const LogPropertyNames: seq<string> := ["Log Level", "Crash On Error"]

  /** The filter test of Log_Internal: no settings, or a level at or above the filter. */
  predicate PassesFilter(settings: Option<LogSettings>, level: LogLevel)
  {
    settings.None? || Ordinal(level) >= settings.value.levelFilter
  }

  /** A level that passes the filter lets every higher level pass too. */
  lemma PassesFilterMonotone(settings: Option<LogSettings>, a: LogLevel, b: LogLevel)
    requires PassesFilter(settings, a) && Ordinal(a) <= Ordinal(b)
    ensures PassesFilter(settings, b)
  {
  }

  /** With the default settings every level passes, and Error passes whenever any level does. */
  lemma DefaultsPassEverything(level: LogLevel, settings: Option<LogSettings>)
    ensures PassesFilter(Some(DefaultLogSettings), level)
    ensures PassesFilter(settings, level) ==> PassesFilter(settings, Error)
  {
  }

  /** An AXILogListener that records each entry its Log receives. */
  class Recorder {
    var received: seq<LogEntry>

    constructor ()
      ensures received == []
    {
      received := [];
    }

    /** Log(entry) */
    method Log(entry: LogEntry)
      modifies this`received
      ensures received == old(received) + [entry]
    {
      received := received + [entry];
    }
  }

  /** The AXLogging system: mListeners and mSettings. */
  class Logging {
    var listeners: seq<Recorder>
    var settings: Option<LogSettings>

    /** Every listener was created by its own RegisterNewListener call, so none appears twice. */
    ghost predicate Valid()
      reads this
    {
      forall i, j :: 0 <= i < j < |listeners| ==> listeners[i] != listeners[j]
    }

    /** No listeners, and no settings until CreateEngineSettings registers them. */
    constructor ()
      ensures Valid() && listeners == [] && settings == None
    {
      listeners := [];
      settings := None;
    }

    /** CreateEngineSettings: mSettings points to the registered settings item. */
    method CreateEngineSettings(registered: LogSettings)
      modifies this`settings
      ensures settings == Some(registered)
    {
      settings := Some(registered);
    }

    /** RegisterNewListener<T>: a new listener is appended. */
    method RegisterNewListener() returns (listener: Recorder)
      requires Valid()
      modifies this`listeners
      ensures Valid() && fresh(listener) && listener.received == []
      ensures listeners == old(listeners) + [listener]
    {
      listener := new Recorder();
      listeners := listeners + [listener];
    }

    /** OnShutdown: every listener is deleted and the list cleared. */
    method OnShutdown()
      modifies this`listeners
      ensures Valid() && listeners == []
    {
      listeners := [];
    }
  }

  /** Whether Log_Internal hands the entry to the listeners. */
  predicate Dispatches(hasLogger: bool, numListeners: nat, settings: Option<LogSettings>, level: LogLevel)
  {
    hasLogger && numListeners > 0 && PassesFilter(settings, level)
  }

  /** Whether Log_Internal reaches assert(false) after dispatching. */
  predicate Crashes(hasLogger: bool, numListeners: nat, settings: Option<LogSettings>, level: LogLevel)
  {
    Dispatches(hasLogger, numListeners, settings, level) && settings.Some? && settings.value.crashOnError && level == Error
  }

  /** Crashing needs a dispatch, the Error level and the setting on; the defaults never crash. */
  lemma CrashOnlyAfterDispatch(hasLogger: bool, numListeners: nat, settings: Option<LogSettings>, level: LogLevel)
    ensures Crashes(hasLogger, numListeners, settings, level) ==> Dispatches(hasLogger, numListeners, settings, level) && level == Error
    ensures !Crashes(hasLogger, numListeners, Some(DefaultLogSettings), level)
    ensures !Crashes(hasLogger, numListeners, None, level)
  {
  }

  /**
   * Log_Internal with the message already formatted. When there is a logger
   * with listeners and the level passes the filter, the entry goes to every
   * listener, in registration order (notified), each receiving it once; then
   * crashed reports whether the crash-on-error assert fires.
   */
  method LogInternal(logger: Logging?, level: LogLevel, tag: string, file: string, line: int, message: string)
    returns (notified: seq<Recorder>, crashed: bool)
    requires logger != null ==> logger.Valid()
    modifies if logger != null then logger.listeners else []
    ensures var hasLogger := logger != null;
      var n := if hasLogger then |logger.listeners| else 0;
      var s := if hasLogger then logger.settings else None;
      && crashed == Crashes(hasLogger, n, s, level)
      && (Dispatches(hasLogger, n, s, level) ==> logger != null && notified == logger.listeners)
      && (!Dispatches(hasLogger, n, s, level) ==> notified == [])
    ensures forall i :: 0 <= i < |notified| ==>
      notified[i].received == old(notified[i].received) + [LogEntry(level, tag, message, file, line)]
    ensures logger != null && notified == [] ==>
      forall i :: 0 <= i < |logger.listeners| ==> logger.listeners[i].received == old(logger.listeners[i].received)
  {
    notified := [];
    crashed := false;
    if logger != null {
      if logger.listeners != [] {
        if logger.settings.None? || Ordinal(level) >= logger.settings.value.levelFilter {
          var entry := LogEntry(level, tag, message, file, line);
          notified := Dispatch(logger.listeners, entry);
          if logger.settings.Some? && logger.settings.value.crashOnError && level == Error {
            crashed := true;
          }
        }
      }
    }
  }

  /** The listener loop: each listener, in order, logs the entry once. */
  method Dispatch(listeners: seq<Recorder>, entry: LogEntry) returns (notified: seq<Recorder>)
    requires forall i, j :: 0 <= i < j < |listeners| ==> listeners[i] != listeners[j]
    modifies listeners
    ensures notified == listeners
    ensures forall i :: 0 <= i < |listeners| ==> listeners[i].received == old(listeners[i].received) + [entry]
  {
    notified := [];
    var i := 0;
    while i < |listeners|
      invariant 0 <= i <= |listeners| && notified == listeners[..i]
      invariant forall j :: 0 <= j < i ==> listeners[j].received == old(listeners[j].received) + [entry]
      invariant forall j :: i <= j < |listeners| ==> listeners[j].received == old(listeners[j].received)
    {
      listeners[i].Log(entry);
      notified := notified + [listeners[i]];
      i := i + 1;
    }
  }

  /** The static flag one AXLOGONCE, AXWARNONCE or AXERRORONCE expansion declares. */
  class OnceSite {
    var logged: bool

    constructor ()
      ensures !logged
    {
      logged := false;
    }
  }

  /** An *ONCE macro: logs through Log_Internal the first time this site runs, and never again. */
  method LogOnce(site: OnceSite, logger: Logging?, level: LogLevel, tag: string, file: string, line: int, message: string)
    returns (notified: seq<Recorder>, crashed: bool)
    requires logger != null ==> logger.Valid()
    modifies site, if logger != null then logger.listeners else []
    ensures site.logged
    ensures notified == [] || (logger != null && notified == logger.listeners)
    ensures !old(site.logged) ==>
      var hasLogger := logger != null;
      var n := if hasLogger then |logger.listeners| else 0;
      var s := if hasLogger then logger.settings else None;
      && crashed == Crashes(hasLogger, n, s, level)
      && (Dispatches(hasLogger, n, s, level) ==> logger != null && notified == logger.listeners)
      && (!Dispatches(hasLogger, n, s, level) ==> notified == [])
    ensures old(site.logged) ==> (notified == [] && !crashed)
    ensures old(site.logged) && logger != null ==>
      forall i :: 0 <= i < |logger.listeners| ==> logger.listeners[i].received == old(logger.listeners[i].received)
    ensures forall i :: 0 <= i < |notified| ==>
      notified[i].received == old(notified[i].received) + [LogEntry(level, tag, message, file, line)]
  {
    notified, crashed := [], false;
    if !site.logged {
      notified, crashed := LogInternal(logger, level, tag, file, line, message);
      site.logged := true;
    }
  }

  /** A second run of the same *ONCE site notifies nobody. */
  method LogOnceTwice(site: OnceSite, logger: Logging?, level: LogLevel, tag: string, file: string, line: int, message: string)
    returns (second: seq<Recorder>)
    requires logger != null ==> logger.Valid()
    modifies site, if logger != null then logger.listeners else []
    ensures second == []
  {
    var first, crashed := LogOnce(site, logger, level, tag, file, line, message);
    second, crashed := LogOnce(site, logger, level, tag, file, line, message);
  }
}
