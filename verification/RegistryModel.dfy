/**
 The state of mlog.c as a value: the loggers in list order and the three counters, changed exactly as
 the code changes them.
 */
module RegistryModel {
  import opened Machine

  datatype LoggerType = TypeNone | TypeStdout | TypeSyslog | TypeFile | TypeStderr
  datatype Severity = Trace | Debug | Info | Warning | Error | Critical
  datatype LogTime = NoTime | LocNoZone | LocWZone | Utc
  datatype LogFile = NoFile | Stdout | Stderr | Opened(path: string)

  datatype Logger = Logger(
    loggerType: LoggerType,
    severity: Severity,
    logTime: LogTime,
    handle: int,
    logFile: LogFile,
    callback: Pointer,
    cbData: Pointer)

  datatype Registry = Registry(loggers: seq<Logger>, nextHandle: int, nLoggers: u32, gHandle: int)

  const EMPTY := Registry([], 0, 0, -1)

  /** The place of the first logger with this handle, or -1. */
  function IndexOf(ls: seq<Logger>, h: int): (k: int)
    ensures -1 <= k < |ls|
    ensures k >= 0 ==> ls[k].handle == h
    ensures forall i :: 0 <= i < (if k < 0 then |ls| else k) ==> ls[i].handle != h
  {
    if ls == [] then -1
    else if ls[0].handle == h then 0
    else var k := IndexOf(ls[1..], h); if k < 0 then -1 else k + 1
  }

  lemma IndexOfIs(ls: seq<Logger>, h: int, k: int)
    requires -1 <= k < |ls| && (k >= 0 ==> ls[k].handle == h)
    requires forall i :: 0 <= i < (if k < 0 then |ls| else k) ==> ls[i].handle != h
    ensures IndexOf(ls, h) == k
  {
  }

  /** `path` is None for NULL; `opens` says whether `fopen` succeeds. */
  function WithType(l: Logger, t: LoggerType, path: Option<string>, opens: bool): Logger {
    match t
    case TypeFile =>
      if path == None then l.(loggerType := TypeFile)
      else if opens then l.(loggerType := TypeFile, logFile := Opened(path.value))
      else l.(loggerType := TypeNone, logFile := NoFile)
    case TypeStderr => l.(loggerType := t, logFile := Stderr)
    case _ => l.(loggerType := t, logFile := Stdout)
  }

  predicate TypeAccepted(t: LoggerType, path: Option<string>, opens: bool) {
    t == TypeFile ==> path != None && opens
  }

  // ---------- What a change of type leaves, field by field ----------

  /** The type: as asked for, except that a file that does not open leaves NONE. */
  function TypeLeft(t: LoggerType, path: Option<string>, opens: bool): LoggerType {
    if t == TypeFile && path.Some? && !opens then TypeNone else t
  }

  /** The stream: stderr for STDERR, the file for FILE, stdout for all others; a missing path changes nothing. */
  function FileLeft(before: LogFile, t: LoggerType, path: Option<string>, opens: bool): LogFile {
    if t != TypeFile then (if t == TypeStderr then Stderr else Stdout)
    else if path.None? then before
    else if opens then Opened(path.value)
    else NoFile
  }

  /** What one call does to the logger it names. */
  datatype Change =
    | ToTime(logTime: LogTime)
    | ToSeverity(severity: Severity)
    | ToType(loggerType: LoggerType, path: Option<string>, opens: bool)
    | ToCallback(callback: Pointer, cbData: Pointer)

  function Changed(l: Logger, c: Change): (m: Logger)
    ensures m.handle == l.handle
  {
    match c
    case ToTime(t) => l.(logTime := t)
    case ToSeverity(s) => l.(severity := s)
    case ToType(t, path, opens) => WithType(l, t, path, opens)
    case ToCallback(f, d) => l.(callback := f, cbData := d)
  }

  datatype Command =
    | Create(granted: bool, loggerType: LoggerType, severity: Severity, logTime: LogTime)
    | Set(handle: int, change: Change)
    | Shutdown(handle: int)
    | ShutdownAll

  function NewLogger(t: LoggerType, s: Severity, time: LogTime, h: int): Logger {
    WithType(Logger(t, s, time, h, NoFile, NULL, NULL), t, None, false)
  }

  function Without(ls: seq<Logger>, k: nat): seq<Logger>
    requires k < |ls|
  {
    ls[..k] + ls[k + 1..]
  }

  predicate Inv(r: Registry) {
    // Handles are issued in order and never reused.
    && (forall i, j :: 0 <= i < j < |r.loggers| ==> r.loggers[i].handle < r.loggers[j].handle)
    && (forall i :: 0 <= i < |r.loggers| ==> 0 <= r.loggers[i].handle < r.nextHandle)
    && 0 <= r.nextHandle <= INT_MAX
    // The counters agree with the list.
    && r.nLoggers == |r.loggers|
    && r.gHandle == if r.loggers == [] then -1 else 0
  }

  function Apply(r: Registry, c: Command): Registry {
    match c
    case Create(granted, t, s, time) =>
      if !granted then r
      else Registry(r.loggers + [NewLogger(t, s, time, r.nextHandle)], r.nextHandle + 1,
                    Wrap32(r.nLoggers + 1), if r.gHandle < 0 then 0 else r.gHandle)
    case Set(h, change) =>
      var k := IndexOf(r.loggers, h);
      if k < 0 then r else r.(loggers := r.loggers[k := Changed(r.loggers[k], change)])
    case Shutdown(h) =>
      var k := IndexOf(r.loggers, h);
      if k < 0 then r
      else
        var n := Wrap32(r.nLoggers - 1);
        r.(loggers := Without(r.loggers, k), nLoggers := n, gHandle := if n == 0 then -1 else r.gHandle)
    case ShutdownAll =>
      Registry([], r.nextHandle, 0, -1)
  }

  /** The value the call returns; calls that return nothing answer 0 here. */
  function Answer(r: Registry, c: Command): int {
    match c
    case Create(granted, _, _, _) => if granted then r.nextHandle else -1
    case Set(h, ToType(t, path, opens)) => if IndexOf(r.loggers, h) >= 0 && TypeAccepted(t, path, opens) then 1 else 0
    case Shutdown(h) => if IndexOf(r.loggers, h) >= 0 then 1 else 0
    case _ => 0
  }

  // ---------- The fields, one by one ----------

  /** A setter reaches the fields it is named for, in the logger it names, and nothing else. */
  lemma SetFields(r: Registry, h: int, c: Change)
    requires IndexOf(r.loggers, h) >= 0
    ensures var k, after := IndexOf(r.loggers, h), Apply(r, Set(h, c));
            var l, m := r.loggers[k], after.loggers[k];
            && |after.loggers| == |r.loggers|
            && (forall i :: 0 <= i < |r.loggers| && i != k ==> after.loggers[i] == r.loggers[i])
            && m.handle == h
            && m.severity == (if c.ToSeverity? then c.severity else l.severity)
            && m.logTime == (if c.ToTime? then c.logTime else l.logTime)
            && m.callback == (if c.ToCallback? then c.callback else l.callback)
            && m.cbData == (if c.ToCallback? then c.cbData else l.cbData)
            && (!c.ToType? ==> m.loggerType == l.loggerType && m.logFile == l.logFile)
            && after.nextHandle == r.nextHandle && after.nLoggers == r.nLoggers && after.gHandle == r.gHandle
  {
  }

  /** An accepted change of type sets the type and its stream; a refused one leaves what was there or closes it. */
  lemma SetTypeFields(r: Registry, h: int, t: LoggerType, path: Option<string>, opens: bool)
    requires IndexOf(r.loggers, h) >= 0
    ensures var k, call := IndexOf(r.loggers, h), Set(h, ToType(t, path, opens));
            var l, m := r.loggers[k], Apply(r, call).loggers[k];
            && (Answer(r, call) == 1 <==> t != TypeFile || (path.Some? && opens))
            && (Answer(r, call) == 0 <==> t == TypeFile && (path.None? || !opens))
            && (Answer(r, call) == 1 ==> m.loggerType == t)
            && (t == TypeStderr ==> m.logFile == Stderr)
            && (t == TypeNone || t == TypeStdout || t == TypeSyslog ==> m.logFile == Stdout)
            && (t == TypeFile && path.Some? && opens ==> m.logFile == Opened(path.value))
            && (t == TypeFile && path.Some? && !opens ==> m.loggerType == TypeNone && m.logFile == NoFile)
            && (t == TypeFile && path.None? ==> m.loggerType == TypeFile && m.logFile == l.logFile)
  {
  }

  /** A new logger holds what was asked for, the stream of its type, and no callback. */
  lemma CreateFields(r: Registry, t: LoggerType, s: Severity, time: LogTime)
    ensures var after := Apply(r, Create(true, t, s, time));
            && |after.loggers| == |r.loggers| + 1 && after.loggers[..|r.loggers|] == r.loggers
            && var m := after.loggers[|r.loggers|];
               && m.loggerType == t && m.severity == s && m.logTime == time && m.handle == r.nextHandle
               && m.callback == 0 && m.cbData == 0
               && m.logFile == if t == TypeFile then NoFile else if t == TypeStderr then Stderr else Stdout
    ensures Apply(r, Create(false, t, s, time)) == r && Answer(r, Create(false, t, s, time)) == -1
  {
  }

  /** A list of distinct handles below a bound is no longer than the bound. */
  lemma {:induction false} FewerThanHandles(ls: seq<Logger>, bound: int)
    requires forall i, j :: 0 <= i < j < |ls| ==> ls[i].handle < ls[j].handle
    requires forall i :: 0 <= i < |ls| ==> 0 <= ls[i].handle < bound
    ensures |ls| <= Max(bound, 0)
    decreases |ls|
  {
    if ls != [] {
      var n := |ls| - 1;
      FewerThanHandles(ls[..n], ls[n].handle);
    }
  }

  lemma WithoutOrdered(r: Registry, k: nat)
    requires Inv(r) && k < |r.loggers|
    ensures var left := Without(r.loggers, k);
            && (forall i, j :: 0 <= i < j < |left| ==> left[i].handle < left[j].handle)
            && (forall i :: 0 <= i < |left| ==> 0 <= left[i].handle < r.nextHandle)
  {
    var left := Without(r.loggers, k);
    assert forall i :: 0 <= i < |left| ==> left[i] == r.loggers[if i < k then i else i + 1];
  }

  /** The registry just after a new logger has been linked in, before its type is set. */
  function WithBare(r: Registry, l: Logger): Registry {
    Registry(r.loggers + [l], r.nextHandle + 1, Wrap32(r.nLoggers + 1), if r.gHandle < 0 then 0 else r.gHandle)
  }

  lemma CreateInv(r: Registry, l: Logger)
    requires Inv(r) && r.nextHandle < INT_MAX && l.handle == r.nextHandle
    ensures Inv(WithBare(r, l))
  {
    FewerThanHandles(r.loggers, r.nextHandle);
  }

  lemma SetInv(r: Registry, k: nat, l: Logger)
    requires Inv(r) && k < |r.loggers| && l.handle == r.loggers[k].handle
    ensures Inv(r.(loggers := r.loggers[k := l]))
  {
  }

  lemma ShutdownInv(r: Registry, k: nat)
    requires Inv(r) && k < |r.loggers|
    ensures var n := r.nLoggers - 1;
            n >= 0 && Inv(Registry(Without(r.loggers, k), r.nextHandle, n, if n == 0 then -1 else r.gHandle))
  {
    WithoutOrdered(r, k);
  }

  lemma ApplyInv(r: Registry, c: Command)
    requires Inv(r) && (c.Create? && c.granted ==> r.nextHandle < INT_MAX)
    ensures Inv(Apply(r, c)) && 0 <= Apply(r, c).nextHandle <= 0x7fff_ffff
  {
    match c
    case Create(granted, t, s, time) =>
      if granted {
        CreateInv(r, NewLogger(t, s, time, r.nextHandle));
        hide Inv, NewLogger;
      }
    case Set(h, change) =>
      var k := IndexOf(r.loggers, h);
      if k >= 0 {
        SetInv(r, k, Changed(r.loggers[k], change));
        hide Inv, Changed, IndexOf;
      }
    case Shutdown(h) =>
      var k := IndexOf(r.loggers, h);
      if k >= 0 {
        ShutdownInv(r, k);
        hide Inv, IndexOf;
      }
    case ShutdownAll =>
  }

  lemma ShutdownIs(r: Registry, h: int)
    requires Inv(r)
    ensures var k, after := IndexOf(r.loggers, h), Apply(r, Shutdown(h));
            if k < 0 then after == r
            else var n := r.nLoggers - 1;
                 n >= 0 && after == Registry(Without(r.loggers, k), r.nextHandle, n, if n == 0 then -1 else r.gHandle)
  {
  }

  lemma BareInv(r: Registry, l: Logger)
    requires Inv(r) && r.nextHandle < INT_MAX && l.handle == r.nextHandle
    ensures Inv(WithBare(r, l))
    ensures IndexOf(WithBare(r, l).loggers, l.handle) == |r.loggers|
  {
    CreateInv(r, l);
    IndexOfIs(r.loggers + [l], l.handle, |r.loggers|);
    hide IndexOf;
  }

  /** Creating a logger is linking it in and then setting its type, by handle, like anyone else. */
  lemma CreateInTwoSteps(r: Registry, t: LoggerType, s: Severity, time: LogTime)
    requires Inv(r) && r.nextHandle < INT_MAX
    ensures var bare := WithBare(r, Logger(t, s, time, r.nextHandle, NoFile, NULL, NULL));
            && Inv(bare)
            && Apply(bare, Set(r.nextHandle, ToType(t, None, false))) == Apply(r, Create(true, t, s, time))
  {
    var l := Logger(t, s, time, r.nextHandle, NoFile, NULL, NULL);
    BareInv(r, l);
    hide WithType, IndexOf, Inv;
    assert (r.loggers + [l])[|r.loggers| := NewLogger(t, s, time, r.nextHandle)] ==
           r.loggers + [NewLogger(t, s, time, r.nextHandle)];
  }
}
