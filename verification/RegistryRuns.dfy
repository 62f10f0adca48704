/**
 Whole runs of the logger registry: whatever calls are made, in whatever order, the list with its
 counters behaves as a finite map from handles to loggers that never issues a handle twice.
 */
module RegistryRuns {
  import opened Machine
  import opened RegistryModel

  function Run(cs: seq<Command>): Registry {
    if cs == [] then EMPTY else Apply(Run(cs[..|cs| - 1]), cs[|cs| - 1])
  }

  function Answers(cs: seq<Command>): seq<int> {
    if cs == [] then [] else
    Answers(cs[..|cs| - 1]) + [Answer(Run(cs[..|cs| - 1]), cs[|cs| - 1])]
  }

  predicate Creates(c: Command) {
    c.Create? && c.granted
  }

  /** How many loggers have ever been created. */
  function Created(cs: seq<Command>): nat {
    if cs == [] then 0 else Created(cs[..|cs| - 1]) + if Creates(cs[|cs| - 1]) then 1 else 0
  }

  lemma {:induction false} RunInv(cs: seq<Command>)
    requires Created(cs) <= 0x7fff_ffff
    ensures Inv(Run(cs)) && Run(cs).nextHandle == Created(cs)
    decreases |cs|
  {
    if cs != [] {
      RunInv(cs[..|cs| - 1]);
      ApplyInv(Run(cs[..|cs| - 1]), cs[|cs| - 1]);
    }
  }

  // ---------- The map the callers believe in ----------

  datatype Directory = Directory(table: map<int, Logger>, next: int)

  /** The logger that `get_mlogger` promises. */
  function Fresh(t: LoggerType, s: Severity, time: LogTime, h: int): Logger {
    Logger(t, s, time, h, FileLeft(NoFile, t, None, false), 0, 0)
  }

  /** The logger that a setter promises, field by field. */
  function Updated(l: Logger, c: Change): Logger {
    Logger(
      if c.ToType? then TypeLeft(c.loggerType, c.path, c.opens) else l.loggerType,
      if c.ToSeverity? then c.severity else l.severity,
      if c.ToTime? then c.logTime else l.logTime,
      l.handle,
      if c.ToType? then FileLeft(l.logFile, c.loggerType, c.path, c.opens) else l.logFile,
      if c.ToCallback? then c.callback else l.callback,
      if c.ToCallback? then c.cbData else l.cbData)
  }

  lemma SettersKeepPromise(l: Logger, c: Change)
    ensures Changed(l, c) == Updated(l, c)
  {
  }

  lemma CreationKeepsPromise(t: LoggerType, s: Severity, time: LogTime, h: int)
    ensures NewLogger(t, s, time, h) == Fresh(t, s, time, h)
  {
  }

  function MapApply(d: Directory, c: Command): Directory {
    match c
    case Create(granted, t, s, time) =>
      if granted then Directory(d.table[d.next := Fresh(t, s, time, d.next)], d.next + 1) else d
    case Set(h, change) => if h in d.table then d.(table := d.table[h := Updated(d.table[h], change)]) else d
    case Shutdown(h) => d.(table := d.table - {h})
    case ShutdownAll => d.(table := map[])
  }

  function MapAnswer(d: Directory, c: Command): int {
    match c
    case Create(granted, _, _, _) => if granted then d.next else -1
    case Set(h, ToType(t, path, opens)) => if h in d.table && TypeAccepted(t, path, opens) then 1 else 0
    case Shutdown(h) => if h in d.table then 1 else 0
    case _ => 0
  }

  function MapRun(cs: seq<Command>): Directory {
    if cs == [] then Directory(map[], 0) else MapApply(MapRun(cs[..|cs| - 1]), cs[|cs| - 1])
  }

  function MapAnswers(cs: seq<Command>): seq<int> {
    if cs == [] then [] else
    MapAnswers(cs[..|cs| - 1]) + [MapAnswer(MapRun(cs[..|cs| - 1]), cs[|cs| - 1])]
  }

  /** The table that a list of loggers stands for: `find_mlogger` is lookup in it. */
  ghost predicate Represents(ls: seq<Logger>, table: map<int, Logger>) {
    && (forall h :: h in table <==> IndexOf(ls, h) >= 0)
    && (forall h :: h in table ==> table[h] == ls[IndexOf(ls, h)])
  }

  lemma IndexAfterAppend(ls: seq<Logger>, l: Logger, h: int)
    requires IndexOf(ls, l.handle) < 0
    ensures IndexOf(ls + [l], h) == if h == l.handle then |ls| else IndexOf(ls, h)
  {
    var k := if h == l.handle then |ls| else IndexOf(ls, h);
    IndexOfIs(ls + [l], h, k);
  }

  lemma IndexAfterUpdate(ls: seq<Logger>, k: nat, l: Logger, h: int)
    requires k < |ls| && l.handle == ls[k].handle
    ensures IndexOf(ls[k := l], h) == IndexOf(ls, h)
  {
    IndexOfIs(ls[k := l], h, IndexOf(ls, h));
  }

  lemma WithoutElements(ls: seq<Logger>, k: nat)
    requires k < |ls|
    ensures |Without(ls, k)| == |ls| - 1
    ensures forall j :: 0 <= j < |ls| - 1 ==> Without(ls, k)[j] == ls[if j < k then j else j + 1]
  {
  }

  lemma IndexAfterRemoval(r: Registry, k: nat, h: int)
    requires Inv(r) && k < |r.loggers|
    ensures IndexOf(Without(r.loggers, k), h) ==
            var i := IndexOf(r.loggers, h);
            if h == r.loggers[k].handle then -1 else if i > k then i - 1 else i
  {
    var ls, left := r.loggers, Without(r.loggers, k);
    var i := IndexOf(ls, h);
    hide IndexOf, Without;
    WithoutElements(ls, k);
    IndexOfIs(left, h, if h == ls[k].handle then -1 else if i > k then i - 1 else i);
  }

  lemma CreateRefines(r: Registry, d: Directory, l: Logger)
    requires Inv(r) && Represents(r.loggers, d.table) && l.handle == r.nextHandle
    ensures Represents(r.loggers + [l], d.table[l.handle := l])
  {
    IndexOfIs(r.loggers, l.handle, -1);
    hide IndexOf;
    forall h
      ensures IndexOf(r.loggers + [l], h) == if h == l.handle then |r.loggers| else IndexOf(r.loggers, h)
    {
      IndexAfterAppend(r.loggers, l, h);
    }
  }

  lemma SetRefines(ls: seq<Logger>, table: map<int, Logger>, k: nat, l: Logger)
    requires Represents(ls, table) && k < |ls| && l.handle == ls[k].handle && IndexOf(ls, l.handle) == k
    ensures Represents(ls[k := l], table[l.handle := l])
  {
    hide IndexOf;
    forall h
      ensures IndexOf(ls[k := l], h) == IndexOf(ls, h)
    {
      IndexAfterUpdate(ls, k, l, h);
    }
  }

  lemma ShutdownRefines(r: Registry, table: map<int, Logger>, k: nat)
    requires Inv(r) && Represents(r.loggers, table) && k < |r.loggers|
    ensures Represents(Without(r.loggers, k), table - {r.loggers[k].handle})
  {
    var ls, left, t := r.loggers, Without(r.loggers, k), table - {r.loggers[k].handle};
    WithoutElements(ls, k);
    hide IndexOf, Without, Inv;
    forall h
      ensures h in t <==> IndexOf(left, h) >= 0
      ensures h in t ==> t[h] == left[IndexOf(left, h)]
    {
      IndexAfterRemoval(r, k, h);
      if h in t {
        var i := IndexOf(ls, h);
        assert ls[i].handle == h && i != k;
        assert left[if i > k then i - 1 else i] == ls[i];
      }
    }
  }

  lemma ApplyRefines(r: Registry, d: Directory, c: Command)
    requires Inv(r) && Represents(r.loggers, d.table) && d.next == r.nextHandle
    ensures Represents(Apply(r, c).loggers, MapApply(d, c).table) && MapApply(d, c).next == Apply(r, c).nextHandle
    ensures Answer(r, c) == MapAnswer(d, c)
  {
    match c
    case Create(granted, t, s, time) =>
      if granted {
        var l := NewLogger(t, s, time, r.nextHandle);
        CreationKeepsPromise(t, s, time, r.nextHandle);
        CreateRefines(r, d, l);
      }
    case Set(h, change) =>
      var k := IndexOf(r.loggers, h);
      if k >= 0 {
        var l := r.loggers[k];
        SettersKeepPromise(l, change);
        SetRefines(r.loggers, d.table, k, Changed(l, change));
      }
      hide IndexOf, Changed, Updated, Represents;
    case Shutdown(h) =>
      var k := IndexOf(r.loggers, h);
      if k >= 0 {
        ShutdownRefines(r, d.table, k);
      } else {
        assert d.table - {h} == d.table;
      }
    case ShutdownAll =>
  }

  /** Over any run the answers, and every lookup by handle, are those of a finite map. */
  lemma {:induction false} RunRefinesMap(cs: seq<Command>)
    requires Created(cs) <= INT_MAX
    ensures Represents(Run(cs).loggers, MapRun(cs).table) && MapRun(cs).next == Run(cs).nextHandle
    ensures Answers(cs) == MapAnswers(cs)
    decreases |cs|
  {
    if cs != [] {
      var before := cs[..|cs| - 1];
      RunRefinesMap(before);
      RunInv(before);
      ApplyRefines(Run(before), MapRun(before), cs[|cs| - 1]);
    }
  }

  // ---------- Handles and counters ----------

  /** The handles given out, in order. */
  function Issued(cs: seq<Command>): seq<int> {
    if cs == [] then [] else
    Issued(cs[..|cs| - 1]) + if Creates(cs[|cs| - 1]) then [Answer(Run(cs[..|cs| - 1]), cs[|cs| - 1])] else []
  }

  /** The n-th logger ever created gets handle n, so no handle is issued twice, whatever is shut down. */
  lemma {:induction false} HandlesAreNeverReused(cs: seq<Command>)
    requires Created(cs) <= INT_MAX
    ensures |Issued(cs)| == Created(cs) && forall i :: 0 <= i < |Issued(cs)| ==> Issued(cs)[i] == i
    decreases |cs|
  {
    if cs != [] {
      HandlesAreNeverReused(cs[..|cs| - 1]);
      RunInv(cs[..|cs| - 1]);
    }
  }

  /** The counters can be trusted after any run, and live handles are in order of creation. */
  lemma CountersAgree(cs: seq<Command>)
    requires Created(cs) <= INT_MAX
    ensures var r := Run(cs);
            && r.nLoggers == |r.loggers|
            && (r.gHandle == -1 <==> r.loggers == [])
            && (r.gHandle == 0 <==> r.loggers != [])
            && (forall i, j :: 0 <= i < j < |r.loggers| ==> r.loggers[i].handle < r.loggers[j].handle)
            && (forall i :: 0 <= i < |r.loggers| ==> 0 <= r.loggers[i].handle < r.nextHandle)
  {
    RunInv(cs);
  }

  /** The first logger ever created has not been shut down. */
  predicate FirstSurvives(cs: seq<Command>) {
    if cs == [] then false else
    var before, c := cs[..|cs| - 1], cs[|cs| - 1];
    match c
    case Create(granted, _, _, _) => FirstSurvives(before) || (granted && Created(before) == 0)
    case Set(_, _) => FirstSurvives(before)
    case Shutdown(h) => FirstSurvives(before) && h != 0
    case ShutdownAll => false
  }

  lemma {:induction false} FirstSurvivesIsZeroLive(cs: seq<Command>)
    requires Created(cs) <= INT_MAX
    ensures FirstSurvives(cs) <==> 0 in MapRun(cs).table
    ensures MapRun(cs).next == Created(cs)
    decreases |cs|
  {
    if cs != [] {
      FirstSurvivesIsZeroLive(cs[..|cs| - 1]);
    }
  }

  /** The default handle names a live logger exactly while the first logger ever created is still there. */
  lemma DefaultIsLive(cs: seq<Command>)
    requires Created(cs) <= INT_MAX
    ensures IndexOf(Run(cs).loggers, Run(cs).gHandle) >= 0 <==> FirstSurvives(cs)
  {
    RunInv(cs);
    RunRefinesMap(cs);
    FirstSurvivesIsZeroLive(cs);
  }

  lemma RunOfThree(a: Command, b: Command, c: Command)
    ensures Run([a, b, c]) == Apply(Apply(Apply(EMPTY, a), b), c)
  {
    hide Apply;
    assert [a, b, c][..2] == [a, b] && [a, b][..1] == [a] && [a][..0] == [];
    assert Run([a]) == Apply(EMPTY, a);
    assert Run([a, b]) == Apply(Run([a]), b);
  }

  lemma ShutdownOfFirst(l: Logger, m: Logger)
    requires l.handle == 0 && m.handle == 1
    ensures Apply(Registry([l, m], 2, 2, 0), Shutdown(0)) == Registry([m], 2, 1, 0)
    ensures IndexOf([m], 0) < 0
  {
    IndexOfIs([l, m], 0, 0);
    IndexOfIs([m], 0, -1);
    hide IndexOf;
    assert Without([l, m], 0) == [m];
  }

  /** It can be set and name nobody: two loggers are made and the first one is shut down. */
  lemma DefaultCanBeDead(t: LoggerType, s: Severity, time: LogTime)
    ensures var r := Run([Create(true, t, s, time), Create(true, t, s, time), Shutdown(0)]);
            r.gHandle == 0 && |r.loggers| == 1 && IndexOf(r.loggers, r.gHandle) < 0
  {
    var c := Create(true, t, s, time);
    var l, m := NewLogger(t, s, time, 0), NewLogger(t, s, time, 1);
    assert l.handle == 0 && m.handle == 1;
    hide Run, NewLogger, IndexOf;
    assert Apply(Apply(EMPTY, c), c) == Registry([l, m], 2, 2, 0);
    RunOfThree(c, c, Shutdown(0));
    ShutdownOfFirst(l, m);
  }

  /**
   A change of type is refused, for a known logger, when a file is asked for and there is no path or it
   does not open; the logger is left with type NONE exactly when there was a path. The header promises
   NONE after every failure.
   */
  lemma RefusedType(r: Registry, h: int, t: LoggerType, path: Option<string>, opens: bool)
    requires IndexOf(r.loggers, h) >= 0
    ensures var call, k := Set(h, ToType(t, path, opens)), IndexOf(r.loggers, h);
            && (Answer(r, call) == 0 <==> t == TypeFile && (path == None || !opens))
            && (t == TypeFile && (path == None || !opens) ==>
                  (Apply(r, call).loggers[k].loggerType == TypeNone <==> path != None))
  {
  }

  /** Creating a file logger is such a refused change: it answers a handle, and leaves type FILE and no file. */
  lemma CreatedFileLoggerHasNoFile(r: Registry, s: Severity, time: LogTime)
    requires Inv(r) && r.nextHandle < INT_MAX
    ensures var c := Create(true, TypeFile, s, time);
            var after, h := Apply(r, c), Answer(r, c);
            var k := IndexOf(after.loggers, h);
            && k == |r.loggers| && after.loggers[k].loggerType == TypeFile && after.loggers[k].logFile == NoFile
            && var bare := WithBare(r, Logger(TypeFile, s, time, h, NoFile, NULL, NULL));
               Answer(bare, Set(h, ToType(TypeFile, None, false))) == 0
  {
    BareInv(r, Logger(TypeFile, s, time, r.nextHandle, NoFile, NULL, NULL));
    IndexOfIs(Apply(r, Create(true, TypeFile, s, time)).loggers, r.nextHandle, |r.loggers|);
  }
}
