/** mlog.c over the list macros: a registry object on the heap, proved against RegistryModel. */
module MLog {
  import opened Machine
  import LinkedList
  import opened RegistryModel

  type LogNode = LinkedList.Node<Logger>

  /** Which loggers the handle names; distinct handles leave at most one. */
  function Matches(ls: seq<Logger>, handle: int): (marks: seq<bool>)
    ensures |marks| == |ls| && forall i :: 0 <= i < |ls| ==> marks[i] == (ls[i].handle == handle)
  {
    seq(|ls|, i requires 0 <= i < |ls| => ls[i].handle == handle)
  }

  ghost function Payloads(ns: seq<LogNode>): (ls: seq<Logger>)
    reads ns`payload
    ensures |ls| == |ns| && forall i :: 0 <= i < |ns| ==> ls[i] == ns[i].payload
  {
    if ns == [] then [] else [ns[0].payload] + Payloads(ns[1..])
  }

  lemma PayloadsOfSlice(ns: seq<LogNode>, i: nat, j: nat)
    requires i <= j <= |ns|
    ensures Payloads(ns[i..j]) == Payloads(ns)[i..j]
  {
    hide Payloads;
    forall k | 0 <= k < j - i
      ensures Payloads(ns[i..j])[k] == Payloads(ns)[i..j][k]
    {
      assert ns[i..j][k] == ns[i + k];
    }
  }

  lemma PayloadsOfConcat(a: seq<LogNode>, b: seq<LogNode>)
    ensures Payloads(a + b) == Payloads(a) + Payloads(b)
  {
    hide Payloads;
  }

  lemma PayloadsUpdated(ns: seq<LogNode>, ls: seq<Logger>, k: nat)
    requires k < |ns| == |ls| && forall i :: 0 <= i < |ns| && i != k ==> ns[i].payload == ls[i]
    ensures Payloads(ns) == ls[k := ns[k].payload]
  {
    hide Payloads;
  }

  lemma PayloadsWithout(ns: seq<LogNode>, k: nat)
    requires k < |ns|
    ensures Payloads(ns[..k] + ns[k + 1..]) == RegistryModel.Without(Payloads(ns), k)
  {
    hide Payloads;
    PayloadsOfConcat(ns[..k], ns[k + 1..]);
    PayloadsOfSlice(ns, 0, k);
    PayloadsOfSlice(ns, k + 1, |ns|);
  }

  /** One setter's assignments to the fields of the logger it has found. */
  method ChangeLogger(logger: LogNode, change: Change) returns (accepted: bool)
    modifies logger`payload
    ensures logger.payload == Changed(old(logger.payload), change)
    ensures match change
            case ToTime(t) => logger.payload == old(logger.payload).(logTime := t)
            case ToSeverity(s) => logger.payload == old(logger.payload).(severity := s)
            case ToCallback(f, d) => logger.payload == old(logger.payload).(callback := f, cbData := d)
            case ToType(t, path, opens) =>
              logger.payload == old(logger.payload).(loggerType := TypeLeft(t, path, opens),
                                                     logFile := FileLeft(old(logger.payload.logFile), t, path, opens))
    ensures accepted <==> (change.ToType? ==> TypeAccepted(change.loggerType, change.path, change.opens))
  {
    accepted := true;
    match change {
      case ToTime(t) =>
        logger.payload := logger.payload.(logTime := t);
      case ToSeverity(s) =>
        logger.payload := logger.payload.(severity := s);
      case ToCallback(f, d) =>
        logger.payload := logger.payload.(callback := f);
        logger.payload := logger.payload.(cbData := d);
      case ToType(t, path, opens) =>
        logger.payload := logger.payload.(loggerType := t);
        if t == TypeFile {
          if path != None {
            logger.payload := logger.payload.(logFile := if opens then Opened(path.value) else NoFile);
            if !opens {
              logger.payload := logger.payload.(loggerType := TypeNone);
              return false;
            }
          } else {
            return false;
          }
        } else if t == TypeStderr {
          logger.payload := logger.payload.(logFile := Stderr);
        } else {
          logger.payload := logger.payload.(logFile := Stdout);
        }
    }
  }

  ghost function NodeSet(ns: seq<LogNode>): set<LogNode> {
    set n | n in ns
  }

  lemma NodeSetWithout(ns: seq<LogNode>, k: nat)
    requires k < |ns| && forall i, j :: 0 <= i < j < |ns| ==> ns[i] != ns[j]
    ensures NodeSet(ns[..k] + ns[k + 1..]) == NodeSet(ns) - {ns[k]}
  {
    var left := ns[..k] + ns[k + 1..];
    forall n | n in ns && n != ns[k]
      ensures n in left
    {
      var i :| 0 <= i < |ns| && ns[i] == n;
      assert n == left[if i < k then i else i - 1];
    }
  }

  /** As no two loggers share a handle, the macro takes out the one logger named, or nothing. */
  lemma HandleNamesOne<A>(xs: seq<A>, r: Registry, handle: int)
    requires Inv(r) && |xs| == |r.loggers|
    ensures var k, marks := IndexOf(r.loggers, handle), Matches(r.loggers, handle);
            && LinkedList.LastMark(marks) == k
            && LinkedList.Kept(xs, marks, LinkedList.AtNull) == if k < 0 then xs else xs[..k] + xs[k + 1..]
  {
    var k, marks := IndexOf(r.loggers, handle), Matches(r.loggers, handle);
    hide LinkedList.Kept, LinkedList.LastMark, IndexOf, Matches;
    if k >= 0 {
      LinkedList.RemovesTheMatch(xs, marks, k, LinkedList.AtNull);
    } else {
      LinkedList.RemovesNothing(xs, marks, LinkedList.AtNull);
    }
  }

  class MLog {
    var mloggers: LinkedList.Node?<Logger>
    var nextHandle: int
    var nLoggers: u32
    var gHandle: int

    // The list, and the nodes that have been allocated and not freed.
    ghost var nodes: seq<LogNode>
    ghost var live: set<LogNode>

    ghost function Loggers(): seq<Logger>
      reads this`nodes, nodes`payload
    {
      Payloads(nodes)
    }

    ghost function View(): Registry
      reads this, nodes`payload
    {
      Registry(Loggers(), nextHandle, nLoggers, gHandle)
    }

    /** The list is a list, no node is leaked, and none in the list has been freed. */
    ghost predicate ListOk()
      reads this`mloggers, this`nodes, this`live, nodes`next
    {
      LinkedList.IsList(mloggers, nodes) && live == NodeSet(nodes)
    }

    ghost predicate Valid()
      reads this, nodes
    {
      ListOk() && Inv(View())
    }

    constructor ()
      ensures Valid() && View() == EMPTY && nodes == []
    {
      mloggers, nextHandle, nLoggers, gHandle := null, 0, 0, -1;
      nodes, live := [], {};
    }

    /** `free`: the node must be one that is still allocated. */
    ghost method Free(n: LogNode)
      requires n in live
      modifies this`live
      ensures live == old(live) - {n}
    {
      live := live - {n};
    }

    method FindLogger(handle: int) returns (current: LinkedList.Node?<Logger>)
      requires Valid()
      ensures var k := IndexOf(View().loggers, handle);
              current == if k < 0 then null else nodes[k]
    {
      ghost var at;
      current, at := LinkedList.Find(mloggers, (l: Logger) => l.handle == handle, nodes);
      IndexOfIs(Loggers(), handle, at);
    }

    /** What a setter has to make of the logger it names. */
    lemma SetPlan(handle: int, change: Change)
      requires Valid()
      ensures var after, k := Apply(View(), Set(handle, change)), IndexOf(Loggers(), handle);
              && Inv(after)
              && if k < 0 then after == View()
                 else && after == View().(loggers := Loggers()[k := Changed(nodes[k].payload, change)])
                      && forall i :: 0 <= i < |nodes| && i != k ==> nodes[i] != nodes[k]
    {
      ApplyInv(View(), Set(handle, change));
      hide Inv, Changed;
    }

    method SetLogger(handle: int, change: Change) returns (accepted: bool)
      requires Valid()
      modifies nodes`payload
      ensures Valid()
      ensures View() == Apply(old(View()), Set(handle, change))
      ensures accepted <==> IndexOf(old(View()).loggers, handle) >= 0
                            && (change.ToType? ==> TypeAccepted(change.loggerType, change.path, change.opens))
    {
      hide Inv, Apply, IndexOf, ListOk, Changed, Payloads, TypeAccepted;
      SetPlan(handle, change);
      ghost var before, k := Loggers(), IndexOf(Loggers(), handle);
      var logger := FindLogger(handle);
      if logger == null {
        return false;
      }
      accepted := ChangeLogger(logger, change);
      PayloadsUpdated(nodes, before, k);
    }

    /** The list macro at work: the new node goes to the end. */
    method Enlist(newLogger: LogNode)
      requires ListOk() && newLogger !in nodes && newLogger.next == null
      modifies this`mloggers, this`nodes, this`live, nodes
      ensures ListOk() && nodes == old(nodes) + [newLogger]
      ensures Loggers() == old(Loggers()) + [newLogger.payload]
    {
      var current;
      mloggers, current := LinkedList.Add(mloggers, newLogger, nodes);
      nodes, live := nodes + [newLogger], live + {newLogger};
    }

    /** Everything a new logger needs except its type: numbered, counted, linked in, made the default. */
    method LinkNew(t: LoggerType, s: Severity, time: LogTime) returns (handle: int)
      requires ListOk() && Inv(View()) && nextHandle < INT_MAX
      modifies this, nodes
      ensures ListOk() && handle == old(nextHandle)
      ensures View() == WithBare(old(View()), Logger(t, s, time, handle, NoFile, NULL, NULL))
      ensures |nodes| == |old(nodes)| + 1 && nodes[..|old(nodes)|] == old(nodes) && fresh(nodes[|old(nodes)|])
    {
      hide Inv, LinkedList.IsList, NodeSet, Payloads;
      handle := nextHandle;
      var newLogger := new LinkedList.Node(Logger(t, s, time, handle, NoFile, NULL, NULL));
      nextHandle := nextHandle + 1;
      nLoggers := Wrap32(nLoggers + 1);
      Enlist(newLogger);
      if gHandle < 0 {
        gHandle := 0;
      }
    }

    /** What follows a successful allocation: link the logger in, then set its type by handle. */
    method CreateLogger(t: LoggerType, s: Severity, time: LogTime) returns (handle: int)
      requires Valid() && nextHandle < INT_MAX
      modifies this, nodes
      ensures Valid() && handle == old(nextHandle)
      ensures View() == Apply(old(View()), Create(true, t, s, time))
      ensures |nodes| == |old(nodes)| + 1 && nodes[..|old(nodes)|] == old(nodes) && fresh(nodes[|old(nodes)|])
    {
      hide Inv, Apply, IndexOf, WithType, WithBare, ListOk, Payloads, NodeSet;
      CreateInTwoSteps(View(), t, s, time);
      handle := LinkNew(t, s, time);
      var accepted := SetLogger(handle, ToType(t, None, false));
    }

    /** `granted` says whether `malloc` succeeds. */
    method GetLogger(granted: bool, t: LoggerType, s: Severity, time: LogTime) returns (handle: int)
      requires Valid() && (granted ==> nextHandle < INT_MAX)
      modifies this, nodes
      ensures Valid()
      ensures View() == Apply(old(View()), Create(granted, t, s, time))
      ensures handle == Answer(old(View()), Create(granted, t, s, time))
      ensures granted ==> |nodes| == |old(nodes)| + 1 && nodes[..|old(nodes)|] == old(nodes)
                          && fresh(nodes[|old(nodes)|])
      ensures !granted ==> nodes == old(nodes)
    {
      hide Inv, IndexOf, NewLogger, ListOk, Payloads, NodeSet;
      if !granted {
        return -1;
      }
      handle := CreateLogger(t, s, time);
    }

    /** The list macro at work: the logger named by the handle is unlinked and handed back to be freed. */
    method Delist(handle: int) returns (freenode: LinkedList.Node?<Logger>)
      requires Valid()
      modifies this`mloggers, this`nodes, nodes`next
      ensures LinkedList.IsList(mloggers, nodes)
      ensures var k := IndexOf(old(Loggers()), handle);
              if k < 0 then freenode == null && nodes == old(nodes)
              else freenode == old(nodes)[k] && nodes == old(nodes)[..k] + old(nodes)[k + 1..]
    {
      hide Inv, IndexOf, Payloads, LinkedList.Kept, LinkedList.LastMark, Matches, LinkedList.IsList;
      ghost var marks := Matches(Loggers(), handle);
      HandleNamesOne(nodes, View(), handle);
      mloggers, freenode := LinkedList.Remove(mloggers, null, null, (l: Logger) => l.handle == handle, nodes, marks);
      nodes := LinkedList.Kept(nodes, marks, LinkedList.AtNull);
    }

    /** What has to be true of the list, the nodes and the counters once the logger is gone. */
    lemma ShutdownPlan(handle: int)
      requires Valid()
      ensures var after, k := Apply(View(), Shutdown(handle)), IndexOf(Loggers(), handle);
              && Inv(after)
              && if k < 0 then after == View()
                 else var left, n := nodes[..k] + nodes[k + 1..], nLoggers - 1;
                      && n >= 0 && nodes[k] in live && live - {nodes[k]} == NodeSet(left)
                      && after == Registry(Payloads(left), nextHandle, n, if n == 0 then -1 else gHandle)
    {
      var k := IndexOf(Loggers(), handle);
      ApplyInv(View(), Shutdown(handle));
      ShutdownIs(View(), handle);
      if k >= 0 {
        PayloadsWithout(nodes, k);
        NodeSetWithout(nodes, k);
      }
      hide Inv, Apply, IndexOf, Payloads;
    }

    method ShutdownLogger(handle: int) returns (found: bool)
      requires Valid()
      modifies this, nodes`next
      ensures Valid()
      ensures View() == Apply(old(View()), Shutdown(handle))
      ensures found <==> IndexOf(old(View()).loggers, handle) >= 0
      ensures live <= old(live)
    {
      hide Inv, IndexOf, Apply, LinkedList.IsList, Payloads, NodeSet;
      ShutdownPlan(handle);
      var freenode := Delist(handle);
      if freenode == null {
        return false;
      }
      Free(freenode);
      nLoggers := Wrap32(nLoggers - 1);
      if nLoggers == 0 {
        gHandle := -1;
      }
      found := true;
    }

    /** The loop over the list: every node is read before it is freed, and each is freed once. */
    method FreeNodes()
      requires ListOk() && nLoggers == |nodes|
      modifies this`live, this`nLoggers
      ensures live == {} && nLoggers == 0
    {
      var current, previous := mloggers, mloggers;
      ghost var k := 0;
      while current != null
        invariant 0 <= k <= |nodes|
        invariant current == previous == if k < |nodes| then nodes[k] else null
        invariant live == set i | k <= i < |nodes| :: nodes[i]
        invariant nLoggers == |nodes| - k
        decreases |nodes| - k
      {
        assert current in live;
        current := current.next;
        Free(previous);
        nLoggers := Wrap32(nLoggers - 1);
        previous := current;
        k := k + 1;
      }
    }

    /** After the loop the assertion on the count holds; handles go on from where they were. */
    method ShutdownAllLoggers()
      requires Valid()
      modifies this
      ensures Valid()
      ensures View() == Apply(old(View()), ShutdownAll)
      ensures live == {} && mloggers == null
    {
      FreeNodes();
      assert nLoggers == 0;
      gHandle := -1;
      mloggers := null;
      nodes := [];
    }
  }
}
