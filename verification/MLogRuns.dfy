/** The registry object under any sequence of calls: the run theorems, carried over to the heap. */
module MLogRuns {
  import opened Machine
  import opened RegistryModel
  import opened RegistryRuns
  import MLog

  /** One call of the object is one step of the run; the nodes it leaves in the list are old ones or new. */
  method Perform(m: MLog.MLog, c: Command) returns (answer: int)
    requires m.Valid() && (Creates(c) ==> m.nextHandle < INT_MAX)
    modifies m, m.nodes
    ensures m.Valid() && m.View() == Apply(old(m.View()), c) && answer == Answer(old(m.View()), c)
    ensures forall k :: 0 <= k < |m.nodes| ==> m.nodes[k] in old(m.nodes) || fresh(m.nodes[k])
  {
    hide Inv, Apply, IndexOf, TypeAccepted, NewLogger, MLog.Payloads;
    answer := 0;
    match c
    case Create(granted, t, s, time) =>
      answer := m.GetLogger(granted, t, s, time);
    case Set(h, change) =>
      var accepted := m.SetLogger(h, change);
      if change.ToType? && accepted {
        answer := 1;
      }
    case Shutdown(h) =>
      var found := m.ShutdownLogger(h);
      if found {
        answer := 1;
      }
      assert forall k :: 0 <= k < |m.nodes| ==> m.nodes[k] in m.live;
    case ShutdownAll =>
      m.ShutdownAllLoggers();
  }

  lemma {:induction false} CreatedSoFar(cs: seq<Command>, n: nat)
    requires n <= |cs|
    ensures Created(cs[..n]) <= Created(cs)
    decreases |cs|
  {
    if n < |cs| {
      CreatedSoFar(cs[..|cs| - 1], n);
      assert cs[..|cs| - 1][..n] == cs[..n];
    } else {
      assert cs[..n] == cs;
    }
  }

  lemma OneCallMore(cs: seq<Command>, n: nat)
    requires n < |cs|
    ensures Run(cs[..n + 1]) == Apply(Run(cs[..n]), cs[n])
    ensures Answers(cs[..n + 1]) == Answers(cs[..n]) + [Answer(Run(cs[..n]), cs[n])]
    ensures Created(cs[..n + 1]) == Created(cs[..n]) + if Creates(cs[n]) then 1 else 0
  {
    assert cs[..n + 1][..n] == cs[..n];
    hide Apply, Answer;
  }

  /** Handles do not run out. */
  lemma HandlesSuffice(cs: seq<Command>, n: nat)
    requires n < |cs| && Created(cs) <= INT_MAX
    ensures Creates(cs[n]) ==> Run(cs[..n]).nextHandle < INT_MAX
  {
    hide Run, Created, Inv;
    OneCallMore(cs, n);
    CreatedSoFar(cs, n);
    CreatedSoFar(cs, n + 1);
    RunInv(cs[..n]);
  }

  /** A new registry object driven through any calls answers and looks up as a finite map would. */
  method Drive(cs: seq<Command>) returns (m: MLog.MLog, answers: seq<int>)
    requires Created(cs) <= 0x7fff_ffff
    ensures fresh(m) && m.Valid() && m.View() == Run(cs)
    ensures answers == MapAnswers(cs) && Represents(m.View().loggers, MapRun(cs).table)
  {
    m := new MLog.MLog();
    answers := [];
    var i := 0;
    while i < |cs|
      invariant 0 <= i <= |cs|
      invariant fresh(m) && m.Valid() && forall k :: 0 <= k < |m.nodes| ==> fresh(m.nodes[k])
      invariant m.View() == Run(cs[..i]) && answers == Answers(cs[..i])
    {
      OneCallMore(cs, i);
      HandlesSuffice(cs, i);
      hide Run, Answers, Created, Apply, Answer, Creates, MLog.MLog.Valid, MLog.Payloads;
      var answer := Perform(m, cs[i]);
      answers := answers + [answer];
      i := i + 1;
    }
    assert cs[..i] == cs;
    RunRefinesMap(cs);
  }
}
