/** The concurrent execution of a workflow: activations as processes, the pool of template threads
    as a counting semaphore that also counts what has to be waited for. Every activation holds a
    slot from before its goroutine starts until it returns, also while it takes slots for others. */
module WorkflowScheduler {
  import opened WorkflowStep

  /** An activation under way: it publishes first, then starts its children one after the other. */
  datatype Process = Process(starting: bool, activation: Activation)
  {
    function Children(): seq<Activation> { activation.children }
    predicate Blocked() { !starting && activation.children != [] }
    predicate Ended() { !starting && activation.children == [] }
    function Published(): Process { this.(starting := false) }
    function Forked(): Process
      requires Children() != []
    {
      this.(activation := activation.(children := Children()[1..]))
    }
  }

  datatype Option<T> = None | Some(value: T)

  /** executeWorkflow: `inside` is the top-level step it runs itself, `tops` are those to come. */
  datatype State = State(
    free: nat, waiting: nat, flag: bool,
    inside: Option<Process>, tops: seq<Activation>, returned: bool,
    procs: seq<Process>)

  datatype Action =
    | MainAcquire | MainPublish | MainFork | MainRelease | MainReturn
    | Publish(i: nat) | Fork(i: nat) | Release(i: nat)

  function Begin(size: nat, tops: seq<Activation>): State {
    State(size, 0, false, None, tops, false, [])
  }

  predicate Enabled(s: State, a: Action) {
    match a
    case MainAcquire => s.inside.None? && s.tops != [] && s.free > 0
    case MainPublish => s.inside.Some? && s.inside.value.starting
    case MainFork => s.inside.Some? && s.inside.value.Blocked() && s.free > 0
    case MainRelease => s.inside.Some? && s.inside.value.Ended()
    case MainReturn => s.inside.None? && s.tops == [] && s.waiting == 0 && !s.returned
    case Publish(i) => i < |s.procs| && s.procs[i].starting
    case Fork(i) => i < |s.procs| && s.procs[i].Blocked() && s.free > 0
    case Release(i) => i < |s.procs| && s.procs[i].Ended()
  }

  /** Taking a slot and starting the goroutine that it is for. */
  function Taken(s: State): State
    requires s.free > 0
  {
    s.(free := s.free - 1, waiting := s.waiting + 1)
  }

  /** Giving a slot back, with a wait counter that never goes below zero. */
  function Given(s: State): State {
    s.(free := s.free + 1, waiting := if s.waiting == 0 then 0 else s.waiting - 1)
  }

  function Next(s: State, a: Action): State
    requires Enabled(s, a)
  {
    match a
    case MainAcquire => Taken(s).(inside := Some(Process(true, s.tops[0])), tops := s.tops[1..])
    case MainPublish => s.(flag := s.flag || s.inside.value.activation.publish, inside := Some(s.inside.value.Published()))
    case MainFork =>
      Taken(s).(inside := Some(s.inside.value.Forked()), procs := [Process(true, s.inside.value.Children()[0])] + s.procs)
    case MainRelease => Given(s).(inside := None)
    case MainReturn => s.(returned := true)
    case Publish(i) =>
      s.(flag := s.flag || s.procs[i].activation.publish, procs := s.procs[i := s.procs[i].Published()])
    case Fork(i) =>
      Taken(s).(procs := s.procs[..i] + [s.procs[i].Forked(), Process(true, s.procs[i].Children()[0])] + s.procs[i + 1..])
    case Release(i) => Given(s).(procs := s.procs[..i] + s.procs[i + 1..])
  }

  /** The schedule leads from s to s'. */
  predicate Leads(s: State, schedule: seq<Action>, s': State)
    decreases |schedule|
  {
    if schedule == [] then s == s'
    else Enabled(s, schedule[0]) && Leads(Next(s, schedule[0]), schedule[1..], s')
  }

  // ---- Sums over processes ----

  function Sum<T>(xs: seq<T>, f: T -> nat): nat {
    if xs == [] then 0 else f(xs[0]) + Sum(xs[1..], f)
  }

  lemma {:induction false} SumConcat<T>(xs: seq<T>, ys: seq<T>, f: T -> nat)
    ensures Sum(xs + ys, f) == Sum(xs, f) + Sum(ys, f)
  {
    if xs == [] {
      assert xs + ys == ys;
    } else {
      SumConcat(xs[1..], ys, f);
      assert (xs + ys)[1..] == xs[1..] + ys;
    }
  }

  lemma SumAround<T>(xs: seq<T>, i: nat, f: T -> nat)
    requires i < |xs|
    ensures Sum(xs, f) == Sum(xs[..i], f) + f(xs[i]) + Sum(xs[i + 1..], f)
  {
    assert xs == xs[..i] + xs[i..];
    SumConcat(xs[..i], xs[i..], f);
  }

  /** What replacing one process by others does to a sum. */
  lemma SumReplaced<T>(xs: seq<T>, i: nat, new_: seq<T>, f: T -> nat)
    requires i < |xs|
    ensures Sum(xs[..i] + new_ + xs[i + 1..], f) + f(xs[i]) == Sum(xs, f) + Sum(new_, f)
  {
    SumAround(xs, i, f);
    SumConcat(xs[..i], new_, f);
    SumConcat(xs[..i] + new_, xs[i + 1..], f);
  }

  lemma SumSmall<T>(x: T, y: T, f: T -> nat)
    ensures Sum([x], f) == f(x) && Sum([x, y], f) == f(x) + f(y)
  {
    assert [x][1..] == [] && [x, y][1..] == [y] && [y][1..] == [];
    assert Sum([y], f) == f(y) + Sum([y][1..], f);
    assert Sum([x], f) == f(x) + Sum([x][1..], f);
  }

  // ---- Every run is finite, and all finished runs are equally long ----

  /** The steps an activation takes once it has its slot, with everything it starts. */
  function Work(a: Activation): nat {
    2 + ForkWork(a.children)
  }

  function ForkWork(children: seq<Activation>): nat {
    if children == [] then 0 else 1 + Work(children[0]) + ForkWork(children[1..])
  }

  function ProcessWork(p: Process): nat {
    (if p.starting then 1 else 0) + ForkWork(p.Children()) + 1
  }

  /** The steps that are left. */
  function Remaining(s: State): nat {
    ForkWork(s.tops) + (if s.inside.Some? then ProcessWork(s.inside.value) else 0)
    + Sum(s.procs, ProcessWork) + (if s.returned then 0 else 1)
  }

  lemma ForkCosts(p: Process)
    requires p.Blocked()
    ensures ProcessWork(p) == 1 + ProcessWork(p.Forked()) + ProcessWork(Process(true, p.Children()[0]))
  {
    var c := p.Children();
    assert p.Forked().Children() == c[1..];
    assert Process(true, c[0]).Children() == c[0].children;
    assert ForkWork(c) == 1 + Work(c[0]) + ForkWork(c[1..]);
    assert Work(c[0]) == 2 + ForkWork(c[0].children);
  }

  lemma PublishStep(s: State, i: nat)
    requires Enabled(s, Publish(i))
    ensures Remaining(s) == Remaining(Next(s, Publish(i))) + 1
  {
    var p := s.procs[i];
    SumReplaced(s.procs, i, [p.Published()], ProcessWork);
    SumSmall(p.Published(), p, ProcessWork);
    assert s.procs[i := p.Published()] == s.procs[..i] + [p.Published()] + s.procs[i + 1..];
  }

  lemma ForkStep(s: State, i: nat)
    requires Enabled(s, Fork(i))
    ensures Remaining(s) == Remaining(Next(s, Fork(i))) + 1
  {
    var two := [s.procs[i].Forked(), Process(true, s.procs[i].Children()[0])];
    SumReplaced(s.procs, i, two, ProcessWork);
    SumSmall(two[0], two[1], ProcessWork);
    ForkCosts(s.procs[i]);
  }

  lemma ReleaseStep(s: State, i: nat)
    requires Enabled(s, Release(i))
    ensures Remaining(s) == Remaining(Next(s, Release(i))) + 1
  {
    SumReplaced(s.procs, i, [], ProcessWork);
    assert s.procs[..i] + [] + s.procs[i + 1..] == s.procs[..i] + s.procs[i + 1..];
  }

  lemma MainAcquireStep(s: State)
    requires Enabled(s, MainAcquire)
    ensures Remaining(s) == Remaining(Next(s, MainAcquire)) + 1
  {
    assert ForkWork(s.tops) == 1 + Work(s.tops[0]) + ForkWork(s.tops[1..]);
    assert ProcessWork(Process(true, s.tops[0])) == Work(s.tops[0]);
  }

  lemma MainForkStep(s: State)
    requires Enabled(s, MainFork)
    ensures Remaining(s) == Remaining(Next(s, MainFork)) + 1
  {
    var child := Process(true, s.inside.value.Children()[0]);
    SumConcat([child], s.procs, ProcessWork);
    SumSmall(child, child, ProcessWork);
    ForkCosts(s.inside.value);
  }

  lemma EachActionIsOneStep(s: State, a: Action)
    requires Enabled(s, a)
    ensures Remaining(s) == Remaining(Next(s, a)) + 1
  {
    match a {
      case Publish(i) => PublishStep(s, i);
      case Fork(i) => ForkStep(s, i);
      case Release(i) => ReleaseStep(s, i);
      case MainAcquire => MainAcquireStep(s);
      case MainFork => MainForkStep(s);
      case _ =>
    }
  }

  lemma {:induction false} ScheduleLength(s: State, schedule: seq<Action>, s': State)
    requires Leads(s, schedule, s')
    ensures Remaining(s) == Remaining(s') + |schedule|
    decreases |schedule|
  {
    if schedule != [] {
      EachActionIsOneStep(s, schedule[0]);
      ScheduleLength(Next(s, schedule[0]), schedule[1..], s');
    }
  }

  // ---- The slots and the wait counter ----

  /** Each live activation holds one slot and is counted once. */
  predicate Counted(size: nat, s: State) {
    && s.free + s.waiting == size
    && s.waiting == |s.procs| + (if s.inside.Some? then 1 else 0)
    && (s.returned ==> s.waiting == 0 && s.tops == [])
  }

  lemma CountedNext(size: nat, s: State, a: Action)
    requires Counted(size, s) && Enabled(s, a)
    ensures Counted(size, Next(s, a))
  {
    match a {
      case MainFork => assert |Next(s, a).procs| == |s.procs| + 1;
      case Fork(i) => assert |Next(s, a).procs| == |s.procs| + 1;
      case Release(i) => assert |Next(s, a).procs| == |s.procs| - 1;
      case _ =>
    }
  }

  lemma {:induction false} CountedAlways(size: nat, s: State, schedule: seq<Action>, s': State)
    requires Counted(size, s) && Leads(s, schedule, s')
    ensures Counted(size, s')
    decreases |schedule|
  {
    if schedule != [] {
      CountedNext(size, s, schedule[0]);
      CountedAlways(size, Next(s, schedule[0]), schedule[1..], s');
    }
  }

  /** The wait counter is the number of live activations, those taken out of the pool; once the
      workflow has returned none is left. */
  lemma WaitCounter(size: nat, tops: seq<Activation>, schedule: seq<Action>, s: State)
    requires Leads(Begin(size, tops), schedule, s)
    ensures s.waiting == |s.procs| + (if s.inside.Some? then 1 else 0) == size - s.free
    ensures s.returned ==> s.procs == [] && s.inside.None? && s.tops == []
  {
    CountedAlways(size, Begin(size, tops), schedule, s);
  }

  // ---- Confluence ----

  /** Something that is going to be published by an activation that is reached. */
  ghost predicate WillReport(p: Process) {
    (p.starting && p.activation.publish) || exists k | 0 <= k < |p.Children()| :: Reports(p.Children()[k])
  }

  ghost predicate AnyReports(tops: seq<Activation>) {
    exists i | 0 <= i < |tops| :: Reports(tops[i])
  }

  ghost predicate Pending(s: State) {
    || AnyReports(s.tops)
    || (s.inside.Some? && WillReport(s.inside.value))
    || exists i | 0 <= i < |s.procs| :: WillReport(s.procs[i])
  }

  ghost predicate Verdict(s: State) {
    s.flag || Pending(s)
  }

  lemma StartReports(a: Activation)
    ensures WillReport(Process(true, a)) <==> Reports(a)
  {
    var p := Process(true, a);
    assert p.Children() == a.children;
    if Reports(a) && !a.publish {
      var k :| 0 <= k < |a.children| && Reports(a.children[k]);
      assert Reports(p.Children()[k]);
    }
    if WillReport(p) && !a.publish {
      var k :| 0 <= k < |p.Children()| && Reports(p.Children()[k]);
      assert Reports(a.children[k]);
    }
  }

  lemma ForkSplits(p: Process)
    requires p.Blocked()
    ensures WillReport(p) <==> WillReport(p.Forked()) || WillReport(Process(true, p.Children()[0]))
  {
    var c := p.Children();
    var q := p.Forked();
    StartReports(c[0]);
    if WillReport(p) {
      var k :| 0 <= k < |c| && Reports(c[k]);
      assert k > 0 ==> q.Children()[k - 1] == c[k];
    }
    if WillReport(q) {
      var k :| 0 <= k < |q.Children()| && Reports(q.Children()[k]);
      assert c[k + 1] == q.Children()[k];
    }
  }

  ghost predicate AnyWillReport(procs: seq<Process>) {
    exists i | 0 <= i < |procs| :: WillReport(procs[i])
  }

  lemma AnyConcat(xs: seq<Process>, ys: seq<Process>)
    ensures AnyWillReport(xs + ys) <==> AnyWillReport(xs) || AnyWillReport(ys)
  {
    if AnyWillReport(xs) {
      var i :| 0 <= i < |xs| && WillReport(xs[i]);
      assert WillReport((xs + ys)[i]);
    }
    if AnyWillReport(ys) {
      var i :| 0 <= i < |ys| && WillReport(ys[i]);
      assert WillReport((xs + ys)[|xs| + i]);
    }
  }

  lemma AnyReplaced(xs: seq<Process>, i: nat, new_: seq<Process>)
    requires i < |xs|
    ensures AnyWillReport(xs) <==> AnyWillReport(xs[..i]) || WillReport(xs[i]) || AnyWillReport(xs[i + 1..])
    ensures AnyWillReport(xs[..i] + new_ + xs[i + 1..]) <==>
            AnyWillReport(xs[..i]) || AnyWillReport(new_) || AnyWillReport(xs[i + 1..])
  {
    AnyConcat(xs[..i], new_);
    AnyConcat(xs[..i] + new_, xs[i + 1..]);
    AnyConcat(xs[..i], [xs[i]]);
    AnyConcat(xs[..i] + [xs[i]], xs[i + 1..]);
    assert xs == xs[..i] + [xs[i]] + xs[i + 1..];
    assert AnyWillReport([xs[i]]) <==> WillReport([xs[i]][0]);
  }

  lemma VerdictIsKeptByProcess(s: State, a: Action)
    requires Enabled(s, a) && (a.Publish? || a.Fork? || a.Release?)
    ensures Verdict(Next(s, a)) == Verdict(s)
  {
    var p := s.procs[a.i];
    var new_ := match a
      case Publish(i) => [p.Published()]
      case Fork(i) => [p.Forked(), Process(true, p.Children()[0])]
      case _ => [];
    AnyReplaced(s.procs, a.i, new_);
    assert Next(s, a).procs == s.procs[..a.i] + new_ + s.procs[a.i + 1..];
    assert AnyWillReport(s.procs) == exists i | 0 <= i < |s.procs| :: WillReport(s.procs[i]);
    if a.Publish? {
      assert AnyWillReport(new_) <==> WillReport(new_[0]);
      assert p.Published().Children() == p.Children();
    } else if a.Fork? {
      ForkSplits(p);
      assert AnyWillReport(new_) <==> WillReport(new_[0]) || WillReport(new_[1]);
    }
  }

  lemma VerdictIsKeptByMain(s: State, a: Action)
    requires Enabled(s, a) && !(a.Publish? || a.Fork? || a.Release?)
    ensures Verdict(Next(s, a)) == Verdict(s)
  {
    var s' := Next(s, a);
    match a {
      case MainAcquire =>
        StartReports(s.tops[0]);
        assert forall i | 0 <= i < |s'.tops| :: s'.tops[i] == s.tops[i + 1];
        assert forall i | 0 < i < |s.tops| :: s.tops[i] == s'.tops[i - 1];
        assert AnyReports(s.tops) <==> Reports(s.tops[0]) || AnyReports(s'.tops);
      case MainPublish =>
        assert s.inside.value.Published().Children() == s.inside.value.Children();
      case MainFork =>
        ForkSplits(s.inside.value);
        var child := [Process(true, s.inside.value.Children()[0])];
        AnyConcat(child, s.procs);
        assert AnyWillReport(child) <==> WillReport(child[0]);
        assert AnyWillReport(s.procs) == exists i | 0 <= i < |s.procs| :: WillReport(s.procs[i]);
      case _ =>
    }
  }

  lemma {:induction false} VerdictIsKept(s: State, schedule: seq<Action>, s': State)
    requires Leads(s, schedule, s')
    ensures Verdict(s') == Verdict(s)
    decreases |schedule|
  {
    if schedule != [] {
      var a := schedule[0];
      if a.Publish? || a.Fork? || a.Release? { VerdictIsKeptByProcess(s, a); } else { VerdictIsKeptByMain(s, a); }
      VerdictIsKept(Next(s, a), schedule[1..], s');
    }
  }

  /** Whatever the interleaving, the workflow returns whether some reached activation publishes a
      match, after the same number of steps; and no run goes on for longer. */
  lemma Confluence(size: nat, tops: seq<Activation>, schedule: seq<Action>, s: State)
    requires Leads(Begin(size, tops), schedule, s)
    ensures s.returned ==> s.flag == AnyReports(tops)
    ensures s.returned ==> |schedule| == ForkWork(tops) + 1
    ensures |schedule| <= ForkWork(tops) + 1
    ensures s.flag ==> AnyReports(tops)
  {
    var begin := Begin(size, tops);
    VerdictIsKept(begin, schedule, s);
    ScheduleLength(begin, schedule, s);
    CountedAlways(size, begin, schedule, s);
    assert Verdict(begin) == AnyReports(tops);
  }

  ghost predicate ReachedLeaf(steps: seq<Step>, oracle: Oracle, i: nat, route: seq<nat>, end: Step) {
    i < |steps| && Reaches(steps[i], [i], oracle, route, end) && LeafMatches(end, oracle([i] + route))
  }

  lemma TopReports(steps: seq<Step>, oracle: Oracle, i: nat) returns (route: seq<nat>, end: Step)
    requires i < |steps| && Reports(UnfoldAll(steps, oracle)[i])
    ensures ReachedLeaf(steps, oracle, i, route, end)
  {
    route, end := ReachedIfReports(steps[i], [i], oracle);
  }

  lemma LeafReports(steps: seq<Step>, oracle: Oracle, i: nat, route: seq<nat>, end: Step)
    requires ReachedLeaf(steps, oracle, i, route, end)
    ensures AnyReports(UnfoldAll(steps, oracle))
  {
    ReportsIfReached(steps[i], [i], oracle, route, end);
    assert Reports(UnfoldAll(steps, oracle)[i]);
  }

  /** What a workflow returns, in terms of its steps: true exactly when some step without matchers
      and subtemplates is reached and one of its executers matches. */
  lemma WorkflowResult(size: nat, steps: seq<Step>, oracle: Oracle, tops: seq<Activation>, schedule: seq<Action>, s: State)
    requires tops == UnfoldAll(steps, oracle) && Leads(Begin(size, tops), schedule, s) && s.returned
    ensures s.flag <==> exists i: nat, route, end :: ReachedLeaf(steps, oracle, i, route, end)
  {
    Confluence(size, UnfoldAll(steps, oracle), schedule, s);
    if s.flag {
      var i: nat :| i < |steps| && Reports(UnfoldAll(steps, oracle)[i]);
      var route, end := TopReports(steps, oracle, i);
    }
    forall i: nat, route, end | ReachedLeaf(steps, oracle, i, route, end) ensures s.flag {
      LeafReports(steps, oracle, i, route, end);
    }
  }
}
