/** Exactly which pool sizes let a workflow get stuck: parents keep their slot while they wait for
    one for a child, so enough of them at once can hold the whole pool. */
module WorkflowDeadlock {
  import opened WorkflowStep
  import opened WorkflowScheduler

  /** Nothing can happen any more, and the workflow has not returned. */
  ghost predicate Stuck(s: State) {
    !s.returned && forall a: Action :: !Enabled(s, a)
  }

  // ---- How many activations can wait for a slot at once ----

  /** At most this many of an activation and those below it can wait for a slot at the same time. */
  function Load(a: Activation): nat {
    ForkLoad(a.children)
  }

  /** The same for an activation that holds its slot and still has these children to start: it
      waits itself in front of the last of them at the latest, or it has started them all. */
  function ForkLoad(children: seq<Activation>): nat {
    if children == [] then 0
    else if |children| == 1 then Max(1, Load(children[0]))
    else Load(children[0]) + ForkLoad(children[1..])
  }

  /** The same for a whole workflow, whose top-level steps run one after the other. */
  function TopLoad(tops: seq<Activation>): nat
    decreases tops, 0
  {
    if tops == [] then 0 else StepLoad(tops[0].children, tops[1..])
  }

  function StepLoad(children: seq<Activation>, tops: seq<Activation>): nat
    decreases tops, 1, children
  {
    if children == [] then TopLoad(tops)
    else if |children| == 1 then Max(1, Load(children[0]) + TopLoad(tops))
    else Load(children[0]) + StepLoad(children[1..], tops)
  }

  function Max(a: nat, b: nat): nat { if a >= b then a else b }

  function ProcessLoad(p: Process): nat { ForkLoad(p.Children()) }

  /** The activations that may still come to wait for a slot. */
  function Potential(s: State): nat {
    Sum(s.procs, ProcessLoad) + if s.inside.Some? then StepLoad(s.inside.value.Children(), s.tops) else TopLoad(s.tops)
  }

  lemma ForkLowersLoad(p: Process)
    requires p.Blocked()
    ensures ProcessLoad(p) >= ProcessLoad(p.Forked()) + ProcessLoad(Process(true, p.Children()[0]))
  {
    var c := p.Children();
    assert p.Forked().Children() == c[1..];
    assert Process(true, c[0]).Children() == c[0].children;
    assert Load(c[0]) == ForkLoad(c[0].children);
  }

  lemma PotentialFallsForProcess(s: State, a: Action)
    requires Enabled(s, a) && (a.Publish? || a.Fork? || a.Release?)
    ensures Potential(Next(s, a)) <= Potential(s)
  {
    match a {
      case Publish(i) =>
        var p := s.procs[i].Published();
        SumReplaced(s.procs, i, [p], ProcessLoad);
        SumSmall(p, p, ProcessLoad);
        assert p.Children() == s.procs[i].Children();
        assert s.procs[i := p] == s.procs[..i] + [p] + s.procs[i + 1..];
      case Fork(i) =>
        var p, q := s.procs[i].Forked(), Process(true, s.procs[i].Children()[0]);
        SumReplaced(s.procs, i, [p, q], ProcessLoad);
        SumSmall(p, q, ProcessLoad);
        ForkLowersLoad(s.procs[i]);
      case Release(i) =>
        SumReplaced(s.procs, i, [], ProcessLoad);
        assert s.procs[..i] + [] + s.procs[i + 1..] == s.procs[..i] + s.procs[i + 1..];
    }
  }

  lemma PotentialFallsForMain(s: State, a: Action)
    requires Enabled(s, a) && !(a.Publish? || a.Fork? || a.Release?)
    ensures Potential(Next(s, a)) <= Potential(s)
  {
    match a {
      case MainFork =>
        var c := s.inside.value.Children();
        var child := Process(true, c[0]);
        SumConcat([child], s.procs, ProcessLoad);
        SumSmall(child, child, ProcessLoad);
        assert child.Children() == c[0].children && Load(c[0]) == ForkLoad(c[0].children);
        assert s.inside.value.Forked().Children() == c[1..];
      case MainPublish =>
        assert s.inside.value.Published().Children() == s.inside.value.Children();
      case MainAcquire =>
        assert Process(true, s.tops[0]).Children() == s.tops[0].children;
      case _ =>
    }
  }

  lemma {:induction false} PotentialFalls(s: State, schedule: seq<Action>, s': State)
    requires Leads(s, schedule, s')
    ensures Potential(s') <= Potential(s)
    decreases |schedule|
  {
    if schedule != [] {
      var a := schedule[0];
      if a.Publish? || a.Fork? || a.Release? { PotentialFallsForProcess(s, a); } else { PotentialFallsForMain(s, a); }
      PotentialFalls(Next(s, a), schedule[1..], s');
    }
  }

  lemma {:induction false} BlockedLoad(procs: seq<Process>)
    requires forall i | 0 <= i < |procs| :: procs[i].Blocked()
    ensures Sum(procs, ProcessLoad) >= |procs|
  {
    if procs != [] {
      WaitingLoad(procs[0].Children());
      BlockedLoad(procs[1..]);
    }
  }

  lemma {:induction false} WaitingLoad(children: seq<Activation>)
    requires children != []
    ensures ForkLoad(children) >= 1
    decreases |children|
  {
    if |children| > 1 { WaitingLoad(children[1..]); }
  }

  lemma {:induction false} WaitingStepLoad(children: seq<Activation>, tops: seq<Activation>)
    requires children != []
    ensures StepLoad(children, tops) >= 1
    decreases |children|
  {
    if |children| > 1 { WaitingStepLoad(children[1..], tops); }
  }

  /** All slots are held by activations that wait for another one. */
  ghost predicate AllWait(s: State) {
    && !s.returned && s.free == 0 && s.waiting > 0
    && (forall i | 0 <= i < |s.procs| :: s.procs[i].Blocked())
    && (s.inside.Some? ==> s.inside.value.Blocked())
  }

  lemma StuckMeansAllWait(size: nat, s: State)
    requires size >= 1 && Counted(size, s)
    ensures Stuck(s) <==> AllWait(s)
  {
    if AllWait(s) {
      forall a: Action ensures !Enabled(s, a) {
        if a.Publish? || a.Fork? || a.Release? { assert a.i < |s.procs| ==> s.procs[a.i].Blocked(); }
      }
    }
    if Stuck(s) {
      forall i: nat | i < |s.procs| ensures s.procs[i].Blocked() {
        assert !Enabled(s, Publish(i)) && !Enabled(s, Release(i));
      }
      assert !Enabled(s, Fork(0));
      assert !Enabled(s, MainAcquire) && !Enabled(s, MainPublish) && !Enabled(s, MainFork)
          && !Enabled(s, MainRelease) && !Enabled(s, MainReturn);
      if s.procs != [] { assert s.procs[0].Blocked(); }
    }
  }

  lemma StuckNeedsLoad(size: nat, tops: seq<Activation>, schedule: seq<Action>, s: State)
    requires size >= 1 && Leads(Begin(size, tops), schedule, s) && Stuck(s)
    ensures size <= TopLoad(tops)
  {
    CountedAlways(size, Begin(size, tops), schedule, s);
    StuckMeansAllWait(size, s);
    PotentialFalls(Begin(size, tops), schedule, s);
    BlockedLoad(s.procs);
    if s.inside.Some? { WaitingStepLoad(s.inside.value.Children(), s.tops); }
  }

  // ---- Reaching a state in which that many wait ----

  ghost predicate CanReach(s: State, s': State) {
    exists schedule :: Leads(s, schedule, s')
  }

  lemma {:induction false} Compose(s: State, first: seq<Action>, mid: State, second: seq<Action>, s': State)
    requires Leads(s, first, mid) && Leads(mid, second, s')
    ensures Leads(s, first + second, s')
    decreases |first|
  {
    if first == [] {
      assert first + second == second;
    } else {
      Compose(Next(s, first[0]), first[1..], mid, second, s');
      assert (first + second)[1..] == first[1..] + second;
    }
  }

  lemma Then(s: State, mid: State, s': State)
    requires CanReach(s, mid) && CanReach(mid, s')
    ensures CanReach(s, s')
  {
    var first :| Leads(s, first, mid);
    var second :| Leads(mid, second, s');
    Compose(s, first, mid, second, s');
  }

  lemma Do(s: State, a: Action)
    requires Enabled(s, a)
    ensures CanReach(s, Next(s, a))
  {
    assert [a][1..] == [];
    assert Leads(s, [a], Next(s, a));
  }

  lemma Stay(s: State)
    ensures CanReach(s, s)
  {
    assert Leads(s, [], s);
  }

  /** A state that differs in its processes, its pool and its flag only. */
  function With(s: State, procs: seq<Process>, free: nat, waiting: nat, flag: bool): State {
    s.(procs := procs, free := free, waiting := waiting, flag := flag)
  }

  ghost predicate AllBlocked(procs: seq<Process>) {
    forall i | 0 <= i < |procs| :: procs[i].Blocked()
  }

  /** The process in the middle of `pre + [p] + post` makes its next step. */
  lemma DoInside(s: State, pre: seq<Process>, p: Process, post: seq<Process>) returns (flag: bool)
    requires s.procs == pre + [p] + post && p.starting
    ensures CanReach(s, With(s, pre + [p.Published()] + post, s.free, s.waiting, flag))
  {
    Do(s, Publish(|pre|));
    flag := s.flag || p.activation.publish;
    assert s.procs[|pre| := p.Published()] == pre + [p.Published()] + post;
  }

  lemma DoFork(s: State, pre: seq<Process>, p: Process, post: seq<Process>)
    requires s.procs == pre + [p] + post && p.Blocked() && s.free > 0
    ensures CanReach(s, With(s, pre + [p.Forked(), Process(true, p.Children()[0])] + post, s.free - 1, s.waiting + 1, s.flag))
  {
    Do(s, Fork(|pre|));
    assert s.procs[..|pre|] == pre && s.procs[|pre| + 1..] == post;
  }

  lemma DoRelease(s: State, pre: seq<Process>, p: Process, post: seq<Process>)
    requires s.procs == pre + [p] + post && p.Ended() && s.waiting > 0
    ensures CanReach(s, With(s, pre + post, s.free + 1, s.waiting - 1, s.flag))
  {
    Do(s, Release(|pre|));
    assert s.procs[..|pre|] == pre && s.procs[|pre| + 1..] == post;
  }

  /** A process forks, and the child publishes. */
  lemma ForkAndPublish(s: State, pre: seq<Process>, p: Process, post: seq<Process>) returns (flag: bool)
    requires s.procs == pre + [p] + post && p.Blocked() && s.free > 0
    ensures var run := Process(true, p.Children()[0]).Published();
            CanReach(s, With(s, (pre + [p.Forked()]) + [run] + post, s.free - 1, s.waiting + 1, flag))
  {
    var q, child := p.Forked(), Process(true, p.Children()[0]);
    DoFork(s, pre, p, post);
    var s1 := With(s, pre + [q, child] + post, s.free - 1, s.waiting + 1, s.flag);
    assert s1.procs == (pre + [q]) + [child] + post;
    flag := DoInside(s1, pre + [q], child, post);
    Then(s, s1, With(s1, (pre + [q]) + [child.Published()] + post, s1.free, s1.waiting, flag));
  }

  /** A single process, with the slots that are free, can be driven to where it and those it
      started hold as many slots as can be, up to all there are, each waiting for one more. */
  lemma {:induction false} Drive(s: State, pre: seq<Process>, p: Process, post: seq<Process>)
    returns (parked: seq<Process>, flag: bool)
    requires s.procs == pre + [p] + post && !p.starting && s.waiting > 0
    ensures AllBlocked(parked) && |parked| == Min(s.free + 1, ProcessLoad(p))
    ensures |parked| <= s.waiting + s.free
    ensures CanReach(s, With(s, pre + parked + post, s.free + 1 - |parked|, s.waiting + |parked| - 1, flag))
    decreases ForkWork(p.Children())
  {
    var c := p.Children();
    flag := s.flag;
    if c == [] {
      DoRelease(s, pre, p, post);
      parked := [];
      assert pre + [] + post == pre + post;
    } else if s.free == 0 || (|c| == 1 && Load(c[0]) == 0) {
      WaitingLoad(c);
      parked := [p];
      Stay(s);
    } else {
      parked, flag := DriveFork(s, pre, p, post);
    }
  }

  lemma {:induction false} DriveFork(s: State, pre: seq<Process>, p: Process, post: seq<Process>)
    returns (parked: seq<Process>, flag: bool)
    requires s.procs == pre + [p] + post && p.Blocked() && s.waiting > 0
    requires s.free > 0 && (|p.Children()| == 1 ==> Load(p.Children()[0]) > 0)
    ensures AllBlocked(parked) && |parked| == Min(s.free + 1, ProcessLoad(p))
    ensures CanReach(s, With(s, pre + parked + post, s.free + 1 - |parked|, s.waiting + |parked| - 1, flag))
    decreases ForkWork(p.Children()), 0
  {
    var c := p.Children();
    var q, run := p.Forked(), Process(true, c[0]).Published();
    ForkCosts(p);
    assert ProcessLoad(run) == Load(c[0]) && ProcessLoad(q) == ForkLoad(c[1..]);
    flag := ForkAndPublish(s, pre, p, post);
    var s2 := With(s, (pre + [q]) + [run] + post, s.free - 1, s.waiting + 1, flag);
    if |c| == 1 {
      assert s2.procs == pre + [q] + ([run] + post);
      DoRelease(s2, pre, q, [run] + post);
      var s3 := With(s2, pre + [run] + post, s.free, s.waiting, flag);
      assert pre + ([run] + post) == pre + [run] + post;
      Then(s, s2, s3);
      parked, flag := Drive(s3, pre, run, post);
      Then(s, s3, With(s3, pre + parked + post, s3.free + 1 - |parked|, s3.waiting + |parked| - 1, flag));
    } else {
      var below, rest;
      below, flag := Drive(s2, pre + [q], run, post);
      var s3 := With(s2, pre + [q] + below + post, s2.free + 1 - |below|, s2.waiting + |below| - 1, flag);
      Then(s, s2, s3);
      assert s3.procs == pre + [q] + (below + post);
      rest, flag := Drive(s3, pre, q, below + post);
      parked := rest + below;
      WaitingLoad(c[1..]);
      assert pre + rest + (below + post) == pre + parked + post;
      Then(s, s3, With(s3, pre + parked + post, s3.free + 1 - |rest|, s3.waiting + |rest| - 1, flag));
    }
  }

  function Min(a: nat, b: nat): nat { if a <= b then a else b }

  // ---- Driving the whole workflow ----

  lemma Waiting(s: State)
    requires AllWait(s)
    ensures CanReachStuck(s)
  {
    Stay(s);
  }

  ghost predicate CanReachStuck(s: State) {
    exists s' :: CanReach(s, s') && AllWait(s')
  }

  lemma ThenStuck(s: State, mid: State)
    requires CanReach(s, mid) && CanReachStuck(mid)
    ensures CanReachStuck(s)
  {
    var s' :| CanReach(mid, s') && AllWait(s');
    Then(s, mid, s');
  }

  /** Between two top-level steps: with no more slots left than the remaining steps can hold. */
  lemma {:induction false} DriveTops(s: State)
    requires s.inside.None? && !s.returned && AllBlocked(s.procs)
    requires s.free + s.waiting >= 1 && s.free <= TopLoad(s.tops)
    ensures CanReachStuck(s)
    decreases ForkWork(s.tops), 0
  {
    if s.free == 0 {
      Waiting(s);
    } else {
      var top := s.tops[0];
      Do(s, MainAcquire);
      var s1 := Next(s, MainAcquire);
      Do(s1, MainPublish);
      var s2 := Next(s1, MainPublish);
      Then(s, s1, s2);
      assert s2.inside.value.Children() == top.children;
      assert ForkWork(s.tops) == 1 + Work(top) + ForkWork(s.tops[1..]);
      DriveStep(s2);
      ThenStuck(s, s2);
    }
  }

  /** Inside a top-level step, which holds a slot. */
  lemma {:induction false} DriveStep(s: State)
    requires s.inside.Some? && !s.inside.value.starting && !s.returned && AllBlocked(s.procs) && s.waiting >= 1
    requires s.free + 1 <= StepLoad(s.inside.value.Children(), s.tops)
    ensures CanReachStuck(s)
    decreases ForkWork(s.inside.value.Children()) + ForkWork(s.tops), 2
  {
    var p := s.inside.value;
    var c := p.Children();
    if c == [] {
      Do(s, MainRelease);
      DriveTops(Next(s, MainRelease));
      ThenStuck(s, Next(s, MainRelease));
    } else if s.free == 0 {
      Waiting(s);
    } else {
      DriveMainFork(s);
    }
  }

  /** The step starts its first child, which publishes at once. */
  lemma MainStartsChild(s: State, child: Process) returns (flag: bool)
    requires s.inside.Some? && s.inside.value.Blocked() && s.free > 0
    requires child == Process(true, s.inside.value.Children()[0])
    ensures var s' := With(s, [child.Published()] + s.procs, s.free - 1, s.waiting + 1, flag);
      CanReach(s, s'.(inside := Some(s.inside.value.Forked())))
  {
    Do(s, MainFork);
    var s1 := Next(s, MainFork);
    assert s1.procs == [] + [child] + s.procs;
    flag := DoInside(s1, [], child, s.procs);
    assert [] + [child.Published()] + s.procs == [child.Published()] + s.procs;
    Then(s, s1, With(s1, [child.Published()] + s.procs, s1.free, s1.waiting, flag));
  }

  /** The first process is driven as far as it goes. */
  lemma DriveFirst(s: State, run: Process, procs: seq<Process>) returns (parked: seq<Process>, flag: bool)
    requires s.procs == [run] + procs && !run.starting && s.waiting > 0
    ensures AllBlocked(parked) && |parked| == Min(s.free + 1, ProcessLoad(run))
    ensures CanReach(s, With(s, parked + procs, s.free + 1 - |parked|, s.waiting + |parked| - 1, flag))
  {
    assert s.procs == [] + [run] + procs;
    parked, flag := Drive(s, [], run, procs);
    assert [] + parked + procs == parked + procs;
  }

  lemma {:induction false} DriveMainFork(s: State)
    requires s.inside.Some? && s.inside.value.Blocked() && !s.returned && AllBlocked(s.procs) && s.waiting >= 1
    requires s.free > 0 && s.free + 1 <= StepLoad(s.inside.value.Children(), s.tops)
    ensures CanReachStuck(s)
    decreases ForkWork(s.inside.value.Children()) + ForkWork(s.tops), 1
  {
    var p := s.inside.value;
    var c := p.Children();
    var child := Process(true, c[0]);
    var run := child.Published();
    ForkCosts(p);
    assert ProcessLoad(run) == Load(c[0]);
    assert p.Forked().Children() == c[1..];
    var parked;
    var flag := MainStartsChild(s, child);
    var s1 := With(s, [run] + s.procs, s.free - 1, s.waiting + 1, flag).(inside := Some(p.Forked()));
    if |c| == 1 {
      Do(s1, MainRelease);
      var s2 := Next(s1, MainRelease);
      Then(s, s1, s2);
      parked, flag := DriveFirst(s2, run, s.procs);
      var s3 := With(s2, parked + s.procs, s2.free + 1 - |parked|, s2.waiting + |parked| - 1, flag);
      Then(s, s2, s3);
      DriveTops(s3);
      ThenStuck(s, s3);
    } else {
      parked, flag := DriveFirst(s1, run, s.procs);
      var s2 := With(s1, parked + s.procs, s1.free + 1 - |parked|, s1.waiting + |parked| - 1, flag);
      Then(s, s1, s2);
      WaitingStepLoad(c[1..], s.tops);
      DriveStep(s2);
      ThenStuck(s, s2);
    }
  }

  /** A workflow can get stuck with a pool of the given size exactly when that many of its
      activations can come to wait for a slot at the same time. */
  lemma DeadlockExactly(size: nat, tops: seq<Activation>)
    requires size >= 1
    ensures (exists s :: CanReach(Begin(size, tops), s) && Stuck(s)) <==> size <= TopLoad(tops)
  {
    var begin := Begin(size, tops);
    forall s | CanReach(begin, s) && Stuck(s) ensures size <= TopLoad(tops) {
      var schedule :| Leads(begin, schedule, s);
      StuckNeedsLoad(size, tops, schedule, s);
    }
    if size <= TopLoad(tops) {
      DriveTops(begin);
      var s :| CanReach(begin, s) && AllWait(s);
      var schedule :| Leads(begin, schedule, s);
      CountedAlways(size, begin, schedule, s);
      StuckMeansAllWait(size, s);
    }
  }

  // ---- The bound by the number of activations that start others ----

  function Starters(activations: seq<Activation>): nat {
    if activations == [] then 0
    else
      var a := activations[0];
      (if a.children == [] then 0 else 1) + Starters(a.children) + Starters(activations[1..])
  }

  lemma {:induction false} LoadBound(children: seq<Activation>)
    ensures ForkLoad(children) <= (if children == [] then 0 else 1) + Starters(children)
    decreases children
  {
    if children != [] {
      LoadBound(children[0].children);
      LoadBound(children[1..]);
    }
  }

  lemma {:induction false} StepLoadBound(children: seq<Activation>, tops: seq<Activation>)
    ensures StepLoad(children, tops) <= (if children == [] then 0 else 1) + Starters(children) + Starters(tops)
    decreases tops, 1, children
  {
    if children == [] {
      TopLoadBound(tops);
    } else {
      LoadBound(children[0].children);
      if |children| == 1 { TopLoadBound(tops); } else { StepLoadBound(children[1..], tops); }
    }
  }

  lemma {:induction false} TopLoadBound(tops: seq<Activation>)
    ensures TopLoad(tops) <= Starters(tops)
    decreases tops, 0
  {
    if tops != [] { StepLoadBound(tops[0].children, tops[1..]); }
  }

  /** A pool larger than the number of activations that start others never gets stuck: in every
      state that is reached before the workflow returns something can happen. */
  lemma LargePoolProgresses(size: nat, tops: seq<Activation>, schedule: seq<Action>, s: State)
    requires size > Starters(tops) && Leads(Begin(size, tops), schedule, s) && !s.returned
    ensures exists a: Action :: Enabled(s, a)
  {
    TopLoadBound(tops);
    if Stuck(s) { StuckNeedsLoad(size, tops, schedule, s); }
  }

  // ---- The pool that the engine creates ----

  /** The size of the pool for a number of template threads: one thread is made two. */
  function PoolSize(templateThreads: nat): nat {
    if templateThreads == 1 then templateThreads + 1 else templateThreads
  }

  /** An outcome in which the single executer of every step finds something. */
  const ALWAYS: Oracle := path => i => Execution(true, false, [Event(true, true, {})])

  const LEAF := Step([], [], 1)
  const NESTED := Step([], [Step([], [LEAF], 1), LEAF], 1)

  /** One more thread is not enough in general: a template with two subtemplates, the first with
      one of its own, can get stuck with one or two template threads, and cannot with three. */
  lemma TwoThreadsCanDeadlock(templateThreads: nat)
    requires templateThreads >= 1
    ensures (exists s :: CanReach(Begin(PoolSize(templateThreads), UnfoldAll([NESTED], ALWAYS)), s) && Stuck(s))
            <==> templateThreads <= 2
  {
    var tops := UnfoldAll([NESTED], ALWAYS);
    NestedLoad();
    DeadlockExactly(PoolSize(templateThreads), tops);
  }

  lemma AlwaysForks(s: Step)
    requires s.matchers == [] && s.executers == 1
    ensures forall path :: Forks(s, ALWAYS(path)) == s.subtemplates
  {
    forall path ensures Forks(s, ALWAYS(path)) == s.subtemplates {
      var out := ALWAYS(path);
      assert out(0).events[0].operators && out(0).events[0].results;
      assert ExecutionMatches(s, out(0));
    }
  }

  lemma NestedLoad()
    ensures TopLoad(UnfoldAll([NESTED], ALWAYS)) == 2
  {
    var inner := Step([], [LEAF], 1);
    AlwaysForks(NESTED);
    AlwaysForks(inner);
    AlwaysForks(LEAF);
    UnfoldParts(NESTED, [0], ALWAYS);
    UnfoldParts(inner, [0] + [0], ALWAYS);
    UnfoldParts(LEAF, [0] + [1], ALWAYS);
    UnfoldParts(LEAF, [0] + [0] + [0], ALWAYS);
    var top := UnfoldAll([NESTED], ALWAYS)[0];
    assert |top.children| == 2 && |top.children[0].children| == 1 && top.children[0].children[0].children == [];
    assert top.children[1].children == [];
    var first, second := top.children[0], top.children[1];
    assert Load(first.children[0]) == 0 && Load(second) == 0;
    assert ForkLoad(first.children) == 1;
    assert StepLoad(top.children[1..], []) == 1;
    assert UnfoldAll([NESTED], ALWAYS)[1..] == [];
  }
}
