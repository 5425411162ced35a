/** The two scan strategies: template-spray runs every template over all targets, host-spray runs
    every target over all templates. Both are two nested loops that spawn goroutines into bounded
    pools; one event is one atomic step of a loop, of a goroutine, or of the scan. Templates and
    targets are known by their positions, and what executing a template on a target answers is a
    parameter. */
module Strategies {
  import opened Sets

  datatype Option<T> = None | Some(value: T)

  datatype Strategy = TemplateSpray | HostSpray | Unsupported

  /** The sizes of the pools, from the options of the same names. */
  datatype Sizes = Sizes(templateThreads: nat, headlessTemplateThreads: nat, bulkSize: nat, headlessBulkSize: nat)

  datatype Scan = Scan(
    templates: nat, targets: nat, selfContained: nat, headless: nat -> bool,
    matches: (nat, nat) -> bool, selfMatches: nat -> bool, sizes: Sizes)

  /** One iteration of the outer loop: how many inner items it took, those spawned but not yet
      executed, and those executed but still holding their slot. */
  datatype Activation = Activation(next: nat, spawned: set<nat>, ran: set<nat>, stopped: bool, finished: bool)

  /** The activations, the pairs executed so far, and whether one of them matched. */
  datatype Nest = Nest(acts: seq<Activation>, log: multiset<(nat, nat)>, flag: bool)

  /** The state of the outer loop. */
  datatype Control = Control(cancelled: bool, stopped: bool, returned: bool)

  /** The self-contained templates still to run, the flag loaded from the strategy once it returned,
      and the answer of the scan so far. */
  datatype Answer = Answer(pending: set<nat>, joined: bool, loaded: bool, results: bool)

  datatype State = State(nest: Nest, control: Control, answer: Answer)

  /** The steps of one activation and its goroutines. */
  datatype Step = Spawn | Stop | Execute(i: nat) | Release(i: nat) | Finish

  datatype Event =
    | Cancel
    | SpawnOuter | StopOuter | At(o: nat, step: Step) | Return
    | RunSelf(k: nat) | Join

  function Outer(c: Scan, st: Strategy): nat {
    match st
    case TemplateSpray => c.templates
    case HostSpray => c.targets
    case Unsupported => 0
  }

  function Inner(c: Scan, st: Strategy): nat {
    if st.TemplateSpray? then c.targets else c.templates
  }

  /** The template and the target of an inner goroutine. */
  function Pair(st: Strategy, o: nat, i: nat): (nat, nat) {
    if st.TemplateSpray? then (o, i) else (i, o)
  }

  function MatchOf(c: Scan, st: Strategy, o: nat, i: nat): bool {
    var p := Pair(st, o, i); c.matches(p.0, p.1)
  }

  /** Template-spray has an outer pool for headless templates and one for the others; host-spray has
      a single one. The inner pools are the other way round. */
  function OuterPool(c: Scan, st: Strategy, o: nat): bool { st.TemplateSpray? && c.headless(o) }

  function OuterSize(c: Scan, st: Strategy, headless: bool): nat {
    if st.HostSpray? then c.sizes.bulkSize + c.sizes.headlessBulkSize
    else if headless then c.sizes.headlessTemplateThreads else c.sizes.templateThreads
  }

  function InnerPool(c: Scan, st: Strategy, i: nat): bool { st.HostSpray? && c.headless(i) }

  function InnerSize(c: Scan, st: Strategy, o: nat, headless: bool): nat {
    if st.HostSpray? then if headless then c.sizes.headlessTemplateThreads else c.sizes.templateThreads
    else if c.headless(o) then c.sizes.headlessBulkSize else c.sizes.bulkSize
  }

  /** The slots taken in an outer and in an inner pool. */
  function LiveOuter(c: Scan, st: Strategy, acts: seq<Activation>, headless: bool): set<nat> {
    set o: nat | 0 <= o < |acts| && !acts[o].finished && OuterPool(c, st, o) == headless
  }

  function LiveInner(c: Scan, st: Strategy, a: Activation, headless: bool): set<nat> {
    set i: nat | i in a.spawned + a.ran && InnerPool(c, st, i) == headless
  }

  predicate StepPossible(c: Scan, st: Strategy, cancelled: bool, a: Activation, e: Step) {
    match e
    case Spawn => !a.finished && !a.stopped && a.next < Inner(c, st)
    case Stop => !a.finished && !a.stopped && cancelled && a.next < Inner(c, st)
    case Execute(i) => i in a.spawned
    case Release(i) => i in a.ran
    case Finish =>
      && !a.finished && (a.stopped || a.next == Inner(c, st))
      && ((st.HostSpray? && a.stopped) || (a.spawned == {} && a.ran == {}))
  }

  function StepNext(a: Activation, e: Step): Activation {
    match e
    case Spawn => a.(next := a.next + 1, spawned := a.spawned + {a.next})
    case Stop => a.(stopped := true)
    case Execute(i) => a.(spawned := a.spawned - {i}, ran := a.ran + {i})
    case Release(i) => a.(ran := a.ran - {i})
    case Finish => a.(finished := true)
  }

  /** What can happen to the activations when no pool is full. */
  predicate NestPossible(c: Scan, st: Strategy, cancelled: bool, n: Nest, e: Event) {
    match e
    case SpawnOuter => |n.acts| < Outer(c, st)
    case At(o, step) => o < |n.acts| && StepPossible(c, st, cancelled, n.acts[o], step)
    case _ => true
  }

  predicate AllFinished(acts: seq<Activation>) {
    forall o | 0 <= o < |acts| :: acts[o].finished
  }

  predicate ControlPossible(c: Scan, st: Strategy, s: State, e: Event) {
    match e
    case Cancel => !s.control.cancelled
    case SpawnOuter => !s.control.returned && !s.control.stopped
    case StopOuter => !s.control.returned && !s.control.stopped && s.control.cancelled && |s.nest.acts| < Outer(c, st)
    case Return => !s.control.returned && (s.control.stopped || |s.nest.acts| == Outer(c, st)) && AllFinished(s.nest.acts)
    case RunSelf(k) => k in s.answer.pending
    case Join => s.control.returned && !s.answer.joined
    case At(_, _) => true
  }

  /** A goroutine is spawned only once there is a slot for it. */
  predicate StepHasSlot(c: Scan, st: Strategy, o: nat, a: Activation, e: Step) {
    e.Spawn? ==> var h := InnerPool(c, st, a.next); |LiveInner(c, st, a, h)| < InnerSize(c, st, o, h)
  }

  predicate HasSlot(c: Scan, st: Strategy, n: Nest, e: Event) {
    match e
    case SpawnOuter => var h := OuterPool(c, st, |n.acts|); |LiveOuter(c, st, n.acts, h)| < OuterSize(c, st, h)
    case At(o, step) => o < |n.acts| && StepHasSlot(c, st, o, n.acts[o], step)
    case _ => true
  }

  predicate Enabled(c: Scan, st: Strategy, s: State, e: Event) {
    ControlPossible(c, st, s, e) && NestPossible(c, st, s.control.cancelled, s.nest, e) && HasSlot(c, st, s.nest, e)
  }

  /** The execution that a step stands for, and the match it reports. */
  function LogOf(st: Strategy, o: nat, e: Step): multiset<(nat, nat)> {
    if e.Execute? then multiset{Pair(st, o, e.i)} else multiset{}
  }

  predicate Reports(c: Scan, st: Strategy, o: nat, e: Step) {
    e.Release? && MatchOf(c, st, o, e.i)
  }

  const STARTED := Activation(0, {}, {}, false, false)

  function NestNext(c: Scan, st: Strategy, n: Nest, e: Event): Nest
    requires e.At? ==> e.o < |n.acts|
  {
    match e
    case SpawnOuter => Nest(n.acts + [STARTED], n.log, n.flag)
    case At(o, step) =>
      Nest(n.acts[o := StepNext(n.acts[o], step)], n.log + LogOf(st, o, step), n.flag || Reports(c, st, o, step))
    case _ => n
  }

  /** A cancelled template-spray returns from its loop at once; a cancelled host-spray waits for its
      goroutines, but each of those returns without waiting for its own. */
  function ControlNext(st: Strategy, k: Control, e: Event): Control {
    match e
    case Cancel => k.(cancelled := true)
    case StopOuter => if st.TemplateSpray? then k.(returned := true) else k.(stopped := true)
    case Return => k.(returned := true)
    case _ => k
  }

  function AnswerNext(c: Scan, flag: bool, a: Answer, e: Event): Answer {
    match e
    case RunSelf(k) => a.(pending := a.pending - {k}, results := a.results || c.selfMatches(k))
    case Join => Answer(a.pending, true, flag, a.results || flag)
    case _ => a
  }

  function Apply(c: Scan, st: Strategy, s: State, e: Event): State
    requires e.At? ==> e.o < |s.nest.acts|
  {
    State(NestNext(c, st, s.nest, e), ControlNext(st, s.control, e), AnswerNext(c, s.nest.flag, s.answer, e))
  }

  function Below(n: nat): (r: set<nat>)
    ensures forall k: nat :: k in r <==> k < n
  {
    if n == 0 then {} else Below(n - 1) + {n - 1}
  }

  function Initial(c: Scan): State {
    State(Nest([], multiset{}, false), Control(false, false, false), Answer(Below(c.selfContained), false, false, false))
  }

  /** The state after a schedule, when the schedule is possible. */
  function Reached(c: Scan, st: Strategy, es: seq<Event>): Option<State> {
    if es == [] then Some(Initial(c))
    else
      var last := |es| - 1;
      match Reached(c, st, es[..last])
      case None => None
      case Some(s) => if Enabled(c, st, s, es[last]) then Some(Apply(c, st, s, es[last])) else None
  }

  /** The scan returned, having waited for the self-contained templates. */
  predicate Finished(s: State) { s.answer.joined && s.answer.pending == {} }

  // ---- The invariant ----

  ghost predicate ActBounded(a: Activation, inner: nat) {
    && a.next <= inner && a.spawned !! a.ran
    && (forall i | i in a.spawned :: i < a.next) && forall i | i in a.ran :: i < a.next
  }

  ghost predicate Bounded(c: Scan, st: Strategy, n: Nest) {
    && |n.acts| <= Outer(c, st)
    && forall o | 0 <= o < |n.acts| :: ActBounded(n.acts[o], Inner(c, st))
  }

  /** The inner goroutines that executed, and those that also released their slot. */
  predicate ActExecuted(a: Activation, i: nat) { i < a.next && i !in a.spawned }

  predicate ActReleased(a: Activation, i: nat) { ActExecuted(a, i) && i !in a.ran }

  predicate Executed(n: Nest, o: nat, i: nat) { o < |n.acts| && ActExecuted(n.acts[o], i) }

  predicate Released(n: Nest, o: nat, i: nat) { o < |n.acts| && ActReleased(n.acts[o], i) }

  ghost predicate Logged(st: Strategy, n: Nest) {
    forall o: nat, i: nat :: n.log[Pair(st, o, i)] == if Executed(n, o, i) then 1 else 0
  }

  ghost predicate Hit(c: Scan, st: Strategy, n: Nest, o: nat, i: nat) {
    Released(n, o, i) && MatchOf(c, st, o, i)
  }

  ghost predicate Flagged(c: Scan, st: Strategy, n: Nest) {
    n.flag <==> exists o: nat, i: nat :: Hit(c, st, n, o, i)
  }

  predicate Complete(a: Activation, inner: nat) {
    a.next == inner && a.spawned == {} && a.ran == {}
  }

  /** Until it is cancelled, a loop ends only with all its work done. */
  ghost predicate ActsOrderly(acts: seq<Activation>, inner: nat) {
    forall o | 0 <= o < |acts| :: !acts[o].stopped && (acts[o].finished ==> Complete(acts[o], inner))
  }

  ghost predicate Orderly(c: Scan, st: Strategy, s: State) {
    !s.control.cancelled ==>
      && !s.control.stopped && ActsOrderly(s.nest.acts, Inner(c, st))
      && (s.control.returned ==> |s.nest.acts| == Outer(c, st) && AllFinished(s.nest.acts))
      && (s.answer.joined ==> s.answer.loaded == s.nest.flag)
  }

  ghost predicate SelfHit(c: Scan, a: Answer, k: nat) {
    k < c.selfContained && k !in a.pending && c.selfMatches(k)
  }

  ghost predicate Collected(c: Scan, returned: bool, a: Answer) {
    && (forall k | k in a.pending :: k < c.selfContained)
    && (a.joined ==> returned) && (a.loaded ==> a.joined)
    && (a.results <==> a.loaded || exists k: nat :: SelfHit(c, a, k))
  }

  ghost predicate Invariant(c: Scan, st: Strategy, s: State) {
    && Bounded(c, st, s.nest) && Logged(st, s.nest) && Flagged(c, st, s.nest)
    && Orderly(c, st, s) && Collected(c, s.control.returned, s.answer)
  }

  lemma BoundedKept(c: Scan, st: Strategy, cancelled: bool, n: Nest, e: Event)
    requires Bounded(c, st, n) && NestPossible(c, st, cancelled, n, e)
    ensures Bounded(c, st, NestNext(c, st, n, e))
  {
    if e.At? { assert ActBounded(n.acts[e.o], Inner(c, st)); }
  }

  /** Only executing changes who executed, and only releasing changes who released. */
  lemma StepExecutes(c: Scan, st: Strategy, cancelled: bool, a: Activation, e: Step, i: nat)
    requires ActBounded(a, Inner(c, st)) && StepPossible(c, st, cancelled, a, e)
    ensures ActExecuted(StepNext(a, e), i) == (ActExecuted(a, i) || e == Execute(i))
    ensures ActReleased(StepNext(a, e), i) == (ActReleased(a, i) || e == Release(i))
    ensures e == Execute(i) ==> !ActExecuted(a, i)
  {
  }

  lemma ExecutedNext(c: Scan, st: Strategy, cancelled: bool, n: Nest, e: Event, o: nat, i: nat)
    requires Bounded(c, st, n) && NestPossible(c, st, cancelled, n, e)
    ensures Executed(NestNext(c, st, n, e), o, i) == (Executed(n, o, i) || e == At(o, Execute(i)))
    ensures Released(NestNext(c, st, n, e), o, i) == (Released(n, o, i) || e == At(o, Release(i)))
    ensures e == At(o, Execute(i)) ==> !Executed(n, o, i)
  {
    if e.At? && e.o == o { StepExecutes(c, st, cancelled, n.acts[o], e.step, i); }
  }

  lemma LogNext(c: Scan, st: Strategy, cancelled: bool, n: Nest, e: Event, o: nat, i: nat)
    requires NestPossible(c, st, cancelled, n, e)
    ensures NestNext(c, st, n, e).log[Pair(st, o, i)] == n.log[Pair(st, o, i)] + if e == At(o, Execute(i)) then 1 else 0
  {
    if e.At? && e.step.Execute? { assert Pair(st, e.o, e.step.i) == Pair(st, o, i) <==> e == At(o, Execute(i)); }
  }

  lemma LoggedKept(c: Scan, st: Strategy, cancelled: bool, n: Nest, e: Event)
    requires Bounded(c, st, n) && Logged(st, n) && NestPossible(c, st, cancelled, n, e)
    ensures Logged(st, NestNext(c, st, n, e))
  {
    var n' := NestNext(c, st, n, e);
    forall o: nat, i: nat ensures n'.log[Pair(st, o, i)] == if Executed(n', o, i) then 1 else 0 {
      ExecutedNext(c, st, cancelled, n, e, o, i);
      assert n.log[Pair(st, o, i)] == if Executed(n, o, i) then 1 else 0;
      LogNext(c, st, cancelled, n, e, o, i);
    }
  }

  lemma FlaggedKept(c: Scan, st: Strategy, cancelled: bool, n: Nest, e: Event)
    requires Bounded(c, st, n) && Flagged(c, st, n) && NestPossible(c, st, cancelled, n, e)
    ensures Flagged(c, st, NestNext(c, st, n, e))
  {
    var n' := NestNext(c, st, n, e);
    if n.flag {
      var o: nat, i: nat :| Hit(c, st, n, o, i);
      ExecutedNext(c, st, cancelled, n, e, o, i);
      assert Hit(c, st, n', o, i);
    } else if n'.flag {
      ExecutedNext(c, st, cancelled, n, e, e.o, e.step.i);
      assert Hit(c, st, n', e.o, e.step.i);
    } else {
      forall o: nat, i: nat ensures !Hit(c, st, n', o, i) {
        ExecutedNext(c, st, cancelled, n, e, o, i);
        assert !Hit(c, st, n, o, i);
      }
    }
  }

  lemma OrderlyKept(c: Scan, st: Strategy, s: State, e: Event)
    requires Orderly(c, st, s) && Collected(c, s.control.returned, s.answer)
    requires ControlPossible(c, st, s, e) && NestPossible(c, st, s.control.cancelled, s.nest, e)
    ensures Orderly(c, st, Apply(c, st, s, e))
  {
    if !s.control.cancelled && e.At? {
      assert s.nest.acts[e.o].finished ==> Complete(s.nest.acts[e.o], Inner(c, st));
    }
  }

  lemma CollectedKept(c: Scan, st: Strategy, s: State, e: Event)
    requires Collected(c, s.control.returned, s.answer) && ControlPossible(c, st, s, e)
    ensures Collected(c, ControlNext(st, s.control, e).returned, AnswerNext(c, s.nest.flag, s.answer, e))
  {
    var a, a' := s.answer, AnswerNext(c, s.nest.flag, s.answer, e);
    forall k: nat ensures SelfHit(c, a', k) <==> SelfHit(c, a, k) || (e == RunSelf(k) && c.selfMatches(k)) {}
    if e.RunSelf? { assert SelfHit(c, a', e.k) <==> c.selfMatches(e.k); }
  }

  lemma {:induction false} InvariantHolds(c: Scan, st: Strategy, es: seq<Event>)
    requires Reached(c, st, es).Some?
    ensures Invariant(c, st, Reached(c, st, es).value)
  {
    if es == [] {
      var s := Initial(c);
      assert forall k: nat :: !SelfHit(c, s.answer, k);
      assert forall o: nat, i: nat :: !Hit(c, st, s.nest, o, i);
    } else {
      var last := |es| - 1;
      InvariantHolds(c, st, es[..last]);
      InvariantKept(c, st, Reached(c, st, es[..last]).value, es[last]);
    }
  }

  lemma InvariantKept(c: Scan, st: Strategy, s: State, e: Event)
    requires Invariant(c, st, s) && ControlPossible(c, st, s, e) && NestPossible(c, st, s.control.cancelled, s.nest, e)
    ensures Invariant(c, st, Apply(c, st, s, e))
  {
    BoundedKept(c, st, s.control.cancelled, s.nest, e);
    LoggedKept(c, st, s.control.cancelled, s.nest, e);
    FlaggedKept(c, st, s.control.cancelled, s.nest, e);
    OrderlyKept(c, st, s, e);
    CollectedKept(c, st, s, e);
  }

  lemma {:induction false} NotCancelled(c: Scan, st: Strategy, es: seq<Event>)
    requires Reached(c, st, es).Some? && Cancel !in es
    ensures !Reached(c, st, es).value.control.cancelled
  {
    if es != [] {
      var last := |es| - 1;
      NotCancelled(c, st, es[..last]);
      var k := Reached(c, st, es[..last]).value.control;
      assert es[last] != Cancel && ControlNext(st, k, es[last]).cancelled == k.cancelled;
    }
  }

  // ---- What a scan executes ----

  predicate InProduct(c: Scan, p: (nat, nat)) { p.0 < c.templates && p.1 < c.targets }

  lemma PairOf(c: Scan, st: Strategy, p: (nat, nat)) returns (o: nat, i: nat)
    ensures Pair(st, o, i) == p
    ensures !st.Unsupported? ==> (InProduct(c, p) <==> o < Outer(c, st) && i < Inner(c, st))
  {
    if st.TemplateSpray? { o, i := p.0, p.1; } else { o, i := p.1, p.0; }
  }

  /** Under every schedule, cancelled or not, a template is executed on a target at most once, and
      never on anything outside the scan. */
  lemma AtMostOnce(c: Scan, st: Strategy, es: seq<Event>, p: (nat, nat))
    requires Reached(c, st, es).Some?
    ensures Reached(c, st, es).value.nest.log[p] <= if InProduct(c, p) && !st.Unsupported? then 1 else 0
  {
    InvariantHolds(c, st, es);
    var s := Reached(c, st, es).value;
    var o, i := PairOf(c, st, p);
    assert s.nest.log[Pair(st, o, i)] == if Executed(s.nest, o, i) then 1 else 0;
    if Executed(s.nest, o, i) { assert ActBounded(s.nest.acts[o], Inner(c, st)); }
  }

  /** A scan that is not cancelled executes every template on every target exactly once. */
  lemma ExactlyOnce(c: Scan, st: Strategy, es: seq<Event>, p: (nat, nat))
    requires Reached(c, st, es).Some? && Cancel !in es && Reached(c, st, es).value.control.returned
    ensures Reached(c, st, es).value.nest.log[p] == if InProduct(c, p) && !st.Unsupported? then 1 else 0
  {
    AtMostOnce(c, st, es, p);
    InvariantHolds(c, st, es);
    NotCancelled(c, st, es);
    var s := Reached(c, st, es).value;
    var o, i := PairOf(c, st, p);
    assert s.nest.log[Pair(st, o, i)] == if Executed(s.nest, o, i) then 1 else 0;
    if InProduct(c, p) && !st.Unsupported? { assert Complete(s.nest.acts[o], Inner(c, st)); }
  }

  /** What a scan answers: some template matched on some target, or some self-contained one did. */
  ghost predicate SomeMatch(c: Scan) {
    exists t: nat, x: nat :: t < c.templates && x < c.targets && c.matches(t, x)
  }

  ghost predicate SomeSelfMatch(c: Scan) {
    exists k: nat :: k < c.selfContained && c.selfMatches(k)
  }

  lemma FlagIsSomeMatch(c: Scan, st: Strategy, s: State)
    requires Invariant(c, st, s) && !s.control.cancelled && s.control.returned && !st.Unsupported?
    ensures s.nest.flag <==> SomeMatch(c)
  {
    if s.nest.flag {
      var o: nat, i: nat :| Hit(c, st, s.nest, o, i);
      assert ActBounded(s.nest.acts[o], Inner(c, st));
      assert c.matches(Pair(st, o, i).0, Pair(st, o, i).1);
    }
    if t: nat, x: nat :| t < c.templates && x < c.targets && c.matches(t, x) {
      var o, i := PairOf(c, st, (t, x));
      assert Complete(s.nest.acts[o], Inner(c, st));
      assert Hit(c, st, s.nest, o, i);
    }
  }

  lemma ResultOfScan(c: Scan, st: Strategy, es: seq<Event>)
    requires Reached(c, st, es).Some? && Cancel !in es && Finished(Reached(c, st, es).value)
    ensures Reached(c, st, es).value.answer.results <==> (!st.Unsupported? && SomeMatch(c)) || SomeSelfMatch(c)
  {
    InvariantHolds(c, st, es);
    NotCancelled(c, st, es);
    var s := Reached(c, st, es).value;
    forall k: nat ensures SelfHit(c, s.answer, k) <==> k < c.selfContained && c.selfMatches(k) {}
    if st.Unsupported? {
      assert forall o: nat, i: nat :: !Hit(c, st, s.nest, o, i);
    } else {
      FlagIsSomeMatch(c, st, s);
    }
  }

  /** The two strategies are equivalent: under every pair of schedules that are not cancelled and
      run to the end, they execute the same pairs equally often and answer the same. */
  lemma StrategiesAgree(c: Scan, es: seq<Event>, fs: seq<Event>)
    requires Reached(c, TemplateSpray, es).Some? && Cancel !in es && Finished(Reached(c, TemplateSpray, es).value)
    requires Reached(c, HostSpray, fs).Some? && Cancel !in fs && Finished(Reached(c, HostSpray, fs).value)
    ensures Reached(c, TemplateSpray, es).value.nest.log == Reached(c, HostSpray, fs).value.nest.log
    ensures Reached(c, TemplateSpray, es).value.answer.results == Reached(c, HostSpray, fs).value.answer.results
  {
    ResultOfScan(c, TemplateSpray, es);
    ResultOfScan(c, HostSpray, fs);
    InvariantHolds(c, TemplateSpray, es);
    InvariantHolds(c, HostSpray, fs);
    var a, b := Reached(c, TemplateSpray, es).value, Reached(c, HostSpray, fs).value;
    forall p: (nat, nat) ensures a.nest.log[p] == b.nest.log[p] {
      ExactlyOnce(c, TemplateSpray, es, p);
      ExactlyOnce(c, HostSpray, fs, p);
    }
  }

  // ---- Every schedule comes to an end ----

  function ActWork(a: Activation, inner: nat): int {
    3 * (inner - a.next) + 2 * |a.spawned| + |a.ran| + (if a.stopped then 0 else 1) + if a.finished then 0 else 1
  }

  function ActsWork(acts: seq<Activation>, inner: nat): int {
    if acts == [] then 0 else ActsWork(acts[..|acts| - 1], inner) + ActWork(acts[|acts| - 1], inner)
  }

  lemma {:induction false} ActsWorkUpdate(acts: seq<Activation>, inner: nat, o: nat, a: Activation)
    requires o < |acts|
    ensures ActsWork(acts[o := a], inner) == ActsWork(acts, inner) - ActWork(acts[o], inner) + ActWork(a, inner)
  {
    var last, front := |acts| - 1, acts[..|acts| - 1];
    if o == last {
      assert acts[o := a][..last] == front;
    } else {
      ActsWorkUpdate(front, inner, o, a);
      assert acts[o := a][..last] == front[o := a];
    }
  }

  lemma ActsWorkSnoc(acts: seq<Activation>, inner: nat, a: Activation)
    ensures ActsWork(acts + [a], inner) == ActsWork(acts, inner) + ActWork(a, inner)
  {
    assert (acts + [a])[..|acts|] == acts;
  }

  function Bit(b: bool): nat { if b then 0 else 1 }

  /** The steps a scan has left. */
  function NestWork(c: Scan, st: Strategy, n: Nest): int {
    ActsWork(n.acts, Inner(c, st)) + (Outer(c, st) - |n.acts|) * (3 * Inner(c, st) + 3)
  }

  function Work(c: Scan, st: Strategy, s: State): int {
    NestWork(c, st, s.nest)
    + Bit(s.control.cancelled) + Bit(s.control.stopped) + Bit(s.control.returned) + |s.answer.pending| + Bit(s.answer.joined)
  }

  lemma StepWork(c: Scan, st: Strategy, cancelled: bool, a: Activation, e: Step)
    requires StepPossible(c, st, cancelled, a, e) && ActBounded(a, Inner(c, st))
    ensures ActWork(StepNext(a, e), Inner(c, st)) == ActWork(a, Inner(c, st)) - 1
  {
  }

  lemma NestOneStep(c: Scan, st: Strategy, cancelled: bool, n: Nest, e: Event)
    requires Bounded(c, st, n) && NestPossible(c, st, cancelled, n, e)
    ensures NestWork(c, st, NestNext(c, st, n, e)) == NestWork(c, st, n) - if e.SpawnOuter? || e.At? then 1 else 0
  {
    var inner := Inner(c, st);
    if e.SpawnOuter? {
      ActsWorkSnoc(n.acts, inner, STARTED);
      Times(Outer(c, st) - |n.acts| - 1, 3 * inner + 3);
    } else if e.At? {
      assert ActBounded(n.acts[e.o], inner);
      ActsWorkUpdate(n.acts, inner, e.o, StepNext(n.acts[e.o], e.step));
      StepWork(c, st, cancelled, n.acts[e.o], e.step);
    }
  }

  /** Every event takes exactly one from the work that is left. */
  lemma OneStep(c: Scan, st: Strategy, s: State, e: Event)
    requires Bounded(c, st, s.nest) && ControlPossible(c, st, s, e) && NestPossible(c, st, s.control.cancelled, s.nest, e)
    ensures Work(c, st, Apply(c, st, s, e)) == Work(c, st, s) - 1
  {
    NestOneStep(c, st, s.control.cancelled, s.nest, e);
  }

  lemma Times(k: int, m: int)
    ensures (k + 1) * m == k * m + m
  {
  }

  lemma {:induction false} ActsWorkPositive(acts: seq<Activation>, inner: nat)
    requires forall o | 0 <= o < |acts| :: ActBounded(acts[o], inner)
    ensures ActsWork(acts, inner) >= 0
  {
    if acts != [] {
      ActsWorkPositive(acts[..|acts| - 1], inner);
      assert ActBounded(acts[|acts| - 1], inner);
    }
  }

  lemma TimesPositive(k: nat, m: nat)
    ensures k * m >= 0
  {
  }

  lemma WorkPositive(c: Scan, st: Strategy, s: State)
    requires Bounded(c, st, s.nest)
    ensures Work(c, st, s) >= 0
  {
    ActsWorkPositive(s.nest.acts, Inner(c, st));
    TimesPositive(Outer(c, st) - |s.nest.acts|, 3 * Inner(c, st) + 3);
  }

  /** A schedule and the work it leaves add up to the work there was: no schedule is longer. */
  lemma {:induction false} ScheduleLength(c: Scan, st: Strategy, es: seq<Event>)
    requires Reached(c, st, es).Some?
    ensures |es| + Work(c, st, Reached(c, st, es).value) == Work(c, st, Initial(c))
    ensures |es| <= Work(c, st, Initial(c))
  {
    InvariantHolds(c, st, es);
    WorkPositive(c, st, Reached(c, st, es).value);
    if es != [] {
      var last := |es| - 1;
      ScheduleLength(c, st, es[..last]);
      InvariantHolds(c, st, es[..last]);
      OneStep(c, st, Reached(c, st, es[..last]).value, es[last]);
    }
  }

  predicate PoolsOpen(c: Scan) {
    c.sizes.templateThreads > 0 && c.sizes.headlessTemplateThreads > 0 && c.sizes.bulkSize > 0 && c.sizes.headlessBulkSize > 0
  }

  /** With no empty pool the nesting never blocks: short of the end, something other than a
      cancellation can always happen. */
  lemma Progress(c: Scan, st: Strategy, s: State) returns (e: Event)
    requires PoolsOpen(c) && Invariant(c, st, s) && !Finished(s)
    ensures Enabled(c, st, s, e) && e != Cancel
  {
    if k: nat :| k in s.answer.pending {
      e := RunSelf(k);
    } else if s.control.returned {
      e := Join;
    } else if o: nat :| o < |s.nest.acts| && !s.nest.acts[o].finished {
      var step := StepProgress(c, st, s.control.cancelled, o, s.nest.acts[o]);
      e := At(o, step);
    } else if |s.nest.acts| < Outer(c, st) && !s.control.stopped {
      assert LiveOuter(c, st, s.nest.acts, OuterPool(c, st, |s.nest.acts|)) == {};
      e := SpawnOuter;
    } else {
      e := Return;
    }
  }

  lemma StepProgress(c: Scan, st: Strategy, cancelled: bool, o: nat, a: Activation) returns (e: Step)
    requires PoolsOpen(c) && ActBounded(a, Inner(c, st)) && !a.finished
    ensures StepPossible(c, st, cancelled, a, e) && StepHasSlot(c, st, o, a, e)
  {
    if i: nat :| i in a.spawned {
      e := Execute(i);
    } else if i: nat :| i in a.ran {
      e := Release(i);
    } else if a.next < Inner(c, st) && !a.stopped {
      assert LiveInner(c, st, a, InnerPool(c, st, a.next)) == {};
      e := Spawn;
    } else {
      e := Finish;
    }
  }

  // ---- The pools ----

  ghost predicate WithinOuter(c: Scan, st: Strategy, acts: seq<Activation>) {
    forall h: bool :: |LiveOuter(c, st, acts, h)| <= OuterSize(c, st, h)
  }

  ghost predicate ActWithin(c: Scan, st: Strategy, o: nat, a: Activation) {
    forall h: bool :: |LiveInner(c, st, a, h)| <= InnerSize(c, st, o, h)
  }

  ghost predicate WithinPools(c: Scan, st: Strategy, acts: seq<Activation>) {
    WithinOuter(c, st, acts) && forall o: nat | o < |acts| :: ActWithin(c, st, o, acts[o])
  }

  lemma OuterSpawn(c: Scan, st: Strategy, acts: seq<Activation>, h: bool)
    ensures LiveOuter(c, st, acts + [STARTED], h)
            == LiveOuter(c, st, acts, h) + if OuterPool(c, st, |acts|) == h then {|acts|} else {}
  {
    var more := acts + [STARTED];
    forall o: nat ensures o in LiveOuter(c, st, more, h) <==> o in LiveOuter(c, st, acts, h) || (o == |acts| && OuterPool(c, st, o) == h) {
      assert o < |acts| ==> more[o] == acts[o];
    }
  }

  lemma OuterStep(c: Scan, st: Strategy, acts: seq<Activation>, o: nat, step: Step, h: bool)
    requires o < |acts|
    ensures |LiveOuter(c, st, acts[o := StepNext(acts[o], step)], h)| <= |LiveOuter(c, st, acts, h)|
  {
    var acts' := acts[o := StepNext(acts[o], step)];
    forall k: nat | k in LiveOuter(c, st, acts', h) ensures k in LiveOuter(c, st, acts, h) {
      assert k != o ==> acts'[k] == acts[k];
    }
    Smaller(LiveOuter(c, st, acts', h), LiveOuter(c, st, acts, h));
  }

  lemma OuterKept(c: Scan, st: Strategy, n: Nest, e: Event)
    requires WithinOuter(c, st, n.acts) && HasSlot(c, st, n, e)
    ensures WithinOuter(c, st, NestNext(c, st, n, e).acts)
  {
    forall h: bool ensures |LiveOuter(c, st, NestNext(c, st, n, e).acts, h)| <= OuterSize(c, st, h) {
      assert |LiveOuter(c, st, n.acts, h)| <= OuterSize(c, st, h);
      if e.SpawnOuter? {
        OuterSpawn(c, st, n.acts, h);
      } else if e.At? {
        OuterStep(c, st, n.acts, e.o, e.step, h);
      }
    }
  }

  lemma StepWithin(c: Scan, st: Strategy, cancelled: bool, o: nat, a: Activation, e: Step, h: bool)
    requires StepPossible(c, st, cancelled, a, e) && StepHasSlot(c, st, o, a, e)
    requires |LiveInner(c, st, a, h)| <= InnerSize(c, st, o, h)
    ensures |LiveInner(c, st, StepNext(a, e), h)| <= InnerSize(c, st, o, h)
  {
    if e == Spawn && InnerPool(c, st, a.next) == h {
      assert LiveInner(c, st, StepNext(a, e), h) == LiveInner(c, st, a, h) + {a.next};
    } else {
      Smaller(LiveInner(c, st, StepNext(a, e), h), LiveInner(c, st, a, h));
    }
  }

  lemma InnerKept(c: Scan, st: Strategy, cancelled: bool, n: Nest, e: Event, o: nat)
    requires WithinPools(c, st, n.acts) && NestPossible(c, st, cancelled, n, e) && HasSlot(c, st, n, e)
    requires o < |NestNext(c, st, n, e).acts|
    ensures ActWithin(c, st, o, NestNext(c, st, n, e).acts[o])
  {
    if o == |n.acts| {
      assert forall h: bool :: LiveInner(c, st, STARTED, h) == {};
    } else {
      assert ActWithin(c, st, o, n.acts[o]);
      if e.At? && e.o == o {
        forall h: bool ensures |LiveInner(c, st, StepNext(n.acts[o], e.step), h)| <= InnerSize(c, st, o, h) {
          StepWithin(c, st, cancelled, o, n.acts[o], e.step, h);
        }
      }
    }
  }

  /** No pool is ever over its size, under any schedule. */
  lemma {:induction false} PoolsRespected(c: Scan, st: Strategy, es: seq<Event>)
    requires Reached(c, st, es).Some?
    ensures WithinPools(c, st, Reached(c, st, es).value.nest.acts)
  {
    if es == [] {
      assert forall h: bool :: LiveOuter(c, st, [], h) == {};
    } else {
      var last := |es| - 1;
      PoolsRespected(c, st, es[..last]);
      var s := Reached(c, st, es[..last]).value;
      OuterKept(c, st, s.nest, es[last]);
      forall o: nat | o < |NestNext(c, st, s.nest, es[last]).acts| ensures ActWithin(c, st, o, NestNext(c, st, s.nest, es[last]).acts[o]) {
        InnerKept(c, st, s.control.cancelled, s.nest, es[last], o);
      }
    }
  }

  // ---- Before the strategy ----

  datatype Template = Template(id: string, selfContained: bool)

  function Select(list: seq<Template>, selfContained: bool): seq<Template> {
    if list == [] then []
    else
      var front := Select(list[..|list| - 1], selfContained);
      if list[|list| - 1].selfContained == selfContained then front + [list[|list| - 1]] else front
  }

  method Separate(list: seq<Template>) returns (selfContained: seq<Template>, filtered: seq<Template>)
    ensures selfContained == Select(list, true) && filtered == Select(list, false)
  {
    filtered, selfContained := [], [];
    for n := 0 to |list|
      invariant selfContained == Select(list[..n], true) && filtered == Select(list[..n], false)
    {
      assert list[..n + 1][..n] == list[..n];
      if list[n].selfContained {
        selfContained := selfContained + [list[n]];
      } else {
        filtered := filtered + [list[n]];
      }
    }
    assert list[..|list|] == list;
  }

  /** Every template goes to one of the two sides, and none is on both. */
  lemma {:induction false} Separated(list: seq<Template>)
    ensures multiset(Select(list, true)) + multiset(Select(list, false)) == multiset(list)
    ensures forall t | t in Select(list, true) :: t.selfContained
    ensures forall t | t in Select(list, false) :: !t.selfContained
  {
    if list != [] {
      Separated(list[..|list| - 1]);
      assert list == list[..|list| - 1] + [list[|list| - 1]];
    }
  }

  function Lower(ch: char): char {
    if 'A' <= ch <= 'Z' then (ch as int + 32) as char else ch
  }

  predicate EqualFold(a: string, b: string) {
    |a| == |b| && forall i | 0 <= i < |a| :: Lower(a[i]) == Lower(b[i])
  }

  /** The option that selects the strategy: the automatic one is a placeholder for template-spray,
      and is the only one whose case does not matter. */
  function Selected(option: string): (st: Strategy)
    ensures st == TemplateSpray <==> option == "" || option == "template-spray" || EqualFold(option, "auto")
    ensures st == HostSpray <==> option == "host-spray"
  {
    var name := if EqualFold(option, "auto") || EqualFold(option, "") then "template-spray" else option;
    if name == "template-spray" then TemplateSpray
    else if name == "host-spray" then HostSpray
    else Unsupported
  }
}
