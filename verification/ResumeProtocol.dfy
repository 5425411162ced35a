/** One template executed over all targets, its in-flight tracking, and whole scans that are
    interrupted and resumed any number of times. Every goroutine is a worker with a program
    counter; one event is one atomic step of the loop, of a worker, or of the process. */
module ResumeProtocol {
  import opened Resume
  import opened Sets

  /** The templates of the scan, the number of targets and the size of the target pool. */
  datatype Config = Config(ids: set<string>, targets: nat, pool: nat)

  datatype Phase =
    | Looping                 // about to take the next target
    | Registered(skip: bool)  // the index is in flight, its goroutine not yet spawned
    | Draining                // waiting for the workers
    | Done

  datatype Stage = Spawned | Executed | Cleaned

  datatype Worker = Worker(index: uint32, skip: bool, stage: Stage)

  /** executeTemplateWithTargets for one template. `pos` counts the targets taken from the
      provider, `index` is the 32-bit counter of the code, workers are keyed by target. */
  datatype Run = Run(
    from: Info, pos: nat, index: uint32, phase: Phase, workers: map<nat, Worker>,
    completed: bool, inFlight: set<uint32>)
  {
    function Saved(): Snapshot { Snapshot(completed, inFlight) }
  }

  datatype RunEvent =
    | Cancel | Exhaust | Register | HostError | Spawn
    | Execute(target: nat) | Cleanup(target: nat) | Release(target: nat) | Complete

  function NewRun(from: Info): Run {
    Run(from, 0, 0, Looping, map[], false, {})
  }

  function NextIndex(index: uint32): uint32 {
    if index == MAX_UINT32 then 0 else index + 1
  }

  predicate Enabled(c: Config, r: Run, e: RunEvent) {
    match e
    case Cancel => r.phase == Looping && r.pos < c.targets
    case Exhaust => r.phase == Looping && r.pos >= c.targets
    case Register => r.phase == Looping && r.pos < c.targets
    case HostError => r.phase.Registered?
    case Spawn => r.phase.Registered? && |r.workers| < c.pool
    case Execute(t) => t in r.workers && r.workers[t].stage == Spawned
    case Cleanup(t) => t in r.workers && r.workers[t].stage == Executed
    case Release(t) => t in r.workers && r.workers[t].stage == Cleaned
    case Complete => r.phase == Draining && r.workers == map[]
  }

  function Apply(c: Config, r: Run, e: RunEvent): Run
    requires Enabled(c, r, e)
  {
    match e
    case Cancel => r.(phase := Draining)
    case Exhaust => r.(phase := Draining)
    case Register => r.(phase := Registered(Skips(r.from, r.index)), inFlight := r.inFlight + {r.index})
    case HostError => r.(phase := Looping, pos := r.pos + 1)
    case Spawn =>
      r.(phase := Looping, pos := r.pos + 1, index := NextIndex(r.index),
         workers := r.workers[r.pos := Worker(r.index, r.phase.skip, Spawned)])
    case Execute(t) => r.(workers := r.workers[t := r.workers[t].(stage := Executed)])
    case Cleanup(t) =>
      r.(workers := r.workers[t := r.workers[t].(stage := Cleaned)], inFlight := r.inFlight - {r.workers[t].index})
    case Release(t) => r.(workers := r.workers - {t})
    case Complete => r.(phase := Done, completed := true)
  }

  /** A save under way: the records known when it began, and those cloned so far. */
  datatype Save = Idle | Saving(frozen: set<string>, taken: map<string, Snapshot>)

  /** A scan: the resume file it was started from, its running templates, and, over all runs so
      far, the (template, target) pairs whose execution came to an end. */
  datatype Scan = Scan(file: map<string, Snapshot>, runs: map<string, Run>, save: Save, executed: set<(string, nat)>)

  datatype Event =
    | Start(id: string)
    | Step(id: string, run: RunEvent)
    | Freeze                // the save takes the lock of the whole configuration
    | Capture(id: string)   // and clones one record after the other
    | Restart               // the process ends after a save, the next run loads the file
    | Crash                 // the process ends without one, the next run loads the old file

  datatype Option<T> = None | Some(value: T)

  const INITIAL := Scan(map[], map[], Idle, {})

  ghost function From(file: map<string, Snapshot>, id: string): Info {
    if id in file then Compiled(file[id]) else FRESH
  }

  predicate SaveFinished(s: Save) {
    s.Saving? && s.taken.Keys == s.frozen
  }

  predicate CanHappen(c: Config, s: Scan, e: Event) {
    match e
    case Start(id) => id in c.ids && id !in s.runs && (s.save.Idle? || SaveFinished(s.save))
    case Step(id, re) => id in s.runs && Enabled(c, s.runs[id], re)
    case Freeze => s.save.Idle?
    case Capture(id) => s.save.Saving? && id in s.save.frozen && id !in s.save.taken && id in s.runs
    case Restart => SaveFinished(s.save)
    case Crash => true
  }

  /** The execution an event finishes, if any. */
  function Finishes(s: Scan, e: Event): set<(string, nat)> {
    if e.Step? && e.run.Execute? && e.id in s.runs && e.run.target in s.runs[e.id].workers
       && !s.runs[e.id].workers[e.run.target].skip
    then {(e.id, e.run.target)} else {}
  }

  ghost function After(c: Config, s: Scan, e: Event): Scan
    requires CanHappen(c, s, e)
  {
    match e
    case Start(id) => s.(runs := s.runs[id := NewRun(From(s.file, id))])
    case Step(id, re) => s.(runs := s.runs[id := Apply(c, s.runs[id], re)], executed := s.executed + Finishes(s, e))
    case Freeze => s.(save := Saving(s.runs.Keys, map[]))
    case Capture(id) => s.(save := s.save.(taken := s.save.taken[id := s.runs[id].Saved()]))
    case Restart => Scan(s.save.taken, map[], Idle, s.executed)
    case Crash => Scan(s.file, map[], Idle, s.executed)
  }

  /** What a schedule may contain beyond plain interruptions. */
  datatype Hazard = HostErrors | Cancellation | EmptySnapshots

  predicate Hazardous(s: Scan, e: Event, h: Hazard) {
    match h
    case HostErrors => e.Step? && e.run.HostError?
    case Cancellation => e.Step? && e.run.Cancel?
    case EmptySnapshots => e.Capture? && e.id in s.runs && !s.runs[e.id].completed && s.runs[e.id].inFlight == {}
  }

  /** The scan after a schedule from the very first start, when the schedule is possible and shows
      no other hazards than the given ones. */
  ghost function Reached(c: Config, hazards: set<Hazard>, es: seq<Event>): Option<Scan> {
    if es == [] then Some(INITIAL)
    else
      var last := |es| - 1;
      match Reached(c, hazards, es[..last])
      case None => None
      case Some(s) =>
        if CanHappen(c, s, es[last]) && forall h :: Hazardous(s, es[last], h) ==> h in hazards
        then Some(After(c, s, es[last])) else None
  }

  // ---- The tracking invariant of one run ----

  ghost predicate Owns(r: Run, t: nat) {
    t in r.workers && r.workers[t].stage != Cleaned
  }

  /** The loop position, the workers and the in-flight set fit together. */
  ghost predicate Tracking(c: Config, r: Run) {
    && r.pos <= c.targets
    && (r.pos < c.targets ==> r.index == r.pos)
    && (r.phase.Registered? ==> r.pos < c.targets && r.phase.skip == Skips(r.from, r.index))
    && (r.phase.Done? ==> r.workers == map[])
    && (r.completed <==> r.phase.Done?)
    && |r.workers| <= c.pool
    && (forall t | t in r.workers :: t < r.pos && r.workers[t].index == t && r.workers[t].skip == Skips(r.from, t))
    && (forall i: uint32 :: i in r.inFlight <==> (r.phase.Registered? && i == r.index) || Owns(r, i))
  }

  /** The loop ends only with all targets taken. */
  predicate Through(c: Config, r: Run) {
    r.phase.Draining? || r.phase.Done? ==> r.pos == c.targets
  }

  lemma ThroughHolds(c: Config, r: Run, e: RunEvent)
    requires r.pos <= c.targets && Through(c, r) && Enabled(c, r, e) && !e.Cancel?
    ensures Through(c, Apply(c, r, e))
  {
  }

  /** The index a target gets when every target before it advanced the 32-bit counter. */
  function IndexOf(target: nat): (index: uint32)
    ensures target <= MAX_UINT32 ==> index == target
  {
    if target == 0 then 0 else NextIndex(IndexOf(target - 1))
  }

  /** What a target has gone through is what its worker's stage says. */
  ghost predicate Accounted(c: Config, r: Run, id: string, executed: set<(string, nat)>) {
    && (forall t: nat | t < r.pos && t !in r.workers :: Skips(r.from, IndexOf(t)) || (id, t) in executed)
    && (forall t | t in r.workers && r.workers[t].stage != Spawned :: r.workers[t].skip || (id, t) in executed)
  }

  /** Every target that a record makes a run pass over was executed before. */
  ghost predicate Safe(c: Config, from: Info, id: string, executed: set<(string, nat)>) {
    forall t: uint32 | t < c.targets && Skips(from, t) :: (id, t) in executed
  }

  lemma SpawnTracks(c: Config, r: Run)
    requires c.targets <= MAX_UINT32 + 1 && Tracking(c, r) && Enabled(c, r, Spawn)
    ensures Tracking(c, Apply(c, r, Spawn))
  {
    assert Apply(c, r, Spawn).workers.Keys == r.workers.Keys + {r.pos};
  }

  lemma WorkerTracks(c: Config, r: Run, e: RunEvent)
    requires c.targets <= MAX_UINT32 + 1 && Tracking(c, r) && Enabled(c, r, e) && (e.Execute? || e.Cleanup?)
    ensures Tracking(c, Apply(c, r, e))
  {
    assert Apply(c, r, e).workers.Keys == r.workers.Keys;
  }

  lemma ReleaseTracks(c: Config, r: Run, t: nat)
    requires c.targets <= MAX_UINT32 + 1 && Tracking(c, r) && Enabled(c, r, Release(t))
    ensures Tracking(c, Apply(c, r, Release(t)))
  {
    assert Apply(c, r, Release(t)).workers.Keys == r.workers.Keys - {t};
  }

  lemma TrackingHolds(c: Config, r: Run, e: RunEvent)
    requires c.targets <= MAX_UINT32 + 1
    requires Tracking(c, r) && Enabled(c, r, e) && !e.HostError?
    ensures Tracking(c, Apply(c, r, e))
  {
    match e {
      case Spawn => SpawnTracks(c, r);
      case Execute(t) => WorkerTracks(c, r, e);
      case Cleanup(t) => WorkerTracks(c, r, e);
      case Release(t) => ReleaseTracks(c, r, t);
      case _ =>
    }
  }

  lemma AccountedHolds(c: Config, r: Run, e: RunEvent, id: string,
      executed: set<(string, nat)>, executed': set<(string, nat)>)
    requires c.targets <= MAX_UINT32 + 1
    requires Tracking(c, r) && Enabled(c, r, e) && !e.HostError? && Accounted(c, r, id, executed)
    requires executed <= executed'
    requires e.Execute? && !r.workers[e.target].skip ==> (id, e.target) in executed'
    ensures Accounted(c, Apply(c, r, e), id, executed')
  {
    var r' := Apply(c, r, e);
    forall t: nat | t < r'.pos && t !in r'.workers
      ensures Skips(r'.from, IndexOf(t)) || (id, t) in executed'
    {
      if t in r.workers {
        assert r.workers[t].stage != Spawned;
        assert r.workers[t].skip == Skips(r.from, IndexOf(t));
      }
    }
  }

  /** A target that was taken and is no longer in flight has been executed, now or by an earlier run. */
  lemma NotInFlightIsExecuted(c: Config, r: Run, id: string, executed: set<(string, nat)>, t: nat)
    requires c.targets <= MAX_UINT32 + 1
    requires Tracking(c, r) && Accounted(c, r, id, executed) && Safe(c, r.from, id, executed)
    requires t < r.pos && t !in r.inFlight
    ensures (id, t) in executed
  {
    var index: uint32 := t;
    if t in r.workers {
      assert !Owns(r, index);
      assert r.workers[t].skip ==> Skips(r.from, index);
    }
  }

  /** A template marked completed has been executed on every target. */
  lemma CompletedMeansAllExecuted(c: Config, r: Run, id: string, executed: set<(string, nat)>)
    requires c.targets <= MAX_UINT32 + 1
    requires Tracking(c, r) && Through(c, r) && Accounted(c, r, id, executed) && Safe(c, r.from, id, executed)
    requires r.completed
    ensures forall t: nat | t < c.targets :: (id, t) in executed
  {
    forall t: nat | t < c.targets ensures (id, t) in executed {
      var index: uint32 := t;
      assert !Owns(r, index);
      NotInFlightIsExecuted(c, r, id, executed, t);
    }
  }

  // ---- What holds for any number of targets ----

  ghost predicate Owner(r: Run, i: uint32, t: nat) {
    Owns(r, t) && r.workers[t].index == i
  }

  /** Every index in flight belongs to a worker, or to the target about to get one. */
  ghost predicate Bookkept(c: Config, r: Run) {
    && r.index == IndexOf(r.pos) && |r.workers| <= c.pool && (r.phase.Done? ==> r.workers == map[])
    && (forall t | t in r.workers :: r.workers[t].index == IndexOf(t))
    && forall i: uint32 | i in r.inFlight :: (r.phase.Registered? && i == r.index) || exists t: nat :: Owner(r, i, t)
  }

  lemma BookkeepingHolds(c: Config, r: Run, e: RunEvent)
    requires Bookkept(c, r) && Enabled(c, r, e) && !e.HostError?
    ensures Bookkept(c, Apply(c, r, e))
  {
    var r' := Apply(c, r, e);
    SlotsHold(c, r, e);
    forall i: uint32 | i in r'.inFlight
      ensures (r'.phase.Registered? && i == r'.index) || exists t: nat :: Owner(r', i, t)
    {
      if t: nat :| Owner(r, i, t) {
        assert Owner(r', i, t);
      } else if e.Spawn? {
        assert Owner(r', i, r.pos);
      }
    }
  }

  lemma SlotsHold(c: Config, r: Run, e: RunEvent)
    requires Bookkept(c, r) && Enabled(c, r, e)
    ensures |Apply(c, r, e).workers| <= c.pool
  {
    var r' := Apply(c, r, e);
    match e {
      case Spawn => Smaller(r'.workers.Keys, r.workers.Keys + {r.pos});
      case Execute(t) => assert r'.workers.Keys == r.workers.Keys;
      case Cleanup(t) => assert r'.workers.Keys == r.workers.Keys;
      case Release(t) => Smaller(r'.workers.Keys, r.workers.Keys);
      case _ =>
    }
  }

  /** At most one index more than the pool holds is in flight, and none at completion. */
  lemma InFlightBound(c: Config, r: Run)
    requires Bookkept(c, r)
    ensures |r.inFlight| <= |r.workers| + 1 <= c.pool + 1
    ensures r.phase.Done? ==> r.inFlight == {}
  {
    var others := r.inFlight - {r.index};
    if !r.phase.Registered? { others := r.inFlight; }
    forall i | i in others ensures exists t :: t in r.workers.Keys && r.workers[t].index == i {
      var t: nat :| Owner(r, i, t);
    }
    OwnersFit(others, r.workers.Keys, r.workers);
    assert r.inFlight <= others + {r.index};
    Smaller(r.inFlight, others + {r.index});
    assert |r.workers.Keys| == |r.workers|;
  }

  lemma {:induction false} OwnersFit(indexes: set<uint32>, keys: set<nat>, workers: map<nat, Worker>)
    requires keys <= workers.Keys && forall i | i in indexes :: exists t :: t in keys && workers[t].index == i
    ensures |indexes| <= |keys|
    decreases |keys|
  {
    if t :| t in keys {
      var i := workers[t].index;
      forall j | j in indexes - {i} ensures exists u :: u in keys - {t} && workers[u].index == j {
        var u :| u in keys && workers[u].index == j;
        assert u in keys - {t};
      }
      OwnersFit(indexes - {i}, keys - {t}, workers);
      Smaller(indexes, indexes - {i} + {i});
    } else {
      assert indexes == {};
    }
  }

  /** A snapshot with something in flight, or of a completed template, compiles to a safe window. */
  lemma SnapshotIsSafe(c: Config, r: Run, id: string, executed: set<(string, nat)>)
    requires c.targets <= MAX_UINT32 + 1
    requires Tracking(c, r) && Through(c, r) && Accounted(c, r, id, executed) && Safe(c, r.from, id, executed)
    requires r.completed || r.inFlight != {}
    ensures Safe(c, Compiled(r.Saved()), id, executed)
  {
    if r.completed {
      CompletedMeansAllExecuted(c, r, id, executed);
    } else {
      forall t: uint32 | t < c.targets && Skips(Compiled(r.Saved()), t) ensures (id, t) in executed {
        CompiledSkips(r.Saved(), t);
        var j :| j in r.inFlight;
        assert t < j && t !in r.inFlight;
        NotInFlightIsExecuted(c, r, id, executed, t);
      }
    }
  }

  /** Exactly the snapshots taken with nothing in flight before completion cost the next run a
      target, unless all targets (but the one with the largest index) are executed already. */
  lemma SnapshotIsSafeExactly(c: Config, r: Run, id: string, executed: set<(string, nat)>)
    requires c.targets <= MAX_UINT32 + 1
    requires Tracking(c, r) && Through(c, r) && Accounted(c, r, id, executed) && Safe(c, r.from, id, executed)
    ensures Safe(c, Compiled(r.Saved()), id, executed) <==>
            r.completed || r.inFlight != {} || forall t: nat | t < c.targets && t != MAX_UINT32 :: (id, t) in executed
  {
    if r.completed || r.inFlight != {} {
      SnapshotIsSafe(c, r, id, executed);
    } else {
      forall t: uint32 ensures Skips(Compiled(r.Saved()), t) <==> t != MAX_UINT32 {
        EmptySnapshotSkipsEverything(t);
      }
      forall t: nat | Safe(c, Compiled(r.Saved()), id, executed) && t < c.targets && t != MAX_UINT32
        ensures (id, t) in executed
      {
        var index: uint32 := t;
        assert Skips(Compiled(r.Saved()), index);
      }
    }
  }

  // ---- Any number of runs ----

  ghost predicate Invariant(c: Config, s: Scan) {
    && (forall id | id in s.runs ::
          && s.runs[id].from == From(s.file, id) && Tracking(c, s.runs[id]) && Through(c, s.runs[id])
          && Accounted(c, s.runs[id], id, s.executed))
    && (forall id | id in s.file :: Safe(c, Compiled(s.file[id]), id, s.executed))
    && (s.save.Saving? ==> forall id | id in s.save.taken :: Safe(c, Compiled(s.save.taken[id]), id, s.executed))
  }

  lemma Grows(c: Config, s: Scan, executed': set<(string, nat)>)
    requires Invariant(c, s) && s.executed <= executed'
    ensures Invariant(c, s.(executed := executed'))
  {
    forall id | id in s.file ensures Safe(c, Compiled(s.file[id]), id, executed') {
      assert Safe(c, Compiled(s.file[id]), id, s.executed);
    }
    if s.save.Saving? {
      forall id | id in s.save.taken ensures Safe(c, Compiled(s.save.taken[id]), id, executed') {
        assert Safe(c, Compiled(s.save.taken[id]), id, s.executed);
      }
    }
    forall id | id in s.runs ensures Accounted(c, s.runs[id], id, executed') {
      assert Accounted(c, s.runs[id], id, s.executed);
    }
  }

  lemma StepKeepsInvariant(c: Config, s: Scan, id: string, re: RunEvent)
    requires c.targets <= MAX_UINT32 + 1
    requires Invariant(c, s) && CanHappen(c, s, Step(id, re)) && !re.HostError? && !re.Cancel?
    ensures Invariant(c, After(c, s, Step(id, re)))
  {
    var grown := s.(executed := s.executed + Finishes(s, Step(id, re)));
    Grows(c, s, grown.executed);
    TrackingHolds(c, s.runs[id], re);
    ThroughHolds(c, s.runs[id], re);
    AccountedHolds(c, s.runs[id], re, id, s.executed, grown.executed);
  }

  lemma CaptureKeepsInvariant(c: Config, s: Scan, id: string)
    requires c.targets <= MAX_UINT32 + 1
    requires Invariant(c, s) && CanHappen(c, s, Capture(id))
    requires s.runs[id].completed || s.runs[id].inFlight != {}
    ensures Invariant(c, After(c, s, Capture(id)))
  {
    assert Safe(c, From(s.file, id), id, s.executed);
    SnapshotIsSafe(c, s.runs[id], id, s.executed);
  }

  lemma StartKeepsInvariant(c: Config, s: Scan, id: string)
    requires Invariant(c, s) && CanHappen(c, s, Start(id))
    ensures Invariant(c, After(c, s, Start(id)))
  {
    var r := NewRun(From(s.file, id));
    assert Tracking(c, r) && Through(c, r) && Accounted(c, r, id, s.executed);
    forall other | other in s.runs ensures After(c, s, Start(id)).runs[other] == s.runs[other] {}
  }

  lemma InvariantHolds(c: Config, s: Scan, e: Event)
    requires c.targets <= MAX_UINT32 + 1
    requires Invariant(c, s) && CanHappen(c, s, e)
    requires forall h :: !Hazardous(s, e, h)
    ensures Invariant(c, After(c, s, e))
  {
    match e {
      case Step(id, re) =>
        assert !Hazardous(s, e, HostErrors) && !Hazardous(s, e, Cancellation);
        StepKeepsInvariant(c, s, id, re);
      case Capture(id) =>
        assert !Hazardous(s, e, EmptySnapshots);
        CaptureKeepsInvariant(c, s, id);
      case Start(id) =>
        StartKeepsInvariant(c, s, id);
      case _ =>
    }
  }

  lemma {:induction false} ReachedInvariant(c: Config, es: seq<Event>)
    requires c.targets <= MAX_UINT32 + 1
    requires Reached(c, {}, es).Some?
    ensures Invariant(c, Reached(c, {}, es).value)
  {
    if es != [] {
      var last := |es| - 1;
      ReachedInvariant(c, es[..last]);
      InvariantHolds(c, Reached(c, {}, es[..last]).value, es[last]);
    }
  }

  /** Over any number of interrupted runs: a window starts where all before is executed, a
      completed record stands for all targets, and so does a template that a run finished. */
  lemma ResumeAtLeastOnce(c: Config, es: seq<Event>)
    requires c.targets <= MAX_UINT32 + 1
    requires Reached(c, {}, es).Some?
    ensures var s := Reached(c, {}, es).value;
      && (forall id, t: nat | id in s.file && t < c.targets && t < Compiled(s.file[id]).skipUnder :: (id, t) in s.executed)
      && (forall id, t: nat | id in s.file && t < c.targets && s.file[id].completed :: (id, t) in s.executed)
      && (forall id, t: nat | id in s.runs && t < c.targets && s.runs[id].completed :: (id, t) in s.executed)
  {
    ReachedInvariant(c, es);
    var s := Reached(c, {}, es).value;
    forall id, t: nat | id in s.file && t < c.targets && (s.file[id].completed || t < Compiled(s.file[id]).skipUnder)
      ensures (id, t) in s.executed
    {
      var index: uint32 := t;
      assert Skips(Compiled(s.file[id]), index);
    }
    forall id | id in s.runs && s.runs[id].completed
      ensures forall t: nat | t < c.targets :: (id, t) in s.executed
    {
      assert Safe(c, From(s.file, id), id, s.executed);
      CompletedMeansAllExecuted(c, s.runs[id], id, s.executed);
    }
  }

  /** Without hazards a target that was taken is in flight or executed. */
  lemma InFlightOrExecuted(c: Config, es: seq<Event>, id: string)
    requires c.targets <= MAX_UINT32 + 1
    requires Reached(c, {}, es).Some? && id in Reached(c, {}, es).value.runs
    ensures var s := Reached(c, {}, es).value; var r := s.runs[id];
      forall t: nat | t < r.pos :: t in r.inFlight || (id, t) in s.executed
  {
    ReachedInvariant(c, es);
    var s := Reached(c, {}, es).value;
    var r := s.runs[id];
    assert Safe(c, From(s.file, id), id, s.executed);
    forall t: nat | t < r.pos && t !in r.inFlight ensures (id, t) in s.executed {
      NotInFlightIsExecuted(c, r, id, s.executed, t);
    }
  }

  // ---- Tracking under cancellations and bad snapshots ----

  /** What the records of a scan say about its running templates, whatever they were started from. */
  ghost predicate Tracked(c: Config, s: Scan, id: string)
    requires id in s.runs
  {
    var r := s.runs[id];
    Bookkept(c, r) && (c.targets <= MAX_UINT32 + 1 ==> Tracking(c, r) && Accounted(c, r, id, s.executed))
  }

  lemma TrackedHolds(c: Config, s: Scan, e: Event, id: string)
    requires (forall other | other in s.runs :: Tracked(c, s, other)) && CanHappen(c, s, e)
    requires !Hazardous(s, e, HostErrors) && id in After(c, s, e).runs
    ensures Tracked(c, After(c, s, e), id)
  {
    var s' := After(c, s, e);
    if e.Step? && e.id == id {
      BookkeepingHolds(c, s.runs[id], e.run);
      if c.targets <= MAX_UINT32 + 1 {
        TrackingHolds(c, s.runs[id], e.run);
        AccountedHolds(c, s.runs[id], e.run, id, s.executed, s'.executed);
      }
    } else if id in s.runs && e != Start(id) {
      assert Tracked(c, s, id) && s'.runs[id] == s.runs[id];
    }
  }

  lemma {:induction false} ReachedTracked(c: Config, hazards: set<Hazard>, es: seq<Event>)
    requires Reached(c, hazards, es).Some? && HostErrors !in hazards
    ensures forall id | id in Reached(c, hazards, es).value.runs :: Tracked(c, Reached(c, hazards, es).value, id)
  {
    if es != [] {
      var last := |es| - 1;
      ReachedTracked(c, hazards, es[..last]);
      var s := Reached(c, hazards, es[..last]).value;
      forall id | id in After(c, s, es[last]).runs ensures Tracked(c, After(c, s, es[last]), id) {
        TrackedHolds(c, s, es[last], id);
      }
    }
  }

  /** In every state of every run without host-error skips, cancelled or not and whatever it was
      started from: an index in flight belongs to a worker that holds a slot or to the target about
      to get one, the pool bounds their number, and completion leaves none. While indexes do not
      wrap, each target that was taken is in flight, passed over, or executed, and its owner is
      its own worker. */
  lemma InFlightTracking(c: Config, hazards: set<Hazard>, es: seq<Event>, id: string)
    requires HostErrors !in hazards
    requires Reached(c, hazards, es).Some? && id in Reached(c, hazards, es).value.runs
    ensures var s := Reached(c, hazards, es).value; var r := s.runs[id];
      && (forall i | i in r.inFlight :: (r.phase.Registered? && i == r.index) || exists t: nat :: Owner(r, i, t))
      && |r.inFlight| <= |r.workers| + 1 && |r.workers| <= c.pool
      && (r.phase.Done? ==> r.inFlight == {})
      && (c.targets <= MAX_UINT32 + 1 ==>
            && (forall t: nat | t < r.pos :: t in r.inFlight || Skips(r.from, IndexOf(t)) || (id, t) in s.executed)
            && (forall i | i in r.inFlight :: (r.phase.Registered? && i == r.pos) || (i < r.pos && Owns(r, i))))
  {
    ReachedTracked(c, hazards, es);
    var s := Reached(c, hazards, es).value;
    var r := s.runs[id];
    assert Tracked(c, s, id);
    InFlightBound(c, r);
    if c.targets <= MAX_UINT32 + 1 {
      forall t: nat | t < r.pos && t !in r.inFlight ensures Skips(r.from, IndexOf(t)) || (id, t) in s.executed {
        var index: uint32 := t;
        if t in r.workers { assert !Owns(r, index) && r.workers[t].skip == Skips(r.from, index); }
      }
    }
  }

  // ---- The hypotheses are the right ones ----

  /** Every template that the final run of a schedule marks completed has met every target. */
  ghost predicate Covers(c: Config, hazards: set<Hazard>, es: seq<Event>) {
    var end := Reached(c, hazards, es);
    end.Some? ==>
      forall id, t: nat | id in end.value.runs && end.value.runs[id].completed && t < c.targets ::
        (id, t) in end.value.executed
  }

  /** A scan that executes one template alone, between two targets. */
  ghost predicate Between(s: Scan, id: string, from: Info, pos: nat) {
    s.runs == map[id := NewRun(from).(pos := pos, index := IndexOf(pos))]
  }

  lemma Extend(c: Config, hazards: set<Hazard>, es: seq<Event>, e: Event) returns (es': seq<Event>)
    requires Reached(c, hazards, es).Some?
    requires CanHappen(c, Reached(c, hazards, es).value, e)
    requires forall h :: Hazardous(Reached(c, hazards, es).value, e, h) ==> h in hazards
    ensures es' == es + [e]
    ensures Reached(c, hazards, es') == Some(After(c, Reached(c, hazards, es).value, e))
  {
    es' := es + [e];
    assert es'[..|es'| - 1] == es;
  }

  lemma StepAlone(c: Config, hazards: set<Hazard>, es: seq<Event>, id: string, r: Run, re: RunEvent) returns (es': seq<Event>)
    requires Reached(c, hazards, es).Some? && Reached(c, hazards, es).value.runs == map[id := r]
    requires Enabled(c, r, re) && !re.HostError? && !re.Cancel?
    ensures es' == es + [Step(id, re)] && Reached(c, hazards, es').Some?
    ensures var s, s' := Reached(c, hazards, es).value, Reached(c, hazards, es').value;
      && s'.runs == map[id := Apply(c, r, re)] && s'.file == s.file && s'.save == s.save
      && s'.executed == s.executed + if re.Execute? && !r.workers[re.target].skip then {(id, re.target)} else {}
  {
    es' := Extend(c, hazards, es, Step(id, re));
  }

  /** A spawned worker executes, is cleaned up and releases its slot while the loop stands still. */
  lemma WorkerEnds(c: Config, hazards: set<Hazard>, es: seq<Event>, id: string, r: Run, t: nat) returns (es': seq<Event>)
    requires Reached(c, hazards, es).Some? && Reached(c, hazards, es).value.runs == map[id := r]
    requires t in r.workers && r.workers[t].stage == Spawned
    ensures Step(id, Release(t)) in es' && Reached(c, hazards, es').Some?
    ensures var s, s' := Reached(c, hazards, es).value, Reached(c, hazards, es').value;
      && s'.runs == map[id := r.(workers := r.workers - {t}, inFlight := r.inFlight - {r.workers[t].index})]
      && s'.file == s.file && s'.save == s.save
      && s'.executed == s.executed + if r.workers[t].skip then {} else {(id, t)}
  {
    var w := r.workers[t];
    es' := StepAlone(c, hazards, es, id, r, Execute(t));
    var r1 := Apply(c, r, Execute(t));
    es' := StepAlone(c, hazards, es', id, r1, Cleanup(t));
    var r2 := Apply(c, r1, Cleanup(t));
    es' := StepAlone(c, hazards, es', id, r2, Release(t));
    assert es'[|es'| - 1] == Step(id, Release(t));
    assert r2.workers - {t} == r.workers - {t};
  }

  lemma OneTarget(c: Config, hazards: set<Hazard>, es: seq<Event>, id: string, from: Info, pos: nat) returns (es': seq<Event>)
    requires Reached(c, hazards, es).Some? && Between(Reached(c, hazards, es).value, id, from, pos)
    requires pos < c.targets && c.pool >= 1
    ensures Reached(c, hazards, es').Some?
    ensures var s, s' := Reached(c, hazards, es).value, Reached(c, hazards, es').value;
      && Between(s', id, from, pos + 1) && s'.file == s.file && s'.save == s.save
      && s'.executed == s.executed + if Skips(from, IndexOf(pos)) then {} else {(id, pos)}
  {
    var r0 := NewRun(from).(pos := pos, index := IndexOf(pos));
    es' := StepAlone(c, hazards, es, id, r0, Register);
    var r1 := Apply(c, r0, Register);
    es' := StepAlone(c, hazards, es', id, r1, Spawn);
    var r2 := NewRun(from).(pos := pos + 1, index := IndexOf(pos + 1), inFlight := {IndexOf(pos)},
                            workers := map[pos := Worker(IndexOf(pos), Skips(from, IndexOf(pos)), Spawned)]);
    assert Apply(c, r1, Spawn) == r2;
    es' := WorkerEnds(c, hazards, es', id, r2, pos);
    assert r2.(workers := r2.workers - {pos}, inFlight := r2.inFlight - {r2.workers[pos].index})
        == NewRun(from).(pos := pos + 1, index := IndexOf(pos + 1));
  }

  /** Targets taken one after the other: those passed over stay as they were. */
  lemma {:induction false} ManyTargets(c: Config, hazards: set<Hazard>, es: seq<Event>, id: string, from: Info, pos: nat, end: nat)
    returns (es': seq<Event>)
    requires Reached(c, hazards, es).Some? && Between(Reached(c, hazards, es).value, id, from, pos)
    requires pos <= end <= c.targets && c.pool >= 1
    ensures Reached(c, hazards, es').Some?
    ensures var s, s' := Reached(c, hazards, es).value, Reached(c, hazards, es').value;
      && Between(s', id, from, end) && s'.file == s.file && s'.save == s.save
      && forall p | p in s'.executed && p !in s.executed :: p.0 == id && pos <= p.1 < end && !Skips(from, IndexOf(p.1))
    decreases end - pos
  {
    if pos == end {
      es' := es;
    } else {
      es' := OneTarget(c, hazards, es, id, from, pos);
      es' := ManyTargets(c, hazards, es', id, from, pos + 1, end);
    }
  }

  lemma Finish(c: Config, hazards: set<Hazard>, es: seq<Event>, id: string) returns (es': seq<Event>)
    requires Reached(c, hazards, es).Some?
    requires id in Reached(c, hazards, es).value.runs
    requires var r := Reached(c, hazards, es).value.runs[id];
      r.workers == map[] && r.phase == Looping && r.pos == c.targets
    ensures es <= es' && Reached(c, hazards, es').Some?
    ensures var s, s' := Reached(c, hazards, es).value, Reached(c, hazards, es').value;
      && id in s'.runs && s'.runs[id].completed && s'.executed == s.executed
      && s'.runs[id].phase == Done && s'.runs[id].inFlight == s.runs[id].inFlight
  {
    es' := Extend(c, hazards, es, Step(id, Exhaust));
    es' := Extend(c, hazards, es', Step(id, Complete));
  }

  /** The first run of a template, alone, taken to its target `pos`. */
  lemma FirstRun(c: Config, hazards: set<Hazard>, id: string, pos: nat) returns (es: seq<Event>)
    requires id in c.ids && c.pool >= 1 && pos <= c.targets
    ensures Reached(c, hazards, es).Some?
    ensures var s := Reached(c, hazards, es).value;
      && Between(s, id, FRESH, pos) && s.file == map[] && s.save == Idle
      && forall p | p in s.executed :: p.0 == id && p.1 < pos
  {
    es := Extend(c, hazards, [], Start(id));
    es := ManyTargets(c, hazards, es, id, FRESH, 0, pos);
  }

  /** Saves the progress of a template and starts the next run from it. */
  lemma SaveAndRestart(c: Config, hazards: set<Hazard>, es: seq<Event>, id: string, r: Run) returns (es': seq<Event>)
    requires Reached(c, hazards, es).Some? && Reached(c, hazards, es).value.runs == map[id := r]
    requires Reached(c, hazards, es).value.save == Idle && id in c.ids
    requires r.completed || r.inFlight != {} || EmptySnapshots in hazards
    ensures Reached(c, hazards, es').Some?
    ensures var s, s' := Reached(c, hazards, es).value, Reached(c, hazards, es').value;
      Between(s', id, Compiled(r.Saved()), 0) && s'.executed == s.executed
  {
    es' := Extend(c, hazards, es, Freeze);
    es' := Extend(c, hazards, es', Capture(id));
    es' := Extend(c, hazards, es', Restart);
    es' := Extend(c, hazards, es', Start(id));
  }

  /** A run that starts from a record and passes over a target finishes without executing it. */
  lemma RunToTheEnd(c: Config, hazards: set<Hazard>, es: seq<Event>, id: string, from: Info, lost: nat)
    requires Reached(c, hazards, es).Some? && Between(Reached(c, hazards, es).value, id, from, 0)
    requires c.pool >= 1 && lost < c.targets && Skips(from, IndexOf(lost))
    requires (id, lost) !in Reached(c, hazards, es).value.executed
    ensures !AtLeastOnce(c, hazards)
  {
    var all := ManyTargets(c, hazards, es, id, from, 0, c.targets);
    all := Finish(c, hazards, all, id);
    assert !Covers(c, hazards, all);
  }

  /** Whatever the interruptions, a template marked completed has met every target. */
  ghost predicate AtLeastOnce(c: Config, hazards: set<Hazard>) {
    forall es :: Covers(c, hazards, es)
  }

  /** A save between two targets leaves nothing in flight, and the next run passes over everything. */
  lemma EmptySnapshotLoses(c: Config, hazards: set<Hazard>, id: string)
    requires EmptySnapshots in hazards && id in c.ids && c.pool >= 1 && c.targets >= 1
    ensures !AtLeastOnce(c, hazards)
  {
    var es := FirstRun(c, hazards, id, 0);
    var r := NewRun(FRESH);
    es := SaveAndRestart(c, hazards, es, id, r);
    EmptySnapshotSkipsEverything(0);
    RunToTheEnd(c, hazards, es, id, Compiled(r.Saved()), 0);
  }

  /** A cancelled context leaves the loop, and the template is marked completed all the same. */
  lemma CancellationLoses(c: Config, hazards: set<Hazard>, id: string)
    requires Cancellation in hazards && id in c.ids && c.pool >= 1 && c.targets >= 1
    ensures !AtLeastOnce(c, hazards)
  {
    var es := FirstRun(c, hazards, id, 0);
    es := Extend(c, hazards, es, Step(id, Cancel));
    es := Extend(c, hazards, es, Step(id, Complete));
    assert (id, 0) !in Reached(c, hazards, es).value.executed;
    assert !Covers(c, hazards, es);
  }

  /** A host-error skip does not advance the index. */
  lemma HostErrorAtFirstTarget(c: Config, hazards: set<Hazard>, es: seq<Event>, id: string, from: Info) returns (es': seq<Event>)
    requires HostErrors in hazards && c.targets >= 1
    requires Reached(c, hazards, es).Some? && Reached(c, hazards, es).value.runs == map[id := NewRun(from)]
    ensures Reached(c, hazards, es').Some?
    ensures Reached(c, hazards, es').value.runs == map[id := NewRun(from).(pos := 1, inFlight := {0})]
    ensures Reached(c, hazards, es').value.executed == Reached(c, hazards, es).value.executed
  {
    es' := StepAlone(c, hazards, es, id, NewRun(from), Register);
    var r := NewRun(from).(phase := Registered(Skips(from, 0)), inFlight := {0});
    assert Apply(c, NewRun(from), Register) == r;
    es' := Extend(c, hazards, es', Step(id, HostError));
  }

  lemma {:induction false} HostErrorsOnly(c: Config, hazards: set<Hazard>, es: seq<Event>, id: string, r: Run) returns (es': seq<Event>)
    requires HostErrors in hazards && r.phase == Looping && r.pos <= c.targets && r.workers == map[] && !r.completed
    requires Reached(c, hazards, es).Some? && Reached(c, hazards, es).value.runs == map[id := r]
    ensures Reached(c, hazards, es').Some?
    ensures var s' := Reached(c, hazards, es').value;
      && id in s'.runs && s'.runs[id].phase == Looping && s'.runs[id].pos == c.targets && s'.runs[id].workers == map[]
      && s'.executed == Reached(c, hazards, es).value.executed
      && (r.pos < c.targets || r.inFlight != {} ==> s'.runs[id].inFlight != {})
    decreases c.targets - r.pos
  {
    if r.pos == c.targets {
      es' := es;
    } else {
      es' := Extend(c, hazards, es, Step(id, Register));
      es' := Extend(c, hazards, es', Step(id, HostError));
      es' := HostErrorsOnly(c, hazards, es', id, Apply(c, Apply(c, r, Register), HostError));
    }
  }

  lemma HostErrorsLose(c: Config, hazards: set<Hazard>, id: string)
    requires HostErrors in hazards && id in c.ids && c.pool >= 1 && c.targets >= 1
    ensures !AtLeastOnce(c, hazards)
  {
    var es := FirstRun(c, hazards, id, 0);
    es := HostErrorsOnly(c, hazards, es, id, NewRun(FRESH));
    es := Finish(c, hazards, es, id);
    assert (id, 0) !in Reached(c, hazards, es).value.executed;
    assert !Covers(c, hazards, es);
  }

  /** A completed template has nothing in flight. */
  ghost predicate Drains(c: Config, hazards: set<Hazard>, es: seq<Event>) {
    var end := Reached(c, hazards, es);
    end.Some? ==> forall id | id in end.value.runs && end.value.runs[id].phase.Done? :: end.value.runs[id].inFlight == {}
  }

  /** Completion leaves nothing in flight, for all schedules, exactly without host-error skips. */
  lemma DrainsExactly(c: Config, hazards: set<Hazard>)
    requires c.ids != {} && c.pool >= 1 && c.targets >= 1
    ensures (forall es :: Drains(c, hazards, es)) <==> HostErrors !in hazards
  {
    if HostErrors in hazards {
      var id :| id in c.ids;
      var es := FirstRun(c, hazards, id, 0);
      es := HostErrorsOnly(c, hazards, es, id, NewRun(FRESH));
      es := Finish(c, hazards, es, id);
      assert !Drains(c, hazards, es);
    } else {
      forall es ensures Drains(c, hazards, es) {
        if Reached(c, hazards, es).Some? {
          forall id | id in Reached(c, hazards, es).value.runs
            ensures var r := Reached(c, hazards, es).value.runs[id]; r.phase.Done? ==> r.inFlight == {}
          {
            InFlightTracking(c, hazards, es, id);
          }
        }
      }
    }
  }

  /** More targets than 32-bit indexes: the target whose index is 0 again is taken for the first one. */
  lemma WrapAroundLoses(c: Config, hazards: set<Hazard>, id: string)
    requires id in c.ids && c.pool >= 1 && c.targets > MAX_UINT32 + 1
    ensures !AtLeastOnce(c, hazards)
  {
    var es := FirstRun(c, hazards, id, 1);
    var r := NewRun(FRESH).(pos := 1, index := IndexOf(1));
    es := StepAlone(c, hazards, es, id, r, Register);
    r := Apply(c, r, Register);
    es := SaveAndRestart(c, hazards, es, id, r);
    assert r.Saved() == Snapshot(false, {1});
    assert IndexOf(MAX_UINT32 + 1) == 0;
    CompiledSkips(r.Saved(), 0);
    RunToTheEnd(c, hazards, es, id, Compiled(r.Saved()), MAX_UINT32 + 1);
  }

  /** Resuming executes every target at least once exactly when there are no more targets than
      32-bit indexes, no host-error skips, no cancellation, and no save with nothing in flight. */
  lemma ResumeAtLeastOnceExactly(c: Config, hazards: set<Hazard>)
    requires c.ids != {} && c.pool >= 1 && c.targets >= 1
    ensures AtLeastOnce(c, hazards) <==> hazards == {} && c.targets <= MAX_UINT32 + 1
  {
    var id :| id in c.ids;
    if HostErrors in hazards {
      HostErrorsLose(c, hazards, id);
    } else if Cancellation in hazards {
      CancellationLoses(c, hazards, id);
    } else if EmptySnapshots in hazards {
      EmptySnapshotLoses(c, hazards, id);
    } else {
      forall h: Hazard ensures h !in hazards { match h { case HostErrors => case Cancellation => case EmptySnapshots => } }
      assert hazards == {};
      if c.targets > MAX_UINT32 + 1 {
        WrapAroundLoses(c, hazards, id);
      } else {
        forall es ensures Covers(c, hazards, es) {
          if Reached(c, {}, es).Some? { ResumeAtLeastOnce(c, es); }
        }
      }
    }
  }

  /** A skipped worker for target 1 that took index 0, up to completion. */
  lemma ShiftedTarget(c: Config, es: seq<Event>, id: string, from: Info) returns (es': seq<Event>)
    requires c.pool >= 1 && c.targets == 2 && Skips(from, 0)
    requires Reached(c, {HostErrors}, es).Some?
    requires Reached(c, {HostErrors}, es).value.runs == map[id := NewRun(from).(pos := 1, inFlight := {0})]
    ensures Reached(c, {HostErrors}, es').Some? && Step(id, Release(1)) in es'
    ensures id in Reached(c, {HostErrors}, es').value.runs && Reached(c, {HostErrors}, es').value.runs[id].completed
    ensures Reached(c, {HostErrors}, es').value.executed == Reached(c, {HostErrors}, es).value.executed
  {
    var hs := {HostErrors};
    var r0 := NewRun(from).(pos := 1, inFlight := {0});
    es' := StepAlone(c, hs, es, id, r0, Register);
    var r1 := r0.(phase := Registered(true));
    assert Apply(c, r0, Register) == r1;
    es' := StepAlone(c, hs, es', id, r1, Spawn);
    var r2 := r0.(pos := 2, index := 1, workers := map[1 := Worker(0, true, Spawned)]);
    assert Apply(c, r1, Spawn) == r2;
    es' := WorkerEnds(c, hs, es', id, r2, 1);
    es' := Finish(c, hs, es', id);
  }

  /** A host-error skip in a resumed run shifts the indexes: a target that was in flight at the
      interruption, and whose own host is fine, is taken for one that is done. */
  lemma HostErrorShiftLosesAnotherTarget(c: Config, id: string) returns (es: seq<Event>)
    requires id in c.ids && c.pool >= 1 && c.targets == 2
    ensures Reached(c, {HostErrors}, es).Some? && Step(id, Release(1)) in es
    ensures id in Reached(c, {HostErrors}, es).value.runs && Reached(c, {HostErrors}, es).value.runs[id].completed
    ensures (id, 1) !in Reached(c, {HostErrors}, es).value.executed
  {
    var hs := {HostErrors};
    es := FirstRun(c, hs, id, 1);
    var r := NewRun(FRESH).(pos := 1, index := IndexOf(1));
    es := StepAlone(c, hs, es, id, r, Register);
    r := Apply(c, r, Register);
    es := SaveAndRestart(c, hs, es, id, r);
    var from := Compiled(r.Saved());
    CompiledSkips(r.Saved(), 0);
    es := HostErrorAtFirstTarget(c, hs, es, id, from);
    es := ShiftedTarget(c, es, id, from);
  }
}
