/** A single workflow step: what it reports, and which subtemplates it starts, as a function of
    what its executers do. The outcomes of the executers are fixed by an oracle. */
module WorkflowStep {

  /** A matcher whose condition was never compiled, or was unknown, has no condition. */
  datatype Condition = Unset | And | Or

  datatype Matcher = Matcher(names: seq<string>, condition: Condition, subtemplates: seq<Step>)

  datatype Step = Step(matchers: seq<Matcher>, subtemplates: seq<Step>, executers: nat)

  /** An event logged by an executer: whether it carries an operators result, whether it carries
      result events, and the names that are found among its matches or extracts. */
  datatype Event = Event(operators: bool, results: bool, hits: set<string>)

  /** What one executer does: the boolean of Execute, whether it returns an error, the events it logs. */
  datatype Execution = Execution(matched: bool, failed: bool, events: seq<Event>)

  type Outcome = nat -> Execution

  /** Matcher.Compile: the default is OR, an unknown condition is an error and leaves none. */
  function CompileCondition(condition: string): (r: (Condition, bool))
    ensures r.1 <==> condition in {"", "and", "or"}
    ensures r.0 == Unset <==> !r.1
    ensures r.0 == And <==> condition == "and"
    ensures r.0 == Or <==> condition in {"", "or"}
  {
    if condition == "" then (Or, true)
    else if condition == "and" then (And, true)
    else if condition == "or" then (Or, true)
    else (Unset, false)
  }

  /** The meaning of a matcher: some name is found, all are, or (without a condition) the last one is. */
  predicate Matches(m: Matcher, e: Event) {
    && m.names != []
    && match m.condition
       case Or => exists i | 0 <= i < |m.names| :: m.names[i] in e.hits
       case And => forall i | 0 <= i < |m.names| :: m.names[i] in e.hits
       case Unset => m.names[|m.names| - 1] in e.hits
  }

  method Match(m: Matcher, e: Event) returns (matched: bool)
    ensures matched == Matches(m, e)
  {
    if |m.names| == 0 {
      return false;
    }
    for i := 0 to |m.names|
      invariant m.condition.Or? ==> forall j | 0 <= j < i :: m.names[j] !in e.hits
      invariant m.condition.And? ==> i < |m.names| && forall j | 0 <= j < i :: m.names[j] in e.hits
      invariant m.condition.Unset? && i == |m.names| ==> m.names[i - 1] !in e.hits
    {
      if m.names[i] !in e.hits {
        if m.condition.And? {
          return false;
        }
        continue;
      }
      if m.condition.Or? {
        return true;
      } else if |m.names| - 1 == i {
        return true;
      }
    }
    return false;
  }

  /** Some executer matched: through a logged event when the step has subtemplates, by its own word otherwise. */
  predicate FirstMatched(s: Step, out: Outcome) {
    s.matchers == [] && exists i: nat | i < s.executers :: ExecutionMatches(s, out(i))
  }

  predicate ExecutionMatches(s: Step, x: Execution) {
    if s.subtemplates == [] then x.matched
    else exists k | 0 <= k < |x.events| :: x.events[k].operators && x.events[k].results
  }

  /** What the step adds to the shared flag. */
  predicate Publishes(s: Step, out: Outcome) {
    s.subtemplates == [] && FirstMatched(s, out)
  }

  function MatcherForks(ms: seq<Matcher>, e: Event): (r: seq<Step>)
    ensures forall c | c in r :: exists m :: m in ms && c in m.subtemplates
  {
    if ms == [] then []
    else
      var rest := MatcherForks(ms[1..], e);
      if Matches(ms[0], e) then ms[0].subtemplates + rest else rest
  }

  function EventForks(ms: seq<Matcher>, es: seq<Event>): (r: seq<Step>)
    ensures forall c | c in r :: exists m :: m in ms && c in m.subtemplates
  {
    if es == [] then []
    else (if es[0].operators then MatcherForks(ms, es[0]) else []) + EventForks(ms, es[1..])
  }

  function ExecuterForks(ms: seq<Matcher>, out: Outcome, lo: nat, hi: nat): (r: seq<Step>)
    requires lo <= hi
    ensures forall c | c in r :: (exists m :: m in ms && c in m.subtemplates)
    decreases hi - lo
  {
    if lo == hi then [] else EventForks(ms, out(lo).events) + ExecuterForks(ms, out, lo + 1, hi)
  }

  /** The subtemplates the step starts, in the order in which it starts them. */
  function Forks(s: Step, out: Outcome): (r: seq<Step>)
    ensures forall c | c in r :: c < s
  {
    if s.matchers != [] then
      var r := ExecuterForks(s.matchers, out, 0, s.executers);
      assert forall m, c | m in s.matchers && c in m.subtemplates :: c < m < s;
      r
    else if s.subtemplates != [] && FirstMatched(s, out) then s.subtemplates
    else []
  }

  /** The error a step returns is that of its only executer. */
  predicate StepFails(s: Step, out: Outcome) {
    s.executers == 1 && out(0).failed
  }

  lemma {:induction false} EventForksSnoc(ms: seq<Matcher>, es: seq<Event>, k: nat)
    requires k < |es|
    ensures EventForks(ms, es[..k + 1]) == EventForks(ms, es[..k]) + if es[k].operators then MatcherForks(ms, es[k]) else []
  {
    if k > 0 {
      EventForksSnoc(ms, es[1..], k - 1);
      assert es[1..][..k] == es[..k + 1][1..] && es[1..][..k - 1] == es[..k][1..];
    }
  }

  lemma {:induction false} MatcherForksSnoc(ms: seq<Matcher>, e: Event, k: nat)
    requires k < |ms|
    ensures MatcherForks(ms[..k + 1], e) == MatcherForks(ms[..k], e) + if Matches(ms[k], e) then ms[k].subtemplates else []
  {
    if k > 0 {
      MatcherForksSnoc(ms[1..], e, k - 1);
      assert ms[1..][..k] == ms[..k + 1][1..] && ms[1..][..k - 1] == ms[..k][1..];
    }
  }

  lemma {:induction false} ExecuterForksSnoc(ms: seq<Matcher>, out: Outcome, lo: nat, k: nat)
    requires lo <= k
    ensures ExecuterForks(ms, out, lo, k + 1) == ExecuterForks(ms, out, lo, k) + EventForks(ms, out(k).events)
    decreases k - lo
  {
    if lo < k {
      ExecuterForksSnoc(ms, out, lo + 1, k);
    }
  }

  /** runWorkflowStep: `publish` is what is swapped into the shared flag, `forks` lists the
      subtemplates for which a slot is taken and a goroutine started, in order. */
  method RunWorkflowStep(s: Step, out: Outcome) returns (publish: bool, forks: seq<Step>, failed: bool)
    ensures publish == Publishes(s, out)
    ensures forks == Forks(s, out)
    ensures failed == StepFails(s, out)
  {
    var firstMatched := false;
    publish, forks, failed := false, [], false;
    if |s.matchers| == 0 {
      for i := 0 to s.executers
        invariant firstMatched == exists j: nat | j < i :: ExecutionMatches(s, out(j))
        invariant failed == (s.executers == 1 && i == 1 && out(0).failed)
      {
        var x := out(i);
        ghost var before := firstMatched;
        if |s.subtemplates| > 0 {
          for k := 0 to |x.events|
            invariant firstMatched == (before || exists l | 0 <= l < k :: x.events[l].operators && x.events[l].results)
          {
            if x.events[k].operators && x.events[k].results {
              firstMatched := true;
            }
          }
        } else if x.matched {
          firstMatched := true;
        }
        assert firstMatched == (before || ExecutionMatches(s, x));
        if x.failed {
          if s.executers == 1 {
            failed := true;
          }
        }
      }
    }
    if |s.subtemplates| == 0 {
      publish := firstMatched;
    }
    if |s.matchers| > 0 {
      for i := 0 to s.executers
        invariant forks == ExecuterForks(s.matchers, out, 0, i)
        invariant failed == (s.executers == 1 && i == 1 && out(0).failed)
      {
        var x := out(i);
        for k := 0 to |x.events|
          invariant forks == ExecuterForks(s.matchers, out, 0, i) + EventForks(s.matchers, x.events[..k])
        {
          EventForksSnoc(s.matchers, x.events, k);
          if x.events[k].operators {
            for j := 0 to |s.matchers|
              invariant forks == ExecuterForks(s.matchers, out, 0, i) + EventForks(s.matchers, x.events[..k])
                                 + MatcherForks(s.matchers[..j], x.events[k])
            {
              MatcherForksSnoc(s.matchers, x.events[k], j);
              var matched := Match(s.matchers[j], x.events[k]);
              if !matched {
                continue;
              }
              forks := forks + s.matchers[j].subtemplates;
            }
            assert s.matchers[..|s.matchers|] == s.matchers;
          }
        }
        assert x.events[..|x.events|] == x.events;
        ExecuterForksSnoc(s.matchers, out, 0, i);
        if x.failed {
          if s.executers == 1 {
            failed := true;
          }
          continue;
        }
      }
      return;
    }
    if |s.subtemplates| > 0 && firstMatched {
      for k := 0 to |s.subtemplates|
        invariant forks == s.subtemplates[..k]
      {
        forks := forks + [s.subtemplates[k]];
      }
    }
  }

  // ---- The tree of activations ----

  /** The outcomes of every activation, named by the fork numbers that lead to it. */
  type Oracle = seq<nat> -> Outcome

  /** An activation: what it publishes, and the activations it starts one after the other. */
  datatype Activation = Activation(publish: bool, children: seq<Activation>)

  function Unfold(s: Step, path: seq<nat>, oracle: Oracle): Activation
    decreases s
  {
    var forks := Forks(s, oracle(path));
    Activation(Publishes(s, oracle(path)),
               seq(|forks|, k requires 0 <= k < |forks| => assert forks[k] in forks; Unfold(forks[k], path + [k], oracle)))
  }

  /** The top-level steps of a workflow, the i-th activated under the path [i]. */
  function UnfoldAll(steps: seq<Step>, oracle: Oracle): (tops: seq<Activation>)
    ensures |tops| == |steps|
  {
    seq(|steps|, i requires 0 <= i < |steps| => Unfold(steps[i], [i], oracle))
  }

  /** Some activation of the tree publishes a match. */
  ghost predicate Reports(a: Activation) {
    a.publish || exists k | 0 <= k < |a.children| :: Reports(a.children[k])
  }

  /** The step that runs at the end of a path of forks below s, if the run gets there. */
  ghost predicate Reaches(s: Step, path: seq<nat>, oracle: Oracle, route: seq<nat>, end: Step)
    decreases |route|
  {
    if route == [] then s == end
    else
      var forks := Forks(s, oracle(path));
      route[0] < |forks| && Reaches(forks[route[0]], path + [route[0]], oracle, route[1..], end)
  }

  /** A step with neither matchers nor subtemplates one of whose executers matches. */
  ghost predicate LeafMatches(s: Step, out: Outcome) {
    s.matchers == [] && s.subtemplates == [] && exists i: nat | i < s.executers :: out(i).matched
  }

  lemma UnfoldParts(s: Step, path: seq<nat>, oracle: Oracle)
    ensures var a, forks := Unfold(s, path, oracle), Forks(s, oracle(path));
      && a.publish == Publishes(s, oracle(path)) && |a.children| == |forks|
      && forall k | 0 <= k < |forks| :: a.children[k] == Unfold(forks[k], path + [k], oracle)
  {
  }

  lemma PublishesLeaf(s: Step, out: Outcome)
    ensures Publishes(s, out) <==> LeafMatches(s, out)
  {
    if Publishes(s, out) {
      var i: nat :| i < s.executers && ExecutionMatches(s, out(i));
      assert out(i).matched;
    }
    if LeafMatches(s, out) {
      var i: nat :| i < s.executers && out(i).matched;
      assert ExecutionMatches(s, out(i));
    }
  }

  lemma ReportsFromChild(s: Step, path: seq<nat>, oracle: Oracle, k: nat)
    requires k < |Forks(s, oracle(path))|
    requires Reports(Unfold(Forks(s, oracle(path))[k], path + [k], oracle))
    ensures Reports(Unfold(s, path, oracle))
  {
    UnfoldParts(s, path, oracle);
  }

  lemma {:induction false} ReportsIfReached(s: Step, path: seq<nat>, oracle: Oracle, route: seq<nat>, end: Step)
    requires Reaches(s, path, oracle, route, end) && LeafMatches(end, oracle(path + route))
    ensures Reports(Unfold(s, path, oracle))
    decreases |route|
  {
    if route == [] {
      assert path + route == path;
      UnfoldParts(s, path, oracle);
      PublishesLeaf(s, oracle(path));
    } else {
      var k := route[0];
      assert path + route == (path + [k]) + route[1..];
      ReportsIfReached(Forks(s, oracle(path))[k], path + [k], oracle, route[1..], end);
      ReportsFromChild(s, path, oracle, k);
    }
  }

  lemma ReachesFurther(s: Step, path: seq<nat>, oracle: Oracle, k: nat, route: seq<nat>, end: Step)
    requires k < |Forks(s, oracle(path))|
    requires Reaches(Forks(s, oracle(path))[k], path + [k], oracle, route, end)
    ensures Reaches(s, path, oracle, [k] + route, end)
    ensures path + ([k] + route) == (path + [k]) + route
  {
    assert ([k] + route)[1..] == route;
  }

  lemma ReportingChild(s: Step, path: seq<nat>, oracle: Oracle) returns (k: nat, next: Step)
    requires Reports(Unfold(s, path, oracle)) && !LeafMatches(s, oracle(path))
    ensures k < |Forks(s, oracle(path))| && next == Forks(s, oracle(path))[k] && next < s
    ensures Reports(Unfold(next, path + [k], oracle))
  {
    UnfoldParts(s, path, oracle);
    PublishesLeaf(s, oracle(path));
    var a := Unfold(s, path, oracle);
    k :| 0 <= k < |a.children| && Reports(a.children[k]);
    next := Forks(s, oracle(path))[k];
    assert next in Forks(s, oracle(path));
  }

  lemma {:induction false} ReachedIfReports(s: Step, path: seq<nat>, oracle: Oracle) returns (route: seq<nat>, end: Step)
    requires Reports(Unfold(s, path, oracle))
    ensures Reaches(s, path, oracle, route, end) && LeafMatches(end, oracle(path + route))
    decreases s
  {
    if LeafMatches(s, oracle(path)) {
      route, end := [], s;
      assert path + route == path;
    } else {
      var k, next := ReportingChild(s, path, oracle);
      var rest;
      rest, end := ReachedIfReports(next, path + [k], oracle);
      ReachesFurther(s, path, oracle, k, rest, end);
      route := [k] + rest;
    }
  }

  /** A workflow step reports a match exactly when a step without matchers and subtemplates is
      reached and matches: all other steps only decide what is reached. */
  lemma ReportsExactly(s: Step, path: seq<nat>, oracle: Oracle)
    ensures Reports(Unfold(s, path, oracle)) <==>
            exists route, end :: Reaches(s, path, oracle, route, end) && LeafMatches(end, oracle(path + route))
  {
    if Reports(Unfold(s, path, oracle)) {
      var route, end := ReachedIfReports(s, path, oracle);
    }
    forall route, end | Reaches(s, path, oracle, route, end) && LeafMatches(end, oracle(path + route))
      ensures Reports(Unfold(s, path, oracle))
    {
      ReportsIfReached(s, path, oracle, route, end);
    }
  }
}
