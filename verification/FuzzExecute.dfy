/** The loops around a fuzzing rule: all its payloads on a component, and all components with all the
    value sets of the generator. */
module FuzzExecute {
  import opened FuzzComponent
  import opened FuzzRule

  /** The payloads of a rule: plain values, or pairs of a key and a value. */
  datatype Fuzz = Fuzz(value: seq<string>, kv: Option<seq<Payload>>)

  datatype Outcome = Nil | Failed(error: Error) | NoFuzzValues

  // ---- One component, one value set ----

  /** An impossible store ends a payload, any other error ends the rule. */
  ghost function Parts(rule: Rule, values: nat, ps: seq<Payload>, shared: set<string>, run: Run): Run
    decreases |ps|
  {
    if ps == [] then run.(error := Fine)
    else
      var one := Part(rule, values, ps[0], shared, run);
      if one.error == Fine || one.error == SetValueError then Parts(rule, values, ps[1..], shared, one.(error := Fine))
      else one
  }

  function ValueOnly(value: string): Payload { Payload("", value) }

  function ValuesOnly(value: seq<string>): (ps: seq<Payload>)
    ensures |ps| == |value| && forall i | 0 <= i < |ps| :: ps[i] == ValueOnly(value[i])
  {
    if value == [] then [] else ValuesOnly(value[..|value| - 1]) + [ValueOnly(value[|value| - 1])]
  }

  /** Storing a pair into the component itself, where a failure does not matter. */
  function StorePair(rule: Rule, values: nat, p: Payload, run: Run): Run {
    var e := Evaluate(rule, values, "", p.value, run.urls);
    match Stored(rule, run.contents, p.key, e.0)
    case None => run.(urls := e.1)
    case Some(v) => run.(urls := e.1, contents := run.contents[p.key := v])
  }

  function StorePairs(rule: Rule, values: nat, ps: seq<Payload>, run: Run): Run
    decreases |ps|
  {
    if ps == [] then run else StorePairs(rule, values, ps[1..], StorePair(rule, values, ps[0], run))
  }

  ghost function Pairs(rule: Rule, values: nat, ps: seq<Payload>, shared: set<string>, run: Run): Run {
    var tried := Parts(rule, values, ps, shared, run);
    if rule.single then tried
    else
      var sent := Offer(rule, StorePairs(rule, values, ps, tried.(error := Fine)), "", "");
      if sent.error != Fine then sent else sent.(error := tried.error)
  }

  /** What the payloads of a rule do; a rule without payloads does nothing. */
  ghost function RuleValues(rule: Rule, values: nat, fuzz: Fuzz, shared: set<string>, run: Run): Run {
    if fuzz.value != [] then Parts(rule, values, ValuesOnly(fuzz.value), shared, run)
    else if fuzz.kv.Some? then Pairs(rule, values, fuzz.kv.value, shared, run)
    else run
  }

  /** A list that was stored into the component itself is shared with its clones from then on. */
  ghost function NowShared(shared: set<string>, ps: seq<Payload>, contents: Contents): set<string> {
    shared + set p | p in ps && p.key in contents && contents[p.key].List? :: p.key
  }

  ghost function RuleShared(rule: Rule, fuzz: Fuzz, shared: set<string>, contents: Contents): set<string> {
    if fuzz.value == [] && fuzz.kv.Some? && !rule.single then NowShared(shared, fuzz.kv.value, contents) else shared
  }

  method ExecuteParts(rule: Rule, values: nat, ps: seq<Payload>, input: Input, c: Component) returns (error: Error)
    requires c.Valid()
    modifies input, c.Arrays()
    ensures c.Valid() && c.values == old(c.values)
    ensures StateOf(input, c, error) == Parts(rule, values, ps, SharedKeys(c), old(StateOf(input, c, Fine)))
  {
    ghost var start := StateOf(input, c, Fine);
    for i := 0 to |ps|
      invariant c.Valid() && c.values == old(c.values)
      invariant Parts(rule, values, ps[i..], SharedKeys(c), StateOf(input, c, Fine)) == Parts(rule, values, ps, SharedKeys(c), start)
    {
      assert ps[i..][0] == ps[i] && ps[i..][1..] == ps[i + 1..];
      error := ExecutePartComponent(rule, values, ps[i], input, c);
      if error != Fine && error != SetValueError { return; }
    }
    error := Fine;
  }

  method SetPair(rule: Rule, values: nat, p: Payload, input: Input, c: Component)
    requires c.Valid()
    modifies input, c, c.Arrays()
    ensures c.Valid() && fresh(c.Arrays() - old(c.Arrays()))
    ensures StateOf(input, c, Fine) == StorePair(rule, values, p, old(StateOf(input, c, Fine)))
    ensures SharedKeys(c) == NowShared(old(SharedKeys(c)), [p], c.Contents())
  {
    var _ := EvaluateAndSet(rule, values, "", p.value, input, c, p.key);
    OneShared(old(SharedKeys(c)), p, c.Contents());
  }

  lemma OneShared(shared: set<string>, p: Payload, contents: Contents)
    ensures NowShared(shared, [p], contents) == shared + if p.key in contents && contents[p.key].List? then {p.key} else {}
  {
    assert [p][0] == p;
  }

  /** A store keeps lists lists, and makes no new ones. */
  ghost predicate SameLists(before: Contents, after: Contents) {
    && (forall k | k in before :: k in after && after[k].List? == before[k].List?)
    && forall k | k in after && k !in before :: !after[k].List?
  }

  lemma StoreKeepsKinds(rule: Rule, values: nat, p: Payload, run: Run)
    ensures SameLists(run.contents, StorePair(rule, values, p, run).contents)
  {
  }

  lemma SharedNext(before: Contents, after: Contents, shared: set<string>, ps: seq<Payload>, i: nat)
    requires i < |ps| && SameLists(before, after)
    ensures NowShared(NowShared(shared, ps[..i], before), [ps[i]], after) == NowShared(shared, ps[..i + 1], after)
  {
    assert ps[..i + 1] == ps[..i] + [ps[i]];
  }

  method SetPairs(rule: Rule, values: nat, ps: seq<Payload>, input: Input, c: Component)
    requires c.Valid()
    modifies input, c, c.Arrays()
    ensures c.Valid() && fresh(c.Arrays() - old(c.Arrays()))
    ensures StateOf(input, c, Fine) == StorePairs(rule, values, ps, old(StateOf(input, c, Fine)))
    ensures SharedKeys(c) == NowShared(old(SharedKeys(c)), ps, c.Contents())
  {
    ghost var start := StateOf(input, c, Fine);
    for i := 0 to |ps|
      invariant c.Valid() && fresh(c.Arrays() - old(c.Arrays()))
      invariant StorePairs(rule, values, ps[i..], StateOf(input, c, Fine)) == StorePairs(rule, values, ps, start)
      invariant SharedKeys(c) == NowShared(old(SharedKeys(c)), ps[..i], c.Contents())
    {
      ghost var before, urls := c.Contents(), input.interactURLs;
      assert ps[i..][0] == ps[i] && ps[i..][1..] == ps[i + 1..];
      SetPair(rule, values, ps[i], input, c);
      StoreKeepsKinds(rule, values, ps[i], Run(before, urls, input.log, Fine));
      SharedNext(before, c.Contents(), old(SharedKeys(c)), ps, i);
    }
  }

  method ExecuteKV(rule: Rule, values: nat, ps: seq<Payload>, input: Input, c: Component) returns (error: Error)
    requires c.Valid()
    modifies input, c, c.Arrays()
    ensures c.Valid() && fresh(c.Arrays() - old(c.Arrays()))
    ensures StateOf(input, c, error) == Pairs(rule, values, ps, old(SharedKeys(c)), old(StateOf(input, c, Fine)))
    ensures SharedKeys(c) == if rule.single then old(SharedKeys(c)) else NowShared(old(SharedKeys(c)), ps, c.Contents())
  {
    error := ExecuteParts(rule, values, ps, input, c);
    if !rule.single {
      SetPairs(rule, values, ps, input, c);
      var sent := OfferRequest(rule, input, c, "", "");
      if sent != Fine { error := sent; }
    }
  }

  method ExecuteRuleValues(rule: Rule, values: nat, fuzz: Fuzz, input: Input, c: Component) returns (o: Outcome)
    requires c.Valid()
    modifies input, c, c.Arrays()
    ensures c.Valid() && fresh(c.Arrays() - old(c.Arrays()))
    ensures o.NoFuzzValues? <==> fuzz.value == [] && fuzz.kv == None
    ensures o.Failed? ==> o.error != Fine
    ensures StateOf(input, c, if o.Failed? then o.error else Fine)
            == RuleValues(rule, values, fuzz, old(SharedKeys(c)), old(StateOf(input, c, Fine)))
    ensures SharedKeys(c) == RuleShared(rule, fuzz, old(SharedKeys(c)), c.Contents())
  {
    var error := Fine;
    if |fuzz.value| > 0 {
      error := ExecuteParts(rule, values, ValuesOnly(fuzz.value), input, c);
    } else if fuzz.kv.Some? {
      error := ExecuteKV(rule, values, fuzz.kv.value, input, c);
    } else {
      return NoFuzzValues;
    }
    o := if error == Fine then Nil else Failed(error);
  }

  // ---- All components and value sets ----

  /** The outcome of a rule that has payloads, or not. */
  ghost function OutcomeOf(fuzz: Fuzz, error: Error): Outcome {
    if fuzz.value == [] && fuzz.kv == None then NoFuzzValues else if error == Fine then Nil else Failed(error)
  }

  /** A component, its shared keys, and the value sets it is executed with. */
  datatype Work = Work(contents: Contents, shared: set<string>, sets: seq<nat>)

  datatype Result = Result(run: Run, shared: set<string>, outcome: Outcome)

  /** One value set of a component, which starts with its own URLs. */
  ghost function OneSet(rule: Rule, fuzz: Fuzz, start: nat -> Urls, contents: Contents, shared: set<string>, values: nat, log: seq<Request>): Result {
    var one := RuleValues(rule, values, fuzz, shared, Run(contents, start(values), log, Fine));
    Result(one, RuleShared(rule, fuzz, shared, one.contents), OutcomeOf(fuzz, one.error))
  }

  /** The value sets of one component, one after the other. */
  ghost function Sets(rule: Rule, fuzz: Fuzz, start: nat -> Urls, w: Work, log: seq<Request>): Result
    decreases |w.sets|
  {
    if w.sets == [] then Result(Run(w.contents, [], log, Fine), w.shared, Nil)
    else
      var one := OneSet(rule, fuzz, start, w.contents, w.shared, w.sets[0], log);
      if one.outcome != Nil then one
      else Sets(rule, fuzz, start, Work(one.run.contents, one.shared, w.sets[1..]), one.run.log)
  }

  /** All components, up to the first that fails. */
  ghost function All(rule: Rule, fuzz: Fuzz, start: nat -> Urls, works: seq<Work>, log: seq<Request>): (seq<Request>, Outcome)
    decreases |works|
  {
    if works == [] then (log, Nil)
    else
      var one := Sets(rule, fuzz, start, works[0], log);
      if one.outcome != Nil then (one.run.log, one.outcome) else All(rule, fuzz, start, works[1..], one.run.log)
  }

  /** With a generator, a refusal of the callback ends the rule without an error. */
  function Returned(generator: bool, o: Outcome): Outcome {
    if generator && o == Failed(NoMoreRequests) then Nil else o
  }

  method ExecuteSet(rule: Rule, fuzz: Fuzz, start: nat -> Urls, values: nat, input: Input, c: Component) returns (o: Outcome)
    requires c.Valid()
    modifies input, c, c.Arrays()
    ensures c.Valid() && fresh(c.Arrays() - old(c.Arrays()))
    ensures var r := OneSet(rule, fuzz, start, old(c.Contents()), old(SharedKeys(c)), values, old(input.log));
            input.log == r.run.log && c.Contents() == r.run.contents && SharedKeys(c) == r.shared && o == r.outcome
  {
    input.interactURLs := start(values);
    o := ExecuteRuleValues(rule, values, fuzz, input, c);
  }

  method ExecuteSets(rule: Rule, fuzz: Fuzz, start: nat -> Urls, sets: seq<nat>, input: Input, c: Component) returns (o: Outcome)
    requires c.Valid()
    modifies input, c, c.Arrays()
    ensures c.Valid() && fresh(c.Arrays() - old(c.Arrays()))
    ensures var r := Sets(rule, fuzz, start, old(WorkOf(c, sets)), old(input.log));
            input.log == r.run.log && c.Contents() == r.run.contents && SharedKeys(c) == r.shared && o == r.outcome
  {
    ghost var work, log := WorkOf(c, sets), input.log;
    for i := 0 to |sets|
      invariant c.Valid() && fresh(c.Arrays() - old(c.Arrays()))
      invariant Sets(rule, fuzz, start, WorkOf(c, sets[i..]), input.log) == Sets(rule, fuzz, start, work, log)
    {
      assert sets[i..][0] == sets[i] && sets[i..][1..] == sets[i + 1..];
      o := ExecuteSet(rule, fuzz, start, sets[i], input, c);
      if o != Nil { return; }
    }
    o := Nil;
  }

  ghost function WorkOf(c: Component, sets: seq<nat>): Work
    reads c, c.Arrays()
  {
    Work(c.Contents(), SharedKeys(c), sets)
  }

  ghost predicate Apart(c: Component, d: Component)
    reads c, d
  {
    c != d && c.Arrays() !! d.Arrays()
  }

  /** The components from a position on: different, with different lists, and as they were given. */
  ghost predicate Rest(cs: seq<Component>, sets: seq<seq<nat>>, works: seq<Work>, lists: set<object>, i: nat)
    reads cs, lists
  {
    && |sets| == |works| == |cs|
    && (forall j | i <= j < |cs| :: cs[j].Arrays() <= lists && cs[j].Valid() && WorkOf(cs[j], sets[j]) == works[j])
    && forall j, k | i <= j < k < |cs| :: Apart(cs[j], cs[k])
  }

  method ExecuteNext(rule: Rule, fuzz: Fuzz, start: nat -> Urls, input: Input, cs: seq<Component>, sets: seq<seq<nat>>,
                     ghost works: seq<Work>, ghost lists: set<object>, i: nat)
    returns (o: Outcome)
    requires Rest(cs, sets, works, lists, i) && i < |cs|
    modifies input, cs[i], cs[i].Arrays()
    ensures var r := Sets(rule, fuzz, start, works[i], old(input.log)); input.log == r.run.log && o == r.outcome
    ensures Rest(cs, sets, works, lists, i + 1)
  {
    assert forall j | i < j < |cs| :: Apart(cs[i], cs[j]);
    o := ExecuteSets(rule, fuzz, start, sets[i], input, cs[i]);
  }

  /** The main loops over the components on which the rule is applicable. */
  method Execute(rule: Rule, fuzz: Fuzz, start: nat -> Urls, generator: bool, input: Input, cs: seq<Component>, sets: seq<seq<nat>>,
                 ghost works: seq<Work>, ghost lists: set<object>)
    returns (o: Outcome)
    requires Rest(cs, sets, works, lists, 0)
    modifies input, cs, lists
    ensures var r := All(rule, fuzz, start, works, old(input.log)); input.log == r.0 && o == Returned(generator, r.1)
  {
    ghost var log := input.log;
    for i := 0 to |cs|
      invariant Rest(cs, sets, works, lists, i)
      invariant All(rule, fuzz, start, works[i..], input.log) == All(rule, fuzz, start, works, log)
    {
      assert works[i..][0] == works[i] && works[i..][1..] == works[i + 1..];
      o := ExecuteNext(rule, fuzz, start, input, cs, sets, works, lists, i);
      if o != Nil { return Returned(generator, o); }
    }
    assert works[|cs|..] == [];
    o := Nil;
  }
}
