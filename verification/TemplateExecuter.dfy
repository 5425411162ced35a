/** One response processed for a template that is not clustered: the event is created with the
    operators of its request, and then reported, hidden, or reported as a failure. The request that
    a cluster shares creates its events in the same way. */
module TemplateExecuter {
  import opened Operators
  import opened OperatorResults
  import opened ClusterExecuter

  // ---- Creating an event ----

  /** Dynamic values give way to extracts: they move into the data, as lists. */
  predicate Clears(r: Result) {
    (|r.extracts| > 0 || |r.outputs| > 0) && |r.dynamic| > 0
  }

  function Cleared(r: Result): Result {
    if Clears(r) then r.(dynamic := map[]) else r
  }

  function Exposing(data: Data, dynamic: Texts): Data {
    data + map k | k in dynamic :: Many(dynamic[k])
  }

  datatype Created = Created(data: Data, result: Option<Result>, results: seq<ResultEvent>)

  function Create(p: Protocol, ops: Operators, data: Data): Created {
    var e := Evaluate(ops, data, p.env);
    if !e.verdict then Created(e.data, None, [])
    else
      var r := e.result.value;
      var d := if Clears(r) then Exposing(e.data, r.dynamic) else e.data;
      Created(d, Some(Cleared(r)), Findings(p, d, Cleared(r)))
  }

  /** Moving dynamic values into the data, in whatever order the range visits them. */
  method ExposeInData(dynamic: Texts, event: InternalEvent)
    modifies event
    ensures event.data == Exposing(old(event.data), dynamic)
  {
    var todo := dynamic.Keys;
    while todo != {}
      invariant todo <= dynamic.Keys
      invariant event.data == old(event.data) + map k | k in dynamic.Keys - todo :: Many(dynamic[k])
    {
      var k :| k in todo;
      event.data := event.data[k := Many(dynamic[k])];
      todo := todo - {k};
    }
  }

  /** Taking the dynamic values out of a result that has extracts. */
  method ClearDynamic(r: Result, event: InternalEvent) returns (r': Result)
    modifies event
    ensures r' == Cleared(r) && event.data == if Clears(r) then Exposing(old(event.data), r.dynamic) else old(event.data)
  {
    r' := r;
    if (|r.extracts| > 0 || |r.outputs| > 0) && |r.dynamic| > 0 {
      ExposeInData(r.dynamic, event);
      r' := r.(dynamic := map[]);
    }
  }

  /** One round of the loop over the operators of the request. */
  method RunOperators(p: Protocol, ops: Operators, event: WrappedEvent)
    requires ValidOrder(p.env.order) && event.operatorsResult == None && event.results == []
    modifies event, event.internalEvent
    ensures Created(event.internalEvent.data, event.operatorsResult, event.results) == Create(p, ops, old(event.internalEvent.data))
  {
    var result, ok := Execute(ops, event.internalEvent, p.env);
    if ok && result.Some? {
      var r := ClearDynamic(result.value, event.internalEvent);
      event.operatorsResult := Some(r);
      var made := MakeDefaultResultEvent(r, p.item(event.internalEvent.data, r), p.env.order);
      event.results := event.results + made;
    }
  }

  /** The created event, for a request that has operators or none. */
  method CreateEvent(p: Protocol, operators: Option<Operators>, data: Data) returns (event: WrappedEvent)
    requires ValidOrder(p.env.order)
    ensures fresh(event) && fresh(event.internalEvent)
    ensures Created(event.internalEvent.data, event.operatorsResult, event.results)
            == match operators case None => Created(data, None, []) case Some(ops) => Create(p, ops, data)
  {
    event := new WrappedEvent(data);
    if operators.Some? {
      RunOperators(p, operators.value, event);
    }
  }

  // ---- Reporting an event ----

  predicate AllInternal(ops: Operators) {
    forall i | 0 <= i < |ops.matchers| :: ops.matchers[i].isInternal
  }

  /** What one event of a template adds to the output, and whether the template counts as executed
      or matched: a match of internal matchers is hidden, and without results a failure is due. */
  datatype Report = Report(output: seq<Entry>, found: bool)

  predicate Hidden(c: Created) {
    c.result.Some? && c.result.value.matched && AllInternal(c.result.value.operators)
  }

  predicate Shown(c: Created) { !Hidden(c) && c.result.Some? && c.results != [] }

  function Reporting(p: Protocol, c: Created): Report {
    if Hidden(c) then Report([], false)
    else if Shown(c) then Report(Entries(c.results, true), true)
    else if p.matcherStatus then Report(FailureEntries(p, c.results, c.data), true)
    else Report([], false)
  }

  /** A template run alone: its own identifier, path and information are in the data from the start. */
  function Alone(p: Protocol, data: Data, m: Member): Report {
    Reporting(p, Create(p, m.operators, Stamped(data, m)))
  }

  /** The callback for results: it tells whether anything was written, and whether a failure may be due. */
  method OnResult(p: Protocol, event: WrappedEvent) returns (output: seq<Entry>, matched: bool, last: bool)
    ensures var c := Created(event.internalEvent.data, event.operatorsResult, event.results);
      && matched == Shown(c) && last == (!Hidden(c) && !Shown(c))
      && output == if Shown(c) then Entries(c.results, true) else []
  {
    output, matched, last := [], false, false;
    if event.operatorsResult.Some? && event.operatorsResult.value.matched {
      var matchers := event.operatorsResult.value.operators.matchers;
      var allInternal := true;
      for i := 0 to |matchers|
        invariant allInternal && forall j | 0 <= j < i :: matchers[j].isInternal
      {
        if !matchers[i].isInternal {
          allInternal := false;
          break;
        }
      }
      if allInternal { return; }
    }
    if event.operatorsResult == None {
      last := true;
    } else {
      output, matched := WriteResult(event, output);
      if !matched { last := true; }
    }
  }

  /** TemplateExecuter.Execute on one response. */
  method ExecuteAlone(p: Protocol, m: Member, data: Data) returns (output: seq<Entry>, found: bool)
    requires ValidOrder(p.env.order)
    ensures Report(output, found) == Alone(p, data, m)
  {
    var event := CreateEvent(p, Some(m.operators), Stamped(data, m));
    var last;
    output, found, last := OnResult(p, event);
    if last && !found && p.matcherStatus {
      output := WriteFailure(p, event, output);
      found := true;
    }
  }

  // ---- A created event ----

  /** An event of a template alone carries results exactly when something matched, or when there is
      nothing to match and something to show; dynamic values do not count here. */
  lemma CreatedResultsExactly(p: Protocol, ops: Operators, data: Data)
    requires ValidOrder(p.env.order)
    ensures var x := ExtractAll(ops.extractors, data, p.env);
      Create(p, ops, data).results != [] <==> Matched(ops, View(x, p.env), p.env) || (ops.matchers == [] && x.outputs != [])
  {
    ExtractionShape(ops.extractors, data, p.env);
  }

  // ---- The event of a shared request ----

  /** The request of a cluster creates the event with the operators of the first template, when it
      has some; then all operators of the cluster, the first ones included, process it. */
  method ExecuteCluster(p: Protocol, first: Option<Operators>, ms: seq<Member>, data: Data) returns (output: seq<Entry>, found: bool)
    requires ValidOrder(p.env.order)
    ensures var s := Shared(p, first, ms, data); output == s.output && found == s.found
  {
    var event := CreateEvent(p, first, data);
    output, found := ProcessEvent(p, ms, event);
  }

  function Shared(p: Protocol, first: Option<Operators>, ms: seq<Member>, data: Data): Pass {
    var c := match first case None => Created(data, None, []) case Some(ops) => Create(p, ops, data);
    RunMembers(p, Pass(c.data, c.results, [], false), ms)
  }
}
