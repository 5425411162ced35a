/** One response processed by the operators of every template of a cluster in turn. They share the
    data of the event, into which extractors and the executer itself write; still every template
    is to report what it would report alone. */
module ClusterExecuter {
  import opened Operators
  import opened OperatorResults

  /** A template of the cluster, as the executer keeps it. */
  datatype Member = Member(templateID: string, path: string, info: string, operators: Operators)

  const TEMPLATE_ID := "template-id"
  const TEMPLATE_PATH := "template-path"
  const TEMPLATE_INFO := "template-info"
  const TEMPLATE_KEYS := {TEMPLATE_ID, TEMPLATE_PATH, TEMPLATE_INFO}

  /** The protocol: how it matches and extracts, what it fills into a result event and into a
      failure event; and whether failures are reported at all. */
  datatype Protocol = Protocol(
    env: Env, item: (Data, Result) -> Item, failure: Data -> Item, matcherStatus: bool)

  /** An entry of the output: a result event, and the matcher status it is written with. */
  datatype Entry = Entry(event: ResultEvent, status: bool)

  function Entries(events: seq<ResultEvent>, status: bool): seq<Entry> {
    seq(|events|, i requires 0 <= i < |events| => Entry(events[i], status))
  }

  function Stamped(data: Data, m: Member): Data {
    data[TEMPLATE_ID := Text(m.templateID)][TEMPLATE_PATH := Text(m.path)][TEMPLATE_INFO := Meta(m.info)]
  }

  /** The wrapped event while the operators go over it, the output so far, and whether anything was found. */
  datatype Pass = Pass(data: Data, results: seq<ResultEvent>, output: seq<Entry>, found: bool)

  /** The failure event of a template: that of the results in the event when there are any. */
  function FailureEntries(p: Protocol, results: seq<ResultEvent>, data: Data): seq<Entry> {
    if results != [] then Entries(results, false) else [Entry(ResultEvent(p.failure(data), "", "", []), false)]
  }

  function Findings(p: Protocol, data: Data, r: Result): seq<ResultEvent> {
    ResultEvents(r, p.item(data, r), p.env.order)
  }

  function RunMember(p: Protocol, s: Pass, m: Member): Pass {
    var e := Evaluate(m.operators, s.data, p.env);
    var data := Stamped(e.data, m);
    if e.verdict then
      var results := Findings(p, data, e.result.value);
      Pass(data, results, s.output + Entries(results, true), true)
    else if e.result.None? && p.matcherStatus then
      Pass(data, s.results, s.output + FailureEntries(p, s.results, data), s.found)
    else s.(data := data)
  }

  /** The operators of the members in order. */
  function RunMembers(p: Protocol, s: Pass, ms: seq<Member>): Pass {
    if ms == [] then s
    else RunMember(p, RunMembers(p, s, ms[..|ms| - 1]), ms[|ms| - 1])
  }

  class WrappedEvent {
    const internalEvent: InternalEvent
    var operatorsResult: Option<Result>
    var results: seq<ResultEvent>

    constructor (data: Data)
      ensures fresh(internalEvent) && internalEvent.data == data && results == [] && operatorsResult == None
    {
      internalEvent := new InternalEvent(data);
      operatorsResult, results := None, [];
    }
  }

  /** output.Writer.WriteFailure: results that the event carries are written instead of a new event. */
  method WriteFailure(p: Protocol, event: WrappedEvent, output: seq<Entry>) returns (output': seq<Entry>)
    ensures output' == output + FailureEntries(p, event.results, event.internalEvent.data)
  {
    output' := output;
    if |event.results| > 0 {
      for i := 0 to |event.results|
        invariant output' == output + Entries(event.results[..i], false)
      {
        assert Entries(event.results[..i + 1], false) == Entries(event.results[..i], false) + [Entry(event.results[i], false)];
        output' := output' + [Entry(event.results[i], false)];
      }
      assert event.results[..|event.results|] == event.results;
    } else {
      output' := output' + [Entry(ResultEvent(p.failure(event.internalEvent.data), "", "", []), false)];
    }
  }

  /** writer.WriteResult: an event without an operators result is not written. */
  method WriteResult(event: WrappedEvent, output: seq<Entry>) returns (output': seq<Entry>, matched: bool)
    ensures event.operatorsResult == None ==> output' == output && !matched
    ensures event.operatorsResult.Some? ==> output' == output + Entries(event.results, true) && matched == (event.results != [])
  {
    output', matched := output, false;
    if event.operatorsResult == None { return; }
    for i := 0 to |event.results|
      invariant output' == output + Entries(event.results[..i], true) && matched == (i > 0)
    {
      assert Entries(event.results[..i + 1], true) == Entries(event.results[..i], true) + [Entry(event.results[i], true)];
      output' := output' + [Entry(event.results[i], true)];
      matched := true;
    }
    assert event.results[..|event.results|] == event.results;
  }

  /** The callback of ClusterExecuter.Execute for one event. */
  method ProcessEvent(p: Protocol, members: seq<Member>, event: WrappedEvent) returns (output: seq<Entry>, found: bool)
    requires ValidOrder(p.env.order)
    modifies event, event.internalEvent
    ensures Pass(event.internalEvent.data, event.results, output, found)
            == RunMembers(p, Pass(old(event.internalEvent.data), old(event.results), [], false), members)
  {
    output, found := [], false;
    for i := 0 to |members|
      invariant Pass(event.internalEvent.data, event.results, output, found)
                == RunMembers(p, Pass(old(event.internalEvent.data), old(event.results), [], false), members[..i])
    {
      assert members[..i + 1][..i] == members[..i];
      var m := members[i];
      var result, matched := Execute(m.operators, event.internalEvent, p.env);
      event.internalEvent.data := event.internalEvent.data[TEMPLATE_ID := Text(m.templateID)];
      event.internalEvent.data := event.internalEvent.data[TEMPLATE_PATH := Text(m.path)];
      event.internalEvent.data := event.internalEvent.data[TEMPLATE_INFO := Meta(m.info)];
      if result.None? && !matched && p.matcherStatus {
        output := WriteFailure(p, event, output);
        continue;
      }
      if matched && result.Some? {
        event.operatorsResult := result;
        var base := p.item(event.internalEvent.data, result.value);
        event.results := MakeDefaultResultEvent(result.value, base, p.env.order);
        found := true;
        var wrote;
        output, wrote := WriteResult(event, output);
      }
    }
    assert members[..|members|] == members;
  }
}
