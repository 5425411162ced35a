/** Executing a fuzzing rule: every payload is put into a clone of the component, the changed request
    is offered to a callback, and the component is changed back. How a payload expands, how a
    request is rebuilt, in what order keys are visited and what the callback answers are parameters;
    the filter of frequent parameters is off. */
module FuzzRule {
  import opened FuzzComponent

  type Urls = seq<string>

  datatype RuleType = Prefix | Postfix | Infix | Replace | ReplaceRegex

  /** A request offered to the callback. */
  datatype Request = Request(contents: Contents, urls: Urls, parameter: string)

  /** `values` numbers the value sets of the generator. */
  datatype Rule = Rule(
    ruleType: RuleType, single: bool,
    matches: (string, string) -> bool,
    replaceAll: (string, string) -> string,
    expand: (nat, string, string, Urls) -> (string, Urls),
    escape: string -> string,
    order: Contents -> seq<string>,
    rebuilds: Contents -> bool,
    accepts: (seq<Request>, Request) -> bool)

  /** An iteration visits keys of the component, none of them twice. */
  ghost predicate ValidOrder(rule: Rule) {
    forall m: Contents :: NoRepeats(rule.order(m)) && forall k | k in rule.order(m) :: k in m
  }

  ghost predicate NoRepeats(keys: seq<string>) {
    forall i, j | 0 <= i < j < |keys| :: keys[i] != keys[j]
  }

  datatype Error = Fine | NoMoreRequests | SetValueError | RebuildError

  datatype Run = Run(contents: Contents, urls: Urls, log: seq<Request>, error: Error)

  datatype Payload = Payload(key: string, value: string)

  // ---- One key, one request ----

  function RuleTypes(rule: Rule, value: string, replacement: string): string {
    match rule.ruleType
    case Prefix => replacement + value
    case Postfix => value + replacement
    case Infix =>
      if |value| <= 1 then value + replacement
      else value[..|value| / 2] + replacement + value[|value| / 2..]
    case Replace => replacement
    case ReplaceRegex => rule.replaceAll(value, replacement)
  }

  /** Where a rule that keeps the value puts the replacement: in front, behind, or in the middle,
      which is behind for a value of at most one character. */
  function Place(t: RuleType, length: nat): (n: nat)
    requires t.Prefix? || t.Postfix? || t.Infix?
    ensures n <= length
  {
    match t
    case Prefix => 0
    case Postfix => length
    case Infix => if length <= 1 then length else length / 2
  }

  /** Such a rule loses nothing: cutting the replacement out gives the value back. */
  lemma ReplacementIsInserted(rule: Rule, value: string, replacement: string)
    requires rule.ruleType.Prefix? || rule.ruleType.Postfix? || rule.ruleType.Infix?
    ensures var r, n, m := RuleTypes(rule, value, replacement), Place(rule.ruleType, |value|), |replacement|;
            |r| == |value| + m && r[n..n + m] == replacement && r[..n] + r[n + m..] == value
  {
    var n := Place(rule.ruleType, |value|);
    InsertedAt(rule, value, replacement);
    CutOut(value[..n], replacement, value[n..]);
    assert value == value[..n] + value[n..];
  }

  lemma InsertedAt(rule: Rule, value: string, replacement: string)
    requires rule.ruleType.Prefix? || rule.ruleType.Postfix? || rule.ruleType.Infix?
    ensures var n := Place(rule.ruleType, |value|); RuleTypes(rule, value, replacement) == value[..n] + replacement + value[n..]
  {
    assert value[..0] == "" && value[0..] == value && value[..|value|] == value && value[|value|..] == "";
  }

  lemma CutOut(a: string, b: string, c: string)
    ensures var r := a + b + c; r[|a|..|a| + |b|] == b && r[..|a|] == a && r[|a| + |b|..] == c
  {
  }

  function Evaluate(rule: Rule, values: nat, value: string, payload: string, urls: Urls): (string, Urls) {
    var e := rule.expand(values, value, payload, urls);
    (RuleTypes(rule, value, e.0), e.1)
  }

  /** The name under which a parameter is reported. */
  function Parameter(parameter: string, value: string): string {
    if ParseInt(parameter).Some? || (parameter == "" && value != "") then value else parameter
  }

  function Stored(rule: Rule, m: Contents, key: string, s: string): Option<Value> {
    StoreAt(m, key, rule.escape(s))
  }

  /** Rebuild the request and offer it. */
  function Offer(rule: Rule, run: Run, parameter: string, value: string): Run {
    if !rule.rebuilds(run.contents) then run.(error := RebuildError)
    else
      var request := Request(run.contents, run.urls, Parameter(parameter, value));
      run.(log := run.log + [request], error := if rule.accepts(run.log, request) then Fine else NoMoreRequests)
  }

  function Restore(rule: Rule, run: Run, key: string, text: string): Run {
    match Stored(rule, run.contents, key, text)
    case None => run.(error := SetValueError)
    case Some(v) => run.(contents := run.contents[key := v])
  }

  function OfferAndRestore(rule: Rule, run: Run, key: string, text: string): Run {
    var sent := Offer(rule, run, key, text);
    if sent.error != Fine then sent else Restore(rule, sent, key, text)
  }

  function Visit(rule: Rule, values: nat, payload: string, run: Run, key: string): Run {
    if key !in run.contents then run
    else
      var text := Show(run.contents[key]);
      if !rule.matches(key, text) then run
      else
        var e := Evaluate(rule, values, text, payload, run.urls);
        match Stored(rule, run.contents, key, e.0)
        case None => run.(urls := e.1)
        case Some(v) =>
          var set1 := run.(urls := e.1, contents := run.contents[key := v]);
          if rule.single then OfferAndRestore(rule, set1, key, text) else set1
  }

  function VisitAll(rule: Rule, values: nat, payload: string, run: Run, keys: seq<string>): Run
    decreases |keys|
  {
    if keys == [] || run.error != Fine then run
    else VisitAll(rule, values, payload, Visit(rule, values, payload, run, keys[0]), keys[1..])
  }

  function OnValues(rule: Rule, values: nat, payload: string, run: Run): Run {
    var visited := VisitAll(rule, values, payload, run, rule.order(run.contents));
    if visited.error != Fine || rule.single then visited else Offer(rule, visited, "", "")
  }

  /** A refusal of the callback is answered with the error of
      the rebuild, which is none. */
  function OfferPair(rule: Rule, p: Payload, original: Option<Value>, run: Run): Run {
    var sent := Offer(rule, run, p.key, p.value);
    if sent.error == RebuildError then sent
    else if sent.error == NoMoreRequests then sent.(error := Fine)
    else if original.Some? then Restore(rule, sent, p.key, Show(original.value))
    else sent
  }

  /** A pair stores its value under its key. */
  function OnPair(rule: Rule, values: nat, p: Payload, run: Run): Run {
    var e := Evaluate(rule, values, "", p.value, run.urls);
    match Stored(rule, run.contents, p.key, e.0)
    case None => run.(urls := e.1, error := SetValueError)
    case Some(v) =>
      var set1 := run.(urls := e.1, contents := run.contents[p.key := v]);
      if !rule.single then set1
      else
        var original := if p.key in run.contents && p.key in rule.order(run.contents) then Some(run.contents[p.key]) else None;
        OfferPair(rule, p, original, set1)
  }

  /** Whether the key of a pair is deleted in the end: it was accepted, and not visited in the component. */
  predicate Deletes(rule: Rule, values: nat, p: Payload, run: Run) {
    var e := Evaluate(rule, values, "", p.value, run.urls);
    match Stored(rule, run.contents, p.key, e.0)
    case None => false
    case Some(v) =>
      && rule.single && !(p.key in run.contents && p.key in rule.order(run.contents))
      && Offer(rule, run.(urls := e.1, contents := run.contents[p.key := v]), p.key, p.value).error == Fine
  }

  /** The clone that a payload was put into, at the end but before the deletion of a new key. */
  function OnClone(rule: Rule, values: nat, p: Payload, run: Run): Run {
    if p.key != "" then OnPair(rule, values, p, run) else OnValues(rule, values, p.value, run)
  }

  // ---- The methods ----

  /** The input of a rule: the interaction URLs, and the requests that the callback was offered. */
  class Input {
    var interactURLs: Urls
    var log: seq<Request>

    constructor ()
      ensures interactURLs == [] && log == []
    {
      interactURLs, log := [], [];
    }
  }

  ghost function StateOf(input: Input, c: Component, error: Error): Run
    reads input, c, c.Arrays()
  {
    Run(c.Contents(), input.interactURLs, input.log, error)
  }

  method ExecuteRuleTypes(rule: Rule, value: string, replacement: string) returns (r: string)
    ensures r == RuleTypes(rule, value, replacement)
  {
    var builder := "";
    match rule.ruleType {
      case Prefix =>
        builder := builder + replacement;
        builder := builder + value;
      case Postfix =>
        builder := builder + value;
        builder := builder + replacement;
      case Infix =>
        if |value| <= 1 {
          builder := builder + value;
          builder := builder + replacement;
        } else {
          var middle := |value| / 2;
          builder := builder + value[..middle];
          builder := builder + replacement;
          builder := builder + value[middle..];
        }
      case Replace => builder := replacement;
      case ReplaceRegex => builder := rule.replaceAll(value, replacement);
    }
    r := builder;
  }

  method ExecuteEvaluate(rule: Rule, values: nat, value: string, payload: string, urls: Urls) returns (evaluated: string, urls': Urls)
    ensures (evaluated, urls') == Evaluate(rule, values, value, payload, urls)
  {
    var e := rule.expand(values, value, payload, urls);
    evaluated := ExecuteRuleTypes(rule, value, e.0);
    urls' := e.1;
  }

  method ExecWithInput(rule: Rule, input: Input, contents: Contents, parameter: string, value: string) returns (error: Error)
    modifies input
    ensures input.interactURLs == old(input.interactURLs)
    ensures var request := Request(contents, old(input.interactURLs), Parameter(parameter, value));
            && input.log == old(input.log) + [request]
            && error == if rule.accepts(old(input.log), request) then Fine else NoMoreRequests
  {
    var name := parameter;
    if ParseInt(parameter).Some? || (parameter == "" && value != "") {
      name := value;
    }
    var request := Request(contents, input.interactURLs, name);
    var accepted := rule.accepts(input.log, request);
    input.log := input.log + [request];
    error := if accepted then Fine else NoMoreRequests;
  }

  /** Rebuild the request and hand it to the callback. */
  method OfferRequest(rule: Rule, input: Input, d: Component, parameter: string, value: string) returns (error: Error)
    modifies input
    ensures StateOf(input, d, error) == Offer(rule, old(StateOf(input, d, Fine)), parameter, value)
  {
    var contents := d.Contents();
    if !rule.rebuilds(contents) { return RebuildError; }
    error := ExecWithInput(rule, input, contents, parameter, value);
  }

  method RestoreKey(rule: Rule, input: Input, d: Component, key: string, text: string) returns (error: Error)
    requires d.Valid()
    modifies d, d.Arrays()
    ensures d.Valid() && InPlace(old(d.values), d) && fresh(d.Arrays() - old(d.Arrays()))
    ensures StateOf(input, d, error) == Restore(rule, old(StateOf(input, d, Fine)), key, text)
  {
    var ok := d.SetValue(key, rule.escape(text));
    error := if ok then Fine else SetValueError;
  }

  method SingleRequest(rule: Rule, input: Input, d: Component, key: string, text: string) returns (error: Error)
    requires d.Valid()
    modifies input, d, d.Arrays()
    ensures d.Valid() && InPlace(old(d.values), d) && fresh(d.Arrays() - old(d.Arrays()))
    ensures StateOf(input, d, error) == OfferAndRestore(rule, old(StateOf(input, d, Fine)), key, text)
  {
    error := OfferRequest(rule, input, d, key, text);
    if error == Fine {
      error := RestoreKey(rule, input, d, key, text);
    }
  }

  /** A payload is evaluated over a text and stored under a key. */
  method EvaluateAndSet(rule: Rule, values: nat, text: string, payload: string, input: Input, d: Component, key: string)
    returns (ok: bool)
    requires d.Valid()
    modifies input, d, d.Arrays()
    ensures d.Valid() && InPlace(old(d.values), d) && fresh(d.Arrays() - old(d.Arrays()))
    ensures var e := Evaluate(rule, values, text, payload, old(input.interactURLs));
            var v := Stored(rule, old(d.Contents()), key, e.0);
            && ok == v.Some? && input.interactURLs == e.1 && input.log == old(input.log)
            && d.Contents() == if ok then old(d.Contents())[key := v.value] else old(d.Contents())
    ensures SharedKeys(d) == old(SharedKeys(d)) + if key in d.Contents() && d.Contents()[key].List? then {key} else {}
  {
    var evaluated, urls := ExecuteEvaluate(rule, values, text, payload, input.interactURLs);
    input.interactURLs := urls;
    ok := d.SetValue(key, rule.escape(evaluated));
  }

  method VisitKey(rule: Rule, values: nat, payload: string, input: Input, d: Component, key: string) returns (error: Error)
    requires d.Valid()
    modifies input, d, d.Arrays()
    ensures d.Valid() && InPlace(old(d.values), d) && fresh(d.Arrays() - old(d.Arrays()))
    ensures StateOf(input, d, error) == Visit(rule, values, payload, old(StateOf(input, d, Fine)), key)
  {
    error := Fine;
    var contents := d.Contents();
    if key !in contents { return; }
    var text := Show(contents[key]);
    if !rule.matches(key, text) { return; }
    var ok := EvaluateAndSet(rule, values, text, payload, input, d, key);
    if ok && rule.single {
      error := SingleRequest(rule, input, d, key, text);
    }
  }

  /** The iteration over the component, which stops at the first error. */
  method VisitKeys(rule: Rule, values: nat, payload: string, input: Input, d: Component, keys: seq<string>) returns (error: Error)
    requires d.Valid()
    modifies input, d, d.Arrays()
    ensures d.Valid() && InPlace(old(d.values), d) && fresh(d.Arrays() - old(d.Arrays()))
    ensures StateOf(input, d, error) == VisitAll(rule, values, payload, old(StateOf(input, d, Fine)), keys)
  {
    error := Fine;
    ghost var start := StateOf(input, d, Fine);
    for i := 0 to |keys|
      invariant d.Valid() && InPlace(old(d.values), d) && fresh(d.Arrays() - old(d.Arrays()))
      invariant error == Fine
      invariant VisitAll(rule, values, payload, StateOf(input, d, Fine), keys[i..]) == VisitAll(rule, values, payload, start, keys)
    {
      assert keys[i..][0] == keys[i] && keys[i..][1..] == keys[i + 1..];
      error := VisitKey(rule, values, payload, input, d, keys[i]);
      if error != Fine { return; }
    }
  }

  method ExecutePartComponentOnValues(rule: Rule, values: nat, payload: string, input: Input, d: Component) returns (error: Error)
    requires d.Valid()
    modifies input, d, d.Arrays()
    ensures d.Valid() && InPlace(old(d.values), d) && fresh(d.Arrays() - old(d.Arrays()))
    ensures StateOf(input, d, error) == OnValues(rule, values, payload, old(StateOf(input, d, Fine)))
  {
    error := VisitKeys(rule, values, payload, input, d, rule.order(d.Contents()));
    if error == Fine && !rule.single {
      error := OfferRequest(rule, input, d, "", "");
    }
  }

  /** A pair on a clone: the shared lists hold what the clone held last, even where its key was
      deleted at the end. */
  method ExecutePartComponentOnKV(rule: Rule, values: nat, p: Payload, input: Input, d: Component)
    returns (error: Error, ghost clone: Contents)
    requires d.Valid()
    modifies input, d, d.Arrays()
    ensures forall k | k in old(d.values) && old(d.values[k]).Shared? :: k in clone && clone[k] == ValueOf(old(d.values[k]))
    ensures Run(clone, input.interactURLs, input.log, error) == OnPair(rule, values, p, old(StateOf(input, d, Fine)))
    ensures d.Contents() == if Deletes(rule, values, p, old(StateOf(input, d, Fine))) then clone - {p.key} else clone
  {
    var contents := d.Contents();
    var original := if p.key in contents && p.key in rule.order(contents) then Some(contents[p.key]) else None;
    var ok := EvaluateAndSet(rule, values, "", p.value, input, d, p.key);
    clone := d.Contents();
    if !ok { return SetValueError, clone; }
    error := Fine;
    if rule.single {
      error, clone := SinglePair(rule, p, original, input, d);
    }
  }

  method SinglePair(rule: Rule, p: Payload, original: Option<Value>, input: Input, d: Component)
    returns (error: Error, ghost clone: Contents)
    requires d.Valid()
    modifies input, d, d.Arrays()
    ensures forall k | k in old(d.values) && old(d.values[k]).Shared? :: k in clone && clone[k] == ValueOf(old(d.values[k]))
    ensures Run(clone, input.interactURLs, input.log, error) == OfferPair(rule, p, original, old(StateOf(input, d, Fine)))
    ensures d.Contents() == if Offer(rule, old(StateOf(input, d, Fine)), p.key, p.value).error == Fine && original == None
                            then clone - {p.key} else clone
  {
    var sent := OfferRequest(rule, input, d, p.key, p.value);
    clone := d.Contents();
    if sent == RebuildError { return RebuildError, clone; }
    error := Fine;
    if sent != Fine { return; }
    if original.Some? {
      error := RestoreKey(rule, input, d, p.key, Show(original.value));
      clone := d.Contents();
    } else {
      var _ := d.Delete(p.key);
    }
  }

  /** What a payload leaves in the component: its own values, except for shared lists. */
  ghost function Part(rule: Rule, values: nat, p: Payload, shared: set<string>, run: Run): Run {
    var clone := OnClone(rule, values, p, run);
    clone.(contents := Aliased(run.contents, clone.contents, shared))
  }

  /** A pair on a clone, as it is seen in the component of the caller. */
  method PairOnClone(rule: Rule, values: nat, p: Payload, input: Input, c: Component, d: Component) returns (error: Error)
    requires c.Valid() && d != c && d.values == c.values && p.key != ""
    modifies input, d, c.Arrays()
    ensures StateOf(input, c, error) == Part(rule, values, p, SharedKeys(c), old(StateOf(input, c, Fine)))
  {
    ghost var base, clone;
    base := c.Contents();
    error, clone := ExecutePartComponentOnKV(rule, values, p, input, d);
    assert c.Contents() == Aliased(base, clone, SharedKeys(c));
  }

  /** Values on a clone, as they are seen in the component of the caller. */
  method ValuesOnClone(rule: Rule, values: nat, p: Payload, input: Input, c: Component, d: Component) returns (error: Error)
    requires c.Valid() && d != c && d.values == c.values && p.key == ""
    modifies input, d, c.Arrays()
    ensures StateOf(input, c, error) == Part(rule, values, p, SharedKeys(c), old(StateOf(input, c, Fine)))
  {
    ghost var base := c.Contents();
    error := ExecutePartComponentOnValues(rule, values, p.value, input, d);
    assert c.Contents() == Aliased(base, d.Contents(), SharedKeys(c));
  }

  /** One payload on a clone of the component. */
  method ExecutePartComponent(rule: Rule, values: nat, p: Payload, input: Input, c: Component) returns (error: Error)
    requires c.Valid()
    modifies input, c.Arrays()
    ensures c.Valid() && c.values == old(c.values)
    ensures StateOf(input, c, error) == Part(rule, values, p, SharedKeys(c), old(StateOf(input, c, Fine)))
  {
    var d := c.Clone();
    if p.key != "" {
      error := PairOnClone(rule, values, p, input, c, d);
    } else {
      error := ValuesOnClone(rule, values, p, input, c, d);
    }
  }
}
