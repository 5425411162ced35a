/** Matchers and extractors applied to the data of one response: what is extracted, what is
    matched, and when the outcome counts as a success. How a matcher or an extractor looks at the
    data is a parameter, and so is the order in which a range over a map visits its keys. */
module Operators {

  datatype Option<T> = None | Some(value: T)

  datatype Value = Text(text: string) | Many(texts: seq<string>) | Meta(meta: string)

  type Data = map<string, Value>

  datatype Condition = Or | And | Unset

  datatype Matcher = Matcher(name: string, kind: string, part: string, ref: nat, isInternal: bool)

  datatype Extractor = Extractor(
    name: string, isInternal: bool, kind: string, part: string, keys: seq<string>, ignoreCase: bool, ref: nat)

  datatype Operators = Operators(
    templateID: string, matchers: seq<Matcher>, extractors: seq<Extractor>, condition: Condition)

  type Texts = map<string, seq<string>>

  datatype Result = Result(
    matched: bool, extracted: bool, matches: Texts, extracts: Texts,
    outputs: seq<string>, dynamic: Texts, operators: Operators)

  /** The protocol's match and extract functions, the block list of matchers, the visiting order of
      maps, and whether debugging is on. */
  datatype Env = Env(
    matching: (Data, Matcher) -> (bool, seq<string>),
    extracting: (Data, Extractor) -> seq<string>,
    excludes: (string, string) -> bool,
    order: Texts -> seq<string>,
    debug: bool)

  /** A range over a map visits every key once. */
  ghost predicate ValidOrder(order: Texts -> seq<string>) {
    forall m: Texts :: |order(m)| == |m| && forall k :: k in order(m) <==> k in m
  }

  // ---- Extraction ----

  /** A single extracted value stands for itself, several stay a list. */
  function ExtractedValue(values: seq<string>): Value {
    if |values| == 1 then Text(values[0]) else Many(values)
  }

  /** The first occurrences of a list, in order. */
  function Dedupe(xs: seq<string>): seq<string> {
    if xs == [] then []
    else
      var last := |xs| - 1;
      var d := Dedupe(xs[..last]);
      if xs[last] in xs[..last] then d else d + [xs[last]]
  }

  function Lookup(m: Texts, k: string): seq<string> {
    if k in m then m[k] else []
  }

  /** The state of the extraction loop. */
  datatype Extraction = Extraction(data: Data, dynamic: Texts, outputs: seq<string>, extracts: Texts)

  function ExtractOne(x: Extraction, e: Extractor, values: seq<string>): Extraction {
    if values == [] then x
    else Extraction(
      x.data[e.name := ExtractedValue(values)],
      if e.isInternal then x.dynamic[e.name := Lookup(x.dynamic, e.name) + values] else x.dynamic,
      if e.isInternal then x.outputs else Dedupe(x.outputs + values),
      if !e.isInternal && e.name != "" then x.extracts[e.name := values] else x.extracts)
  }

  /** All extractors in turn: each sees the data that the ones before it have left. */
  function ExtractAll(es: seq<Extractor>, data: Data, env: Env): Extraction {
    if es == [] then Extraction(data, map[], [], map[])
    else
      var last := |es| - 1;
      var x := ExtractAll(es[..last], data, env);
      ExtractOne(x, es[last], env.extracting(x.data, es[last]))
  }

  function Digits(n: nat): string {
    if n < 10 then ["0123456789"[n]] else Digits(n / 10) + ["0123456789"[n % 10]]
  }

  /** name0, name1, ... for the values of a list. */
  function Numbered(name: string, values: seq<string>): Data {
    if values == [] then map[]
    else
      var last := |values| - 1;
      Numbered(name, values[..last])[name + Digits(last) := Text(values[last])]
  }

  /** What one dynamic value adds to the data that the matchers see. */
  function Exposed(name: string, values: seq<string>): Data {
    if |values| > 1 then Numbered(name, values)[name := Many(values)]
    else if |values| == 1 then map[name := Text(values[0])]
    else map[]
  }

  function ExposeAll(names: seq<string>, dynamic: Texts): Data {
    if names == [] then map[]
    else
      var last := |names| - 1;
      ExposeAll(names[..last], dynamic) + Exposed(names[last], Lookup(dynamic, names[last]))
  }

  /** The data that the matchers see. */
  function View(x: Extraction, env: Env): Data {
    if |x.dynamic| > 0 then x.data + ExposeAll(env.order(x.dynamic), x.dynamic) else x.data
  }

  // ---- Matching ----

  predicate Active(ops: Operators, env: Env, i: nat)
    requires i < |ops.matchers|
  {
    !env.excludes(ops.templateID, ops.matchers[i].name)
  }

  predicate Holds(ops: Operators, view: Data, env: Env, i: nat)
    requires i < |ops.matchers|
  {
    env.matching(view, ops.matchers[i]).0
  }

  function MatcherName(m: Matcher, i: nat): string {
    if m.name != "" then m.name else m.kind + "-" + Digits(i + 1)
  }

  /** What is recorded of a matcher that holds: everything when debugging, otherwise named matchers under OR. */
  function Recorded(ops: Operators, view: Data, env: Env, i: nat, matches: Texts): Texts
    requires i < |ops.matchers|
  {
    var m := ops.matchers[i];
    var snippets := env.matching(view, m).1;
    if env.debug then matches[MatcherName(m, i) := snippets]
    else if ops.condition == Or && m.name != "" then matches[m.name := snippets]
    else matches
  }

  /** The matches recorded by the first n matchers. */
  function MatchesUpTo(ops: Operators, view: Data, env: Env, n: nat): Texts
    requires n <= |ops.matchers|
  {
    if n == 0 then map[]
    else
      var before := MatchesUpTo(ops, view, env, n - 1);
      if Active(ops, env, n - 1) && Holds(ops, view, env, n - 1) then Recorded(ops, view, env, n - 1, before) else before
  }

  /** The first active matcher that does not hold, if any. */
  function FirstFailing(ops: Operators, view: Data, env: Env, n: nat): (r: nat)
    requires n <= |ops.matchers|
    ensures n <= r <= |ops.matchers|
    ensures r < |ops.matchers| ==> Active(ops, env, r) && !Holds(ops, view, env, r)
    ensures forall i | n <= i < r :: Active(ops, env, i) ==> Holds(ops, view, env, i)
    decreases |ops.matchers| - n
  {
    if n == |ops.matchers| then n
    else if Active(ops, env, n) && !Holds(ops, view, env, n) then n
    else FirstFailing(ops, view, env, n + 1)
  }

  /** The verdict of the matchers: some active one holds, or under AND there is one and all do. */
  predicate Matched(ops: Operators, view: Data, env: Env) {
    && (exists i | 0 <= i < |ops.matchers| :: Active(ops, env, i) && Holds(ops, view, env, i))
    && (ops.condition == And ==> forall i | 0 <= i < |ops.matchers| :: Active(ops, env, i) ==> Holds(ops, view, env, i))
  }

  /** Under AND the loop over the matchers ends at one that does not hold. */
  predicate Aborts(ops: Operators, view: Data, env: Env) {
    ops.condition == And && FirstFailing(ops, view, env, 0) < |ops.matchers|
  }

  /** The outcome of a pass: the result unless it is dropped, whether it counts, the data it leaves. */
  datatype Evaluation = Evaluation(result: Option<Result>, verdict: bool, data: Data)

  /** When a pass counts as a success. */
  predicate Succeeds(ops: Operators, x: Extraction, matched: bool) {
    |x.dynamic| > 0 || matched || (ops.matchers == [] && x.outputs != [])
  }

  function Evaluate(ops: Operators, data: Data, env: Env): Evaluation {
    var x := ExtractAll(ops.extractors, data, env);
    var view := View(x, env);
    var matched := Matched(ops, view, env);
    var upTo := if ops.condition == And then FirstFailing(ops, view, env, 0) else |ops.matchers|;
    var result := Result(matched, !Aborts(ops, view, env) && x.outputs != [], MatchesUpTo(ops, view, env, upTo),
                         x.extracts, x.outputs, x.dynamic, ops);
    var verdict := Succeeds(ops, x, matched);
    Evaluation(if verdict || Aborts(ops, view, env) then Some(result) else None, verdict, x.data)
  }

  /** The data of an event, shared by all that process it. */
  class InternalEvent {
    var data: Data

    constructor (data: Data)
      ensures this.data == data
    {
      this.data := data;
    }
  }

  lemma {:induction false} DedupeMembers(xs: seq<string>)
    ensures forall v :: v in Dedupe(xs) <==> v in xs
  {
    if xs != [] {
      DedupeMembers(xs[..|xs| - 1]);
      assert xs == xs[..|xs| - 1] + [xs[|xs| - 1]];
    }
  }

  lemma {:induction false} DedupeNoRepeats(xs: seq<string>)
    ensures forall i, j | 0 <= i < j < |Dedupe(xs)| :: Dedupe(xs)[i] != Dedupe(xs)[j]
  {
    if xs != [] {
      DedupeNoRepeats(xs[..|xs| - 1]);
      DedupeMembers(xs[..|xs| - 1]);
    }
  }

  lemma DedupeSnoc(xs: seq<string>, v: string)
    ensures Dedupe(xs + [v]) == if v in xs then Dedupe(xs) else Dedupe(xs) + [v]
  {
    assert (xs + [v])[..|xs|] == xs;
  }

  /** Removing repeats in the front part first changes nothing. */
  lemma {:induction false} DedupeFront(xs: seq<string>, ys: seq<string>)
    ensures Dedupe(Dedupe(xs) + ys) == Dedupe(xs + ys)
  {
    if ys == [] {
      DedupeIdempotent(xs);
      assert Dedupe(xs) + ys == Dedupe(xs) && xs + ys == xs;
    } else {
      var last := |ys| - 1;
      var v := ys[last];
      DedupeFront(xs, ys[..last]);
      DedupeMembers(xs);
      assert Dedupe(xs) + ys == (Dedupe(xs) + ys[..last]) + [v] && xs + ys == (xs + ys[..last]) + [v];
      DedupeSnoc(Dedupe(xs) + ys[..last], v);
      DedupeSnoc(xs + ys[..last], v);
    }
  }

  lemma {:induction false} DedupeIdempotent(xs: seq<string>)
    ensures Dedupe(Dedupe(xs)) == Dedupe(xs)
  {
    if xs != [] {
      var last := |xs| - 1;
      DedupeIdempotent(xs[..last]);
      DedupeMembers(xs[..last]);
      if xs[last] !in xs[..last] { DedupeSnoc(Dedupe(xs[..last]), xs[last]); }
    }
  }

  /** The loop over the values that one extractor finds. */
  method Collect(e: Extractor, values: seq<string>, dynamic: Texts, outputs: seq<string>)
    returns (results: seq<string>, dynamic': Texts, outputs': seq<string>)
    requires outputs == Dedupe(outputs)
    ensures results == values && outputs' == if e.isInternal then outputs else Dedupe(outputs + values)
    ensures dynamic' == if e.isInternal && values != [] then dynamic[e.name := Lookup(dynamic, e.name) + values] else dynamic
  {
    results, dynamic', outputs' := [], dynamic, outputs;
    assert outputs + values[..0] == outputs;
    for k := 0 to |values|
      invariant results == values[..k]
      invariant outputs' == if e.isInternal then outputs else Dedupe(outputs + values[..k])
      invariant dynamic' == if e.isInternal && k > 0 then dynamic[e.name := Lookup(dynamic, e.name) + values[..k]] else dynamic
    {
      var v := values[k];
      assert values[..k + 1] == values[..k] + [v];
      results := results + [v];
      if e.isInternal {
        assert Lookup(dynamic, e.name) + values[..k + 1] == (Lookup(dynamic, e.name) + values[..k]) + [v];
        if e.name !in dynamic' {
          dynamic' := dynamic'[e.name := [v]];
        } else {
          dynamic' := dynamic'[e.name := dynamic'[e.name] + [v]];
        }
        assert dynamic'[e.name] == Lookup(dynamic, e.name) + values[..k + 1];
        assert dynamic' == dynamic[e.name := dynamic'[e.name]];
      } else {
        DedupeMembers(outputs + values[..k]);
        DedupeSnoc(outputs + values[..k], v);
        assert outputs + values[..k + 1] == (outputs + values[..k]) + [v];
        if v !in outputs' {
          outputs' := outputs' + [v];
        }
      }
    }
    assert values[..|values|] == values;
  }

  /** One round of the loop over the extractors. */
  method RunExtractor(e: Extractor, event: InternalEvent, env: Env, ghost x: Extraction, dynamic: Texts, outputs: seq<string>, extracts: Texts)
    returns (dynamic': Texts, outputs': seq<string>, extracts': Texts)
    requires x == Extraction(event.data, dynamic, outputs, extracts) && outputs == Dedupe(outputs)
    modifies event
    ensures Extraction(event.data, dynamic', outputs', extracts') == ExtractOne(x, e, env.extracting(x.data, e))
    ensures outputs' == Dedupe(outputs')
  {
    var values := env.extracting(event.data, e);
    var results;
    results, dynamic', outputs' := Collect(e, values, dynamic, outputs);
    extracts' := extracts;
    if |results| > 0 && !e.isInternal && e.name != "" {
      extracts' := extracts'[e.name := results];
    }
    if |results| > 0 {
      event.data := event.data[e.name := ExtractedValue(results)];
    }
    DedupeIdempotent(outputs + values);
    assert values == [] ==> outputs + values == outputs;
  }

  method ExposeOne(exposed: Data, name: string, values: seq<string>) returns (exposed': Data)
    ensures exposed' == exposed + Exposed(name, values)
  {
    exposed' := exposed;
    if |values| > 1 {
      for k := 0 to |values|
        invariant exposed' == exposed + Numbered(name, values[..k])
      {
        assert values[..k + 1][..k] == values[..k];
        exposed' := exposed'[name + Digits(k) := Text(values[k])];
      }
      assert values[..|values|] == values;
      exposed' := exposed'[name := Many(values)];
    } else if |values| == 1 {
      exposed' := exposed'[name := Text(values[0])];
    }
  }

  /** Exposes the dynamic values to the matchers of the same pass, in a map of its own. */
  method ExposeDynamic(data: Data, dynamic: Texts, env: Env) returns (view: Data)
    ensures view == if |dynamic| > 0 then data + ExposeAll(env.order(dynamic), dynamic) else data
  {
    view := data;
    if |dynamic| > 0 {
      var exposed: Data := map[];
      var names := env.order(dynamic);
      for i := 0 to |names|
        invariant exposed == ExposeAll(names[..i], dynamic)
      {
        assert names[..i + 1][..i] == names[..i];
        exposed := ExposeOne(exposed, names[i], Lookup(dynamic, names[i]));
      }
      assert names[..|names|] == names;
      view := data + exposed;
    }
  }

  lemma {:induction false} ExtractionShape(es: seq<Extractor>, data: Data, env: Env)
    ensures var x := ExtractAll(es, data, env);
      x.outputs == Dedupe(x.outputs) && (x.extracts != map[] ==> x.outputs != [])
  {
    if es != [] {
      var last := |es| - 1;
      ExtractionShape(es[..last], data, env);
      var x := ExtractAll(es[..last], data, env);
      var values := env.extracting(x.data, es[last]);
      DedupeIdempotent(x.outputs + values);
      DedupeMembers(x.outputs + values);
      if values != [] { assert (x.outputs + values)[|x.outputs|] in Dedupe(x.outputs + values); }
    }
  }

  /** What the k-th extractor finds in the data that the ones before it have left. */
  function Found(es: seq<Extractor>, data: Data, env: Env, k: nat): seq<string>
    requires k < |es|
  {
    env.extracting(ExtractAll(es[..k], data, env).data, es[k])
  }

  /** Some extractor that is not internal finds v. */
  ghost predicate Shown(es: seq<Extractor>, data: Data, env: Env, v: string) {
    exists k :: 0 <= k < |es| && !es[k].isInternal && v in Found(es, data, env, k)
  }

  lemma ShownSnoc(es: seq<Extractor>, data: Data, env: Env, v: string)
    requires es != []
    ensures Shown(es, data, env, v) <==>
            Shown(es[..|es| - 1], data, env, v) || (!es[|es| - 1].isInternal && v in Found(es, data, env, |es| - 1))
  {
    var front := es[..|es| - 1];
    forall k | 0 <= k < |front| ensures Found(es, data, env, k) == Found(front, data, env, k) {
      assert es[..k] == front[..k];
    }
    if Shown(front, data, env, v) {
      var k :| 0 <= k < |front| && !front[k].isInternal && v in Found(front, data, env, k);
      assert !es[k].isInternal && v in Found(es, data, env, k);
    }
  }

  /** The extracts for output are what the extractors that are not internal find, each value once. */
  lemma {:induction false} OutputsExactly(es: seq<Extractor>, data: Data, env: Env)
    ensures var outputs := ExtractAll(es, data, env).outputs;
      && (forall v :: v in outputs <==> Shown(es, data, env, v))
      && (forall i, j | 0 <= i < j < |outputs| :: outputs[i] != outputs[j])
  {
    ExtractionShape(es, data, env);
    DedupeNoRepeats(ExtractAll(es, data, env).outputs);
    if es != [] {
      var last := |es| - 1;
      OutputsExactly(es[..last], data, env);
      var x := ExtractAll(es[..last], data, env);
      var values := Found(es, data, env, last);
      DedupeMembers(x.outputs + values);
      forall v ensures v in ExtractAll(es, data, env).outputs <==> Shown(es, data, env, v) {
        ShownSnoc(es, data, env, v);
        assert v in x.outputs + values <==> v in x.outputs || v in values;
      }
    }
  }

  /** The loop over the extractors. */
  method RunExtractors(ops: Operators, event: InternalEvent, env: Env)
    returns (dynamic: Texts, outputs: seq<string>, extracts: Texts, allInternal: bool)
    modifies event
    ensures Extraction(event.data, dynamic, outputs, extracts) == ExtractAll(ops.extractors, old(event.data), env)
  {
    dynamic, outputs, extracts, allInternal := map[], [], map[], true;
    for i := 0 to |ops.extractors|
      invariant Extraction(event.data, dynamic, outputs, extracts) == ExtractAll(ops.extractors[..i], old(event.data), env)
    {
      assert ops.extractors[..i + 1][..i] == ops.extractors[..i];
      var e := ops.extractors[i];
      if !e.isInternal && allInternal {
        allInternal := false;
      }
      ExtractionShape(ops.extractors[..i], old(event.data), env);
      ghost var x := Extraction(event.data, dynamic, outputs, extracts);
      dynamic, outputs, extracts := RunExtractor(e, event, env, x, dynamic, outputs, extracts);
    }
    assert ops.extractors[..|ops.extractors|] == ops.extractors;
  }

  /** The loop over the matchers: it aborts under AND at the first active one that does not hold. */
  method RunMatchers(ops: Operators, view: Data, env: Env) returns (aborted: bool, matches: Texts, any: bool)
    ensures aborted == Aborts(ops, view, env)
    ensures !aborted ==> any == Matched(ops, view, env)
    ensures aborted ==> !Matched(ops, view, env)
    ensures matches == MatchesUpTo(ops, view, env, if ops.condition == And then FirstFailing(ops, view, env, 0) else |ops.matchers|)
  {
    aborted, matches, any := false, map[], false;
    for i := 0 to |ops.matchers|
      invariant matches == MatchesUpTo(ops, view, env, i)
      invariant any == exists j | 0 <= j < i :: Active(ops, env, j) && Holds(ops, view, env, j)
      invariant ops.condition == And ==> forall j | 0 <= j < i :: Active(ops, env, j) ==> Holds(ops, view, env, j)
    {
      var m := ops.matchers[i];
      if env.excludes(ops.templateID, m.name) {
        assert !Active(ops, env, i);
        continue;
      }
      var (isMatch, snippets) := env.matching(view, m);
      assert Active(ops, env, i) && Holds(ops, view, env, i) == isMatch;
      if isMatch {
        if env.debug {
          matches := matches[MatcherName(m, i) := snippets];
        } else if ops.condition == Or && m.name != "" {
          matches := matches[m.name := snippets];
        }
        any := true;
      } else if ops.condition == And {
        assert FirstFailing(ops, view, env, 0) == i;
        return true, matches, any;
      }
    }
    assert ops.condition == And ==> FirstFailing(ops, view, env, 0) == |ops.matchers|;
  }

  /** Operators.Execute. The extractors write into the data of the event, the matchers only read. */
  method Execute(ops: Operators, event: InternalEvent, env: Env) returns (result: Option<Result>, verdict: bool)
    modifies event
    ensures Evaluation(result, verdict, event.data) == Evaluate(ops, old(event.data), env)
  {
    var dynamic, outputs, extracts, allInternal := RunExtractors(ops, event, env);
    ghost var x := ExtractAll(ops.extractors, old(event.data), env);
    var view := ExposeDynamic(event.data, dynamic, env);
    assert view == View(x, env);
    ExtractionShape(ops.extractors, old(event.data), env);
    var aborted, matches, matched := RunMatchers(ops, view, env);
    if aborted {
      return Some(Result(false, false, matches, extracts, outputs, dynamic, ops)), |dynamic| > 0;
    }
    var r := Result(matched, |outputs| > 0, matches, extracts, outputs, dynamic, ops);
    if |dynamic| > 0 && allInternal {
      return Some(r), true;
    }
    if |ops.matchers| > 0 && !matched {
      if |dynamic| > 0 {
        return Some(r), true;
      }
      return None, false;
    }
    if |extracts| > 0 || |outputs| > 0 || matched {
      return Some(r), true;
    }
    if |dynamic| > 0 {
      return Some(r), true;
    }
    return None, false;
  }
}
