/** What is made of the outcome of a pass: result events, merged results, and the variations of
    dynamic values that follow-up requests are tried with. */
module OperatorResults {
  import opened Operators

  // ---- Result events ----

  /** What the protocol fills in from an event: the template it is attributed to, and the rest. */
  datatype Item = Item(templateID: string, rest: string)

  /** A result event: the protocol's item, and what names the finding. */
  datatype ResultEvent = ResultEvent(base: Item, matcher: string, extractor: string, extracted: seq<string>)

  /** The events for a result, given the item that the protocol makes of the wrapped event. */
  method MakeDefaultResultEvent(r: Result, base: Item, order: Texts -> seq<string>) returns (events: seq<ResultEvent>)
    requires ValidOrder(order)
    ensures events == ResultEvents(r, base, order)
  {
    events := [];
    if |r.dynamic| > 0 && !r.matched {
      return;
    }
    var extracted := |r.extracts| > 0 || |r.outputs| > 0;
    if extracted && |r.operators.matchers| > 0 && !r.matched {
      return;
    }
    if |r.matches| > 0 {
      var names := order(r.matches);
      for i := 0 to |names|
        invariant events == seq(i, j requires 0 <= j < i => ResultEvent(base, names[j], "", []))
      {
        events := events + [ResultEvent(base, names[i], "", [])];
      }
    } else if |r.extracts| > 0 {
      var names := order(r.extracts);
      for i := 0 to |names|
        invariant events == seq(i, j requires 0 <= j < i => ResultEvent(base, "", names[j], Lookup(r.extracts, names[j])))
      {
        events := events + [ResultEvent(base, "", names[i], r.extracts[names[i]])];
      }
    } else {
      events := events + [ResultEvent(base, "", "", [])];
    }
  }

  /** Whether a result is suppressed: only dynamic values, or extracts without the match that was asked for. */
  predicate Suppressed(r: Result) {
    !r.matched && (|r.dynamic| > 0 || (r.operators.matchers != [] && (|r.extracts| > 0 || r.outputs != [])))
  }

  function ResultEvents(r: Result, base: Item, order: Texts -> seq<string>): seq<ResultEvent> {
    if Suppressed(r) then []
    else if |r.matches| > 0 then
      seq(|order(r.matches)|, i requires 0 <= i < |order(r.matches)| => ResultEvent(base, order(r.matches)[i], "", []))
    else if |r.extracts| > 0 then
      seq(|order(r.extracts)|, i requires 0 <= i < |order(r.extracts)| =>
        ResultEvent(base, "", order(r.extracts)[i], Lookup(r.extracts, order(r.extracts)[i])))
    else [ResultEvent(base, "", "", [])]
  }

  /** A pass yields result events exactly when something matched, or when there is nothing to
      match, no dynamic value and something to show: one event per recorded match, else one per
      named extract, else a single one. */
  lemma ResultEventsExactly(ops: Operators, data: Data, env: Env, base: Item)
    requires ValidOrder(env.order)
    ensures var e := Evaluate(ops, data, env); var x := ExtractAll(ops.extractors, data, env);
      var matched := Matched(ops, View(x, env), env);
      (e.verdict && ResultEvents(e.result.value, base, env.order) != []) <==>
      matched || (ops.matchers == [] && |x.dynamic| == 0 && x.outputs != [])
    ensures var e := Evaluate(ops, data, env);
      e.verdict && !Suppressed(e.result.value) ==>
        |ResultEvents(e.result.value, base, env.order)|
        == if |e.result.value.matches| > 0 then |e.result.value.matches|
           else if |e.result.value.extracts| > 0 then |e.result.value.extracts| else 1
  {
    ExtractionShape(ops.extractors, data, env);
  }

  // ---- Merging results ----

  /** The part of a result that merging combines. */
  datatype Merged = Merged(
    matched: bool, extracted: bool, matches: Texts, extracts: Texts,
    outputs: seq<string>, dynamic: Texts, payloads: Data)

  type Slot = Option<seq<string>>

  function At(m: Texts, k: string): Slot {
    if k in m then Some(m[k]) else None
  }

  /** A list present on the right is appended to the left one without repeats, others stay as they are. */
  function Appended(x: Slot, y: Slot): Slot {
    match (x, y)
    case (_, None) => x
    case (None, Some(b)) => Some(Dedupe(b))
    case (Some(a), Some(b)) => Some(Dedupe(a + b))
  }

  /** For dynamic values a list that is new comes over unchanged, repeats included. */
  function AppendedDynamic(x: Slot, y: Slot): Slot {
    match (x, y)
    case (_, None) => x
    case (None, Some(b)) => y
    case (Some(a), Some(b)) => Some(Dedupe(a + b))
  }

  function Pointwise(f: (Slot, Slot) -> Slot, a: Texts, b: Texts): Texts {
    map k | k in a.Keys + b.Keys && f(At(a, k), At(b, k)).Some? :: f(At(a, k), At(b, k)).value
  }

  function MergeTexts(a: Texts, b: Texts): Texts {
    Pointwise(Appended, a, b)
  }

  function MergeDynamic(a: Texts, b: Texts): Texts {
    Pointwise(AppendedDynamic, a, b)
  }

  function Combine(a: Merged, b: Merged): Merged {
    Merged(a.matched || b.matched, a.extracted || b.extracted, MergeTexts(a.matches, b.matches),
           MergeTexts(a.extracts, b.extracts), Dedupe(a.outputs + b.outputs), MergeDynamic(a.dynamic, b.dynamic),
           a.payloads + b.payloads)
  }

  /** Removing repeats in the back part first changes nothing. */
  lemma {:induction false} DedupeBack(xs: seq<string>, ys: seq<string>)
    ensures Dedupe(xs + Dedupe(ys)) == Dedupe(xs + ys)
  {
    if ys != [] {
      var last := |ys| - 1;
      var v := ys[last];
      DedupeBack(xs, ys[..last]);
      DedupeMembers(ys[..last]);
      assert xs + ys == (xs + ys[..last]) + [v];
      DedupeSnoc(xs + ys[..last], v);
      if v !in ys[..last] {
        assert xs + Dedupe(ys) == (xs + Dedupe(ys[..last])) + [v];
        DedupeSnoc(xs + Dedupe(ys[..last]), v);
      }
    }
  }

  lemma Regroup(a: seq<string>, b: seq<string>, c: seq<string>)
    ensures a + b + c == a + (b + c)
  {
  }

  lemma DedupeAssociative(a: seq<string>, b: seq<string>, c: seq<string>)
    ensures Dedupe(Dedupe(a + b) + c) == Dedupe(a + Dedupe(b + c))
  {
    DedupeFront(a + b, c);
    Regroup(a, b, c);
    DedupeBack(a, b + c);
  }

  lemma AppendedAssociative(x: Slot, y: Slot, z: Slot)
    ensures Appended(Appended(x, y), z) == Appended(x, Appended(y, z))
    ensures AppendedDynamic(AppendedDynamic(x, y), z) == AppendedDynamic(x, AppendedDynamic(y, z))
  {
    if z.Some? {
      if y.Some? {
        if x.Some? {
          DedupeAssociative(x.value, y.value, z.value);
        } else {
          DedupeFront(y.value, z.value);
          DedupeIdempotent(y.value + z.value);
        }
      } else if x.Some? {
        DedupeBack(x.value, z.value);
      } else {
        DedupeIdempotent(z.value);
      }
    } else if y.Some? && x.Some? {
      DedupeBack(x.value, y.value);
    }
  }

  lemma PointwiseAt(f: (Slot, Slot) -> Slot, a: Texts, b: Texts, k: string)
    requires f(None, None) == None
    ensures At(Pointwise(f, a, b), k) == f(At(a, k), At(b, k))
  {
  }

  lemma MergeTextsAssociative(a: Texts, b: Texts, c: Texts)
    ensures MergeTexts(MergeTexts(a, b), c) == MergeTexts(a, MergeTexts(b, c))
  {
    var ab, bc := MergeTexts(a, b), MergeTexts(b, c);
    forall k ensures At(MergeTexts(ab, c), k) == At(MergeTexts(a, bc), k) {
      PointwiseAt(Appended, a, b, k);
      PointwiseAt(Appended, ab, c, k);
      PointwiseAt(Appended, b, c, k);
      PointwiseAt(Appended, a, bc, k);
      AppendedAssociative(At(a, k), At(b, k), At(c, k));
    }
    SameEntries(MergeTexts(ab, c), MergeTexts(a, bc));
  }

  lemma MergeDynamicAssociative(a: Texts, b: Texts, c: Texts)
    ensures MergeDynamic(MergeDynamic(a, b), c) == MergeDynamic(a, MergeDynamic(b, c))
  {
    var ab, bc := MergeDynamic(a, b), MergeDynamic(b, c);
    forall k ensures At(MergeDynamic(ab, c), k) == At(MergeDynamic(a, bc), k) {
      PointwiseAt(AppendedDynamic, a, b, k);
      PointwiseAt(AppendedDynamic, ab, c, k);
      PointwiseAt(AppendedDynamic, b, c, k);
      PointwiseAt(AppendedDynamic, a, bc, k);
      AppendedAssociative(At(a, k), At(b, k), At(c, k));
    }
    SameEntries(MergeDynamic(ab, c), MergeDynamic(a, bc));
  }

  /** The order in which three results are merged into one makes no difference. */
  lemma MergeAssociative(a: Merged, b: Merged, c: Merged)
    ensures Combine(Combine(a, b), c) == Combine(a, Combine(b, c))
  {
    MergeTextsAssociative(a.matches, b.matches, c.matches);
    MergeTextsAssociative(a.extracts, b.extracts, c.extracts);
    MergeDynamicAssociative(a.dynamic, b.dynamic, c.dynamic);
    DedupeAssociative(a.outputs, b.outputs, c.outputs);
    PayloadsAssociative(a.payloads, b.payloads, c.payloads);
  }

  lemma PayloadsAssociative(a: Data, b: Data, c: Data)
    ensures (a + b) + c == a + (b + c)
  {
  }

  /** The merged extracts for output are those of both sides, each once, first occurrences first. */
  lemma MergedOutputs(a: Merged, b: Merged)
    ensures var o := Combine(a, b).outputs;
      && (forall v :: v in o <==> v in a.outputs || v in b.outputs)
      && (forall i, j | 0 <= i < j < |o| :: o[i] != o[j])
  {
    DedupeMembers(a.outputs + b.outputs);
    DedupeNoRepeats(a.outputs + b.outputs);
  }

  class MutableResult {
    var matched: bool
    var extracted: bool
    var matches: Texts
    var extracts: Texts
    var outputs: seq<string>
    var outputUnique: set<string>
    var dynamic: Texts
    var payloads: Data

    function View(): Merged
      reads this
    {
      Merged(matched, extracted, matches, extracts, outputs, dynamic, payloads)
    }

    /** Merges the other result, which may be the same one, into this one. */
    method Merge(other: MutableResult)
      modifies this
      ensures View() == Combine(old(View()), old(other.View()))
    {
      if !matched && other.matched {
        matched := other.matched;
      }
      if !extracted && other.extracted {
        extracted := other.extracted;
      }
      matches := MergeAll(matches, other.matches);
      extracts := MergeAll(extracts, other.extracts);
      MergeOutputs(other);
      dynamic := MergeAllDynamic(dynamic, other.dynamic);
      payloads := payloads + other.payloads;
    }

    /** The two loops over the extracts for output. */
    method MergeOutputs(other: MutableResult)
      modifies this`outputs, this`outputUnique
      ensures outputs == Dedupe(old(outputs) + old(other.outputs))
    {
      ghost var mine, theirs := outputs, other.outputs;
      outputs, outputUnique := AddUnique(outputs, [], {});
      assert [] + mine == mine;
      outputs, outputUnique := AddUnique(other.outputs, outputs, outputUnique);
      DedupeFront(mine, theirs);
      DedupeFront(mine, Dedupe(mine));
      DedupeBack(mine, mine);
    }
  }

  /** A loop that appends the values that were not seen before. */
  method AddUnique(more: seq<string>, outputs: seq<string>, unique: set<string>) returns (outputs': seq<string>, unique': set<string>)
    requires (forall v :: v in unique <==> v in outputs) && outputs == Dedupe(outputs)
    ensures outputs' == Dedupe(outputs + more) == Dedupe(outputs')
    ensures forall v :: v in unique' <==> v in outputs'
  {
    outputs', unique' := outputs, unique;
    assert outputs + more[..0] == outputs;
    for i := 0 to |more|
      invariant outputs' == Dedupe(outputs + more[..i])
      invariant forall v :: v in unique' <==> v in outputs'
    {
      var front := outputs + more[..i];
      assert outputs + more[..i + 1] == front + [more[i]];
      DedupeSnoc(front, more[i]);
      DedupeMembers(front);
      if more[i] !in unique' {
        unique' := unique' + {more[i]};
        outputs' := outputs' + [more[i]];
      }
    }
    assert more[..|more|] == more;
    DedupeIdempotent(outputs + more);
  }

  /** The loop that merges the matches, and the one that merges the extracts. */
  method MergeAll(mine: Texts, theirs: Texts) returns (r: Texts)
    ensures r == MergeTexts(mine, theirs)
  {
    r := mine;
    var todo := theirs.Keys;
    while todo != {}
      invariant todo <= theirs.Keys
      invariant forall k :: At(r, k) == if k in todo then At(mine, k) else Appended(At(mine, k), At(theirs, k))
    {
      var k :| k in todo;
      var before := if k in r then r[k] else [];
      assert k !in r ==> before + theirs[k] == theirs[k];
      assert At(r, k) == At(mine, k);
      r := r[k := Dedupe(before + theirs[k])];
      todo := todo - {k};
    }
    SameEntries(r, MergeTexts(mine, theirs));
  }

  method MergeAllDynamic(mine: Texts, theirs: Texts) returns (r: Texts)
    ensures r == MergeDynamic(mine, theirs)
  {
    r := mine;
    var todo := theirs.Keys;
    while todo != {}
      invariant todo <= theirs.Keys
      invariant forall k :: At(r, k) == if k in todo then At(mine, k) else AppendedDynamic(At(mine, k), At(theirs, k))
    {
      var k :| k in todo;
      assert At(r, k) == At(mine, k);
      if k !in r {
        r := r[k := theirs[k]];
      } else {
        r := r[k := Dedupe(r[k] + theirs[k])];
      }
      todo := todo - {k};
    }
    SameEntries(r, MergeDynamic(mine, theirs));
  }

  lemma SameEntries(a: Texts, b: Texts)
    requires forall k :: At(a, k) == At(b, k)
    ensures a == b
  {
    forall k ensures k in a <==> k in b { assert At(a, k) == At(b, k); }
    forall k | k in a ensures a[k] == b[k] { assert At(a, k) == At(b, k); }
  }

  // ---- Variations of dynamic values ----

  function Min(a: int, b: int): int { if a <= b then a else b }

  /** The i-th variation: every key that has values shows its i-th, or its last when it has fewer. */
  function Variation(input: Texts, i: nat): map<string, string> {
    map k | k in input && input[k] != [] :: input[k][Min(i, |input[k]| - 1)]
  }

  /** Some key has n values, and none has more. */
  ghost predicate IsLongest(input: Texts, n: nat) {
    && (forall k | k in input :: |input[k]| <= n)
    && (n > 0 ==> exists k :: k in input && |input[k]| == n)
  }

  lemma LongestUnique(input: Texts, m: nat, n: nat)
    requires IsLongest(input, m) && IsLongest(input, n)
    ensures m == n
  {
  }

  lemma {:induction false} LongestExists(input: Texts)
    ensures exists n: nat :: IsLongest(input, n)
    decreases |input|
  {
    if input == map[] {
      assert IsLongest(input, 0);
    } else {
      var k :| k in input;
      var rest := input - {k};
      LongestExists(rest);
      var n: nat :| IsLongest(rest, n);
      assert forall j | j in input :: j == k || (j in rest && rest[j] == input[j]);
      if n < |input[k]| {
        assert IsLongest(input, |input[k]|);
      } else {
        if n > 0 {
          var j :| j in rest && |rest[j]| == n;
          assert j in input && |input[j]| == n;
        }
        assert IsLongest(input, n);
      }
    }
  }

  /** The greatest number of values of a key. */
  ghost function Longest(input: Texts): (n: nat)
    ensures IsLongest(input, n)
  {
    LongestExists(input);
    var n: nat :| IsLongest(input, n); n
  }

  method MaxLength(input: Texts) returns (maxValue: nat)
    ensures maxValue == Longest(input)
  {
    maxValue := 0;
    var todo := input.Keys;
    while todo != {}
      invariant todo <= input.Keys
      invariant forall k | k in input && k !in todo :: |input[k]| <= maxValue
      invariant maxValue > 0 ==> exists k :: k in input && |input[k]| == maxValue
    {
      var k :| k in todo;
      if |input[k]| > maxValue {
        maxValue := |input[k]|;
      }
      todo := todo - {k};
    }
    LongestUnique(input, maxValue, Longest(input));
  }

  /** MakeDynamicValuesCallback: `stop` is what the callback answers to a variation, `calls` are
      the variations it is called with. */
  method MakeDynamicValuesCallback(input: Texts, iterateAll: bool, stop: map<string, string> -> bool)
    returns (calls: seq<map<string, string>>)
    ensures !iterateAll ==> calls == [Variation(input, 0)]
    ensures forall i | 0 <= i < |calls| :: calls[i] == Variation(input, i)
    ensures iterateAll ==> forall i | 0 <= i < |calls| - 1 :: !stop(calls[i])
    ensures iterateAll ==> |calls| <= Longest(input)
    ensures iterateAll && |calls| < Longest(input) ==> calls != [] && stop(calls[|calls| - 1])
  {
    var output: map<string, string> := map[];
    calls := [];
    if !iterateAll {
      output := FirstValues(input);
      calls := [output];
      return;
    }
    var inputIndex: map<string, nat> := map[];
    var maxValue := MaxLength(input);
    for i := 0 to maxValue
      invariant |calls| == i
      invariant forall j | 0 <= j < i :: calls[j] == Variation(input, j) && !stop(calls[j])
      invariant forall k | k in output :: k in input && input[k] != []
      invariant Indexes(input, inputIndex, i)
    {
      output, inputIndex := NextVariation(input, output, inputIndex, i);
      calls := calls + [output];
      if stop(output) {
        return;
      }
    }
  }

  /** The position that the index map holds for every key with more than one value after i calls. */
  ghost predicate Indexes(input: Texts, inputIndex: map<string, nat>, i: nat) {
    && (i == 0 ==> inputIndex == map[])
    && (i > 0 ==> forall k | k in input && |input[k]| > 1 :: k in inputIndex && inputIndex[k] == Min(i - 1, |input[k]| - 1))
  }

  method FirstValues(input: Texts) returns (output: map<string, string>)
    ensures output == Variation(input, 0)
  {
    output := map[];
    var todo := input.Keys;
    while todo != {}
      invariant todo <= input.Keys
      invariant output == map k | k in input.Keys - todo && input[k] != [] :: input[k][0]
    {
      var k :| k in todo;
      if |input[k]| > 0 {
        output := output[k := input[k][0]];
      }
      todo := todo - {k};
    }
  }

  /** What one key with values contributes to the next variation. */
  method NextValue(v: seq<string>, k: string, output: map<string, string>, inputIndex: map<string, nat>, ghost i: nat)
    returns (output': map<string, string>, inputIndex': map<string, nat>)
    requires v != []
    requires |v| > 1 ==> (k in inputIndex <==> i > 0) && (i > 0 ==> inputIndex[k] == Min(i - 1, |v| - 1))
    ensures output' == output[k := v[Min(i, |v| - 1)]]
    ensures inputIndex' == if |v| > 1 then inputIndex[k := Min(i, |v| - 1)] else inputIndex
  {
    output', inputIndex' := output, inputIndex;
    if |v| == 1 {
      output' := output'[k := v[0]];
      return;
    }
    if k !in inputIndex' {
      inputIndex' := inputIndex'[k := 0];
      output' := output'[k := v[0]];
    } else {
      var newIndex := inputIndex'[k] + 1;
      if newIndex >= |v| {
        output' := output'[k := v[|v| - 1]];
        assert inputIndex' == inputIndex[k := |v| - 1];
        return;
      }
      output' := output'[k := v[newIndex]];
      inputIndex' := inputIndex'[k := newIndex];
    }
  }

  /** The inner loop for call number i, over the keys in any order. */
  method NextVariation(input: Texts, output: map<string, string>, inputIndex: map<string, nat>, ghost i: nat)
    returns (output': map<string, string>, inputIndex': map<string, nat>)
    requires Indexes(input, inputIndex, i)
    requires forall k | k in output :: k in input && input[k] != []
    ensures output' == Variation(input, i) && Indexes(input, inputIndex', i + 1)
  {
    output', inputIndex' := output, inputIndex;
    var todo := input.Keys;
    while todo != {}
      invariant todo <= input.Keys
      invariant forall k | k in output' :: k in input && input[k] != []
      invariant forall k | k in input && k !in todo && input[k] != [] ::
                  k in output' && output'[k] == input[k][Min(i, |input[k]| - 1)]
      invariant forall k | k in input && k !in todo && |input[k]| > 1 ::
                  k in inputIndex' && inputIndex'[k] == Min(i, |input[k]| - 1)
      invariant forall k | k in todo && |input[k]| > 1 ::
                  (k in inputIndex' <==> i > 0) && (i > 0 ==> inputIndex'[k] == Min(i - 1, |input[k]| - 1))
    {
      var k :| k in todo;
      todo := todo - {k};
      if |input[k]| == 0 {
        continue;
      }
      output', inputIndex' := NextValue(input[k], k, output', inputIndex', i);
    }
  }

  /** When the callback never stops, every value of every key is shown. */
  lemma EveryValueIsSeen(input: Texts, calls: seq<map<string, string>>, n: nat, k: string, j: nat)
    requires IsLongest(input, n) && |calls| == n && forall i | 0 <= i < n :: calls[i] == Variation(input, i)
    requires k in input && j < |input[k]|
    ensures exists i :: 0 <= i < n && k in calls[i] && calls[i][k] == input[k][j]
  {
    assert calls[j][k] == input[k][j];
  }
}
