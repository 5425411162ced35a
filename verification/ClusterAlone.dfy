/** One template of a cluster compared with the same template run alone by the executer of templates
    that are not clustered: the ways in which they differ, and that creating the event with the
    operators of the first template makes no difference. */
module ClusterAlone {
  import opened Operators
  import opened OperatorResults
  import opened ClusterExecuter
  import opened ClusterMeaning
  import opened TemplateExecuter

  // ---- What is assumed ----

  /** A template looks at no identifier, path or information of a template, and extracts to nothing
      that its own events are made of. */
  ghost predicate Clear(f: Footprint, m: Member) {
    && (forall x | x in m.operators.matchers :: f.matcher(x) !! TEMPLATE_KEYS)
    && (forall x | x in m.operators.extractors :: f.extractor(x) !! TEMPLATE_KEYS)
    && f.item !! Written(m.operators)
  }

  /** Events are not made of dynamic values. */
  ghost predicate IgnoresDynamic(p: Protocol) {
    forall d, r :: p.item(d, r) == p.item(d, r.(dynamic := map[]))
  }

  ghost predicate Separable(p: Protocol, f: Footprint, ms: seq<Member>) {
    && ValidOrder(p.env.order) && Respects(p, f, ms) && Attributes(p) && IgnoresDynamic(p) && NonInterfering(f, ms)
    && (forall i | 0 <= i < |ms| :: Clear(f, ms[i]))
    && forall i, j | 0 <= i < j < |ms| :: ms[i].templateID != ms[j].templateID
  }

  // ---- The ways in which a template can differ ----

  function Extracted(p: Protocol, data: Data, ops: Operators): Extraction { ExtractAll(ops.extractors, data, p.env) }

  predicate Matching(p: Protocol, data: Data, ops: Operators) {
    Matched(ops, View(Extracted(p, data, ops), p.env), p.env)
  }

  /** A match of internal matchers: alone it is hidden, in the cluster it is written. */
  predicate Hides(p: Protocol, data: Data, ops: Operators) {
    Matching(p, data, ops) && AllInternal(ops)
  }

  /** No matchers, dynamic values and something to show: alone the dynamic values give way, in the
      cluster they suppress the result. */
  predicate Uncovers(p: Protocol, data: Data, ops: Operators) {
    var x := Extracted(p, data, ops); ops.matchers == [] && |x.dynamic| > 0 && x.outputs != []
  }

  /** Dynamic values without a match and without anything that is shown: a failure alone, a match
      with nothing to write in the cluster. */
  predicate OnlyDynamic(p: Protocol, data: Data, ops: Operators) {
    var x := Extracted(p, data, ops);
    !Matching(p, data, ops) && |x.dynamic| > 0 && !(ops.matchers == [] && x.outputs != [])
  }

  /** AND aborts the matchers and there are no dynamic values: a failure alone, nothing in the cluster. */
  predicate Aborted(p: Protocol, data: Data, ops: Operators) {
    var x := Extracted(p, data, ops); Aborts(ops, View(x, p.env), p.env) && |x.dynamic| == 0
  }

  /** The operators count as a match. */
  predicate Counts(p: Protocol, data: Data, ops: Operators) {
    Succeeds(ops, Extracted(p, data, ops), Matching(p, data, ops))
  }

  // ---- A template alone, in terms of its operators on the response ----

  datatype Own = Own(id: string, hidden: bool, shown: seq<ResultEvent>, failure: Entry)

  function OwnOf(p: Protocol, data: Data, m: Member): Own {
    var e := Evaluate(m.operators, data, p.env);
    var d := Stamped(e.data, m);
    Own(m.templateID, Hides(p, data, m.operators),
        if e.verdict then ResultEvents(Cleared(e.result.value), p.item(d, e.result.value), p.env.order) else [],
        Entry(ResultEvent(p.failure(d), "", "", []), false))
  }

  function ReportOf(status: bool, y: Own): Report {
    if y.hidden then Report([], false)
    else if y.shown != [] then Report(Entries(y.shown, true), true)
    else if status then Report([y.failure], true)
    else Report([], false)
  }

  lemma {:induction false} DynamicWritten(es: seq<Extractor>, data: Data, env: Env)
    ensures forall k | k in ExtractAll(es, data, env).dynamic :: exists i | 0 <= i < |es| :: es[i].name == k
  {
    if es != [] {
      var last := |es| - 1;
      DynamicWritten(es[..last], data, env);
      forall k | k in ExtractAll(es, data, env).dynamic ensures exists i | 0 <= i < |es| :: es[i].name == k {
        if k in ExtractAll(es[..last], data, env).dynamic {
          var i :| 0 <= i < last && es[..last][i].name == k;
          assert es[i].name == k;
        } else {
          assert es[last].name == k;
        }
      }
    }
  }

  /** Creating an event writes to nothing but the names of the extractors. */
  lemma CreateFrame(p: Protocol, ops: Operators, data: Data, k: string)
    requires k !in Written(ops)
    ensures var d := Create(p, ops, data).data; (k in d <==> k in data) && (k in data ==> d[k] == data[k])
  {
    assert forall i | 0 <= i < |ops.extractors| :: ops.extractors[i].name != k;
    ExtractFrame(ops.extractors, data, p.env);
    DynamicWritten(ops.extractors, data, p.env);
  }

  lemma SameResult(p: Protocol, f: Footprint, data: Data, m: Member)
    requires Respects(p, f, [m]) && Clear(f, m)
    ensures var e, g := Evaluate(m.operators, Stamped(data, m), p.env), Evaluate(m.operators, data, p.env);
      e.result == g.result && e.verdict == g.verdict
  {
    assert m in [m];
    var keys := Keys(f, m);
    assert Agree(Stamped(data, m), data, keys) by {
      forall k | k in keys ensures k !in TEMPLATE_KEYS {}
    }
    EvaluateLocal(p, f, m.operators, Stamped(data, m), data, keys);
  }

  lemma ItemsAgree(p: Protocol, f: Footprint, data: Data, m: Member)
    requires Clear(f, m)
    ensures Agree(Create(p, m.operators, Stamped(data, m)).data, Stamped(Evaluate(m.operators, data, p.env).data, m), f.item)
  {
    var es := m.operators.extractors;
    ExtractFrame(es, data, p.env);
    var c, d := Create(p, m.operators, Stamped(data, m)).data, Stamped(Evaluate(m.operators, data, p.env).data, m);
    forall k | k in f.item ensures (k in c <==> k in d) && (k in c ==> c[k] == d[k]) {
      assert k !in Written(m.operators) && forall i | 0 <= i < |es| :: es[i].name != k;
      CreateFrame(p, m.operators, Stamped(data, m), k);
    }
  }

  lemma CreatedClosedForm(p: Protocol, f: Footprint, data: Data, m: Member)
    requires Respects(p, f, [m]) && IgnoresDynamic(p) && Clear(f, m)
    ensures var c, y := Create(p, m.operators, Stamped(data, m)), OwnOf(p, data, m);
      && Hidden(c) == y.hidden && TemplateExecuter.Shown(c) == (!y.hidden && y.shown != []) && c.results == y.shown
      && Entry(ResultEvent(p.failure(c.data), "", "", []), false) == y.failure
  {
    SameResult(p, f, data, m);
    ItemsAgree(p, f, data, m);
    var c := Create(p, m.operators, Stamped(data, m));
    var d := Stamped(Evaluate(m.operators, data, p.env).data, m);
    assert p.failure(c.data) == p.failure(d);
    if c.result.Some? {
      var r := Evaluate(m.operators, data, p.env).result.value;
      assert p.item(c.data, Cleared(r)) == p.item(d, Cleared(r));
      assert p.item(d, r) == p.item(d, Cleared(r)) by {
        assert p.item(d, r) == p.item(d, r.(dynamic := map[]));
      }
    }
  }

  lemma AloneClosedForm(p: Protocol, f: Footprint, data: Data, m: Member)
    requires Respects(p, f, [m]) && IgnoresDynamic(p) && Clear(f, m)
    ensures Alone(p, data, m) == ReportOf(p.matcherStatus, OwnOf(p, data, m))
  {
    CreatedClosedForm(p, f, data, m);
  }

  // ---- A template in the pass and alone ----

  /** How what a member comes to in the cluster compares with what it reports alone. */
  lemma Compared(p: Protocol, data: Data, m: Member)
    requires ValidOrder(p.env.order)
    ensures var x, y := SoloOf(p, data, m), OwnOf(p, data, m); var ops := m.operators;
      && x.failure == y.failure && x.id == y.id && x.finds == Counts(p, data, ops)
      && y.hidden == Hides(p, data, ops) && (y.hidden ==> x.finds && x.events != [])
      && (Uncovers(p, data, ops) ==> x.finds && x.events == [] && y.shown != [])
      && (!Uncovers(p, data, ops) ==> y.shown == x.events)
      && (x.finds && y.shown == [] <==> OnlyDynamic(p, data, ops))
      && x.fails == (p.matcherStatus && !x.finds && !Aborted(p, data, ops))
      && (Aborted(p, data, ops) ==> !x.finds) && (!x.finds ==> y.shown == [])
  {
    ExtractionShape(m.operators.extractors, data, p.env);
    AbortsUnmatched(m.operators, View(Extracted(p, data, m.operators), p.env), p.env);
  }

  lemma AbortsUnmatched(ops: Operators, view: Data, env: Env)
    ensures Aborts(ops, view, env) ==> !Matched(ops, view, env)
  {
  }

  /** When a template alone answers true: it hides no match, and it has something to show or reports
      failures. */
  predicate Answers(p: Protocol, data: Data, ops: Operators) {
    !Hides(p, data, ops) && (p.matcherStatus || (Counts(p, data, ops) && !OnlyDynamic(p, data, ops)))
  }

  lemma AnswerAlone(p: Protocol, f: Footprint, data: Data, m: Member)
    requires Respects(p, f, [m]) && IgnoresDynamic(p) && Clear(f, m) && ValidOrder(p.env.order)
    ensures Alone(p, data, m).found <==> Answers(p, data, m.operators)
  {
    AloneClosedForm(p, f, data, m);
    Compared(p, data, m);
  }

  // ---- The event of the shared request ----

  /** No extractor reads what itself or a later one writes, so that running them again changes nothing. */
  ghost predicate Stable(f: Footprint, ops: Operators) {
    forall i, j | 0 <= i <= j < |ops.extractors| :: ops.extractors[j].name !in f.extractor(ops.extractors[i])
  }

  /** The operators of the shared request, if it has any, are those of the first member. */
  ghost predicate Leading(f: Footprint, first: Option<Operators>, ms: seq<Member>) {
    first.Some? ==> ms != [] && ms[0].operators == first.value && Stable(f, first.value)
  }

  function ValuesAt(p: Protocol, es: seq<Extractor>, data: Data, n: nat): seq<string>
    requires n < |es|
  {
    p.env.extracting(ExtractAll(es[..n], data, p.env).data, es[n])
  }

  /** The names under which extractors from the n-th on find something. */
  function FoundFrom(p: Protocol, es: seq<Extractor>, data: Data, n: nat): set<string>
    requires n <= |es|
    decreases |es| - n
  {
    if n == |es| then {}
    else FoundFrom(p, es, data, n + 1) + if ValuesAt(p, es, data, n) != [] then {es[n].name} else {}
  }

  ghost predicate AgreeBut(a: Data, b: Data, names: set<string>) {
    forall k | k !in names :: (k in a <==> k in b) && (k in a ==> a[k] == b[k])
  }

  lemma ExtractSnoc(es: seq<Extractor>, data: Data, env: Env, n: nat)
    requires n < |es|
    ensures var x := ExtractAll(es[..n], data, env);
      ExtractAll(es[..n + 1], data, env) == ExtractOne(x, es[n], env.extracting(x.data, es[n]))
  {
    assert es[..n + 1][..n] == es[..n];
  }

  lemma {:induction false} FoundFromStart(p: Protocol, es: seq<Extractor>, data: Data, n: nat)
    requires n <= |es|
    ensures FoundFrom(p, es, data, n) <= FoundFrom(p, es, data, 0)
  {
    if n > 0 { FoundFromStart(p, es, data, n - 1); }
  }

  /** After n extractors the data differs from the response only where something was found. */
  lemma {:induction false} FoundFrame(p: Protocol, es: seq<Extractor>, data: Data, n: nat)
    requires n <= |es|
    ensures var x := ExtractAll(es[..n], data, p.env);
      AgreeBut(x.data, data, FoundFrom(p, es, data, 0)) && x.dynamic.Keys <= FoundFrom(p, es, data, 0)
  {
    if n > 0 {
      FoundFrame(p, es, data, n - 1);
      ExtractSnoc(es, data, p.env, n - 1);
      FoundFromStart(p, es, data, n - 1);
      FrameStep(ExtractAll(es[..n - 1], data, p.env), es[n - 1], ValuesAt(p, es, data, n - 1), data, FoundFrom(p, es, data, 0));
    }
  }

  lemma FrameStep(x: Extraction, e: Extractor, values: seq<string>, data: Data, names: set<string>)
    requires AgreeBut(x.data, data, names) && x.dynamic.Keys <= names && (values != [] ==> e.name in names)
    ensures var x' := ExtractOne(x, e, values); AgreeBut(x'.data, data, names) && x'.dynamic.Keys <= names
  {
  }

  /** Two extractions that differ in their data under some names at most. */
  ghost predicate AlikeBut(x: Extraction, y: Extraction, names: set<string>) {
    x.dynamic == y.dynamic && x.outputs == y.outputs && x.extracts == y.extracts && AgreeBut(y.data, x.data, names)
  }

  lemma AlikeStep(x: Extraction, y: Extraction, e: Extractor, values: seq<string>, names: set<string>, rest: set<string>)
    requires AlikeBut(x, y, names) && names == rest + if values != [] then {e.name} else {}
    ensures AlikeBut(ExtractOne(x, e, values), ExtractOne(y, e, values), rest)
  {
  }

  /** What an extractor of stable operators reads was not found by itself or a later one. */
  lemma {:induction false} ReadsUnfound(p: Protocol, f: Footprint, ops: Operators, data: Data, i: nat, n: nat)
    requires Stable(f, ops) && i <= n <= |ops.extractors| && i < |ops.extractors|
    ensures f.extractor(ops.extractors[i]) !! FoundFrom(p, ops.extractors, data, n)
    decreases |ops.extractors| - n
  {
    if n < |ops.extractors| { ReadsUnfound(p, f, ops, data, i, n + 1); }
  }

  /** Running the extractors again, on data in which only what they found is changed. */
  lemma {:induction false} ExtractAgain(p: Protocol, f: Footprint, ops: Operators, a: Data, b: Data, n: nat)
    requires Local(p, f, ops) && Stable(f, ops) && n <= |ops.extractors|
    requires AgreeBut(b, a, FoundFrom(p, ops.extractors, a, 0))
    ensures AlikeBut(ExtractAll(ops.extractors[..n], a, p.env), ExtractAll(ops.extractors[..n], b, p.env),
                     FoundFrom(p, ops.extractors, a, n))
  {
    if n > 0 {
      var es, e := ops.extractors, ops.extractors[n - 1];
      ExtractAgain(p, f, ops, a, b, n - 1);
      ExtractSnoc(es, a, p.env, n - 1);
      ExtractSnoc(es, b, p.env, n - 1);
      SameValues(p, f, ops, a, b, n - 1);
      AlikeStep(ExtractAll(es[..n - 1], a, p.env), ExtractAll(es[..n - 1], b, p.env), e, ValuesAt(p, es, a, n - 1),
                FoundFrom(p, es, a, n - 1), FoundFrom(p, es, a, n));
    }
  }

  lemma SameValues(p: Protocol, f: Footprint, ops: Operators, a: Data, b: Data, n: nat)
    requires Local(p, f, ops) && Stable(f, ops) && n < |ops.extractors|
    requires AlikeBut(ExtractAll(ops.extractors[..n], a, p.env), ExtractAll(ops.extractors[..n], b, p.env),
                      FoundFrom(p, ops.extractors, a, n))
    ensures ValuesAt(p, ops.extractors, a, n) == ValuesAt(p, ops.extractors, b, n)
  {
    var e := ops.extractors[n];
    assert e in ops.extractors;
    ReadsUnfound(p, f, ops, a, n, n);
    assert Agree(ExtractAll(ops.extractors[..n], a, p.env).data, ExtractAll(ops.extractors[..n], b, p.env).data, f.extractor(e));
  }

  lemma CreatedFrame(p: Protocol, ops: Operators, data: Data)
    ensures AgreeBut(Create(p, ops, data).data, data, FoundFrom(p, ops.extractors, data, 0))
  {
    assert ops.extractors[..|ops.extractors|] == ops.extractors;
    FoundFrame(p, ops.extractors, data, |ops.extractors|);
  }

  lemma ExtractTwice(p: Protocol, f: Footprint, ops: Operators, data: Data)
    requires Local(p, f, ops) && Stable(f, ops)
    ensures ExtractAll(ops.extractors, Create(p, ops, data).data, p.env) == ExtractAll(ops.extractors, data, p.env)
  {
    var c := Create(p, ops, data).data;
    CreatedFrame(p, ops, data);
    ExtractAgain(p, f, ops, data, c, |ops.extractors|);
    assert ops.extractors[..|ops.extractors|] == ops.extractors;
    Alike(ExtractAll(ops.extractors, data, p.env), ExtractAll(ops.extractors, c, p.env));
  }

  lemma Alike(x: Extraction, y: Extraction)
    requires AlikeBut(x, y, {})
    ensures x == y
  {
    assert x.data == y.data;
  }

  /** Operators that already created the event come to the same on it again. */
  lemma EvaluateAgain(p: Protocol, f: Footprint, ops: Operators, data: Data)
    requires Local(p, f, ops) && Stable(f, ops)
    ensures Evaluate(ops, Create(p, ops, data).data, p.env) == Evaluate(ops, data, p.env)
  {
    ExtractTwice(p, f, ops, data);
  }

  lemma {:induction false} RunFromFirst(p: Protocol, s: Pass, ms: seq<Member>)
    requires ms != []
    ensures RunMembers(p, s, ms) == RunMembers(p, RunMember(p, s, ms[0]), ms[1..])
  {
    var last := |ms| - 1;
    if last == 0 {
      assert ms[..0] == [] && ms[1..] == [];
    } else {
      assert ms[..last][1..] == ms[1..][..last - 1];
      RunFromFirst(p, s, ms[..last]);
    }
  }

  /** That the shared request already ran the operators of the first template makes no difference:
      the pass is the one that starts from the response itself. */
  lemma SharedIsPlain(p: Protocol, f: Footprint, first: Option<Operators>, ms: seq<Member>, data: Data)
    requires Respects(p, f, ms) && Leading(f, first, ms)
    ensures Shared(p, first, ms, data) == RunMembers(p, Pass(data, [], [], false), ms)
  {
    if first.Some? {
      var c := Create(p, first.value, data);
      assert ms[0] in ms;
      EvaluateAgain(p, f, first.value, data);
      RunFromFirst(p, Pass(c.data, c.results, [], false), ms);
      RunFromFirst(p, Pass(data, [], [], false), ms);
    }
  }
}
