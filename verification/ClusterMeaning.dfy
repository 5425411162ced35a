/** Non-interference in a cluster: when no template reads what an earlier one writes into the shared
    data, every template comes in a pass to what its operators come to on the response itself. */
module ClusterMeaning {
  import opened Operators
  import opened OperatorResults
  import opened ClusterExecuter

  /** The keys that matchers, extractors and result items look at. */
  datatype Footprint = Footprint(matcher: Matcher -> set<string>, extractor: Extractor -> set<string>, item: set<string>)

  ghost predicate Agree(a: Data, b: Data, keys: set<string>) {
    forall k | k in keys :: (k in a <==> k in b) && (k in a ==> a[k] == b[k])
  }

  /** The matchers and extractors look at no other keys than the footprint says. */
  ghost predicate Local(p: Protocol, f: Footprint, ops: Operators) {
    && (forall a, b, m | m in ops.matchers && Agree(a, b, f.matcher(m)) :: p.env.matching(a, m) == p.env.matching(b, m))
    && (forall a, b, e | e in ops.extractors && Agree(a, b, f.extractor(e)) :: p.env.extracting(a, e) == p.env.extracting(b, e))
  }

  /** So do those of all members, and the items of result and failure events. */
  ghost predicate Respects(p: Protocol, f: Footprint, ms: seq<Member>) {
    && (forall m | m in ms :: Local(p, f, m.operators))
    && (forall a, b, r | Agree(a, b, f.item) :: p.item(a, r) == p.item(b, r))
    && (forall a, b | Agree(a, b, f.item) :: p.failure(a) == p.failure(b))
  }

  /** Result and failure events are attributed to the template ID of the data. */
  ghost predicate Attributes(p: Protocol) {
    && (forall d, r, id :: TEMPLATE_ID in d && d[TEMPLATE_ID] == Text(id) ==> p.item(d, r).templateID == id)
    && (forall d, id :: TEMPLATE_ID in d && d[TEMPLATE_ID] == Text(id) ==> p.failure(d).templateID == id)
  }

  function Written(ops: Operators): set<string> {
    set i | 0 <= i < |ops.extractors| :: ops.extractors[i].name
  }

  ghost predicate ReadsWithin(ops: Operators, f: Footprint, keys: set<string>) {
    && (forall m | m in ops.matchers :: f.matcher(m) <= keys)
    && (forall e | e in ops.extractors :: f.extractor(e) <= keys)
  }

  /** A template neither reads, nor reports, what an earlier one writes. */
  ghost predicate Independent(f: Footprint, before: Member, after: Member) {
    && (forall m | m in after.operators.matchers :: f.matcher(m) !! Written(before.operators) + TEMPLATE_KEYS)
    && (forall e | e in after.operators.extractors :: f.extractor(e) !! Written(before.operators) + TEMPLATE_KEYS)
    && f.item - TEMPLATE_KEYS !! Written(before.operators)
  }

  ghost predicate NonInterfering(f: Footprint, ms: seq<Member>) {
    forall i, j | 0 <= i < j < |ms| :: Independent(f, ms[i], ms[j])
  }

  // ---- Evaluation depends on what is read only ----

  lemma {:induction false} ExtractLocal(p: Protocol, f: Footprint, es: seq<Extractor>, a: Data, b: Data, keys: set<string>)
    requires Agree(a, b, keys) && forall e | e in es :: f.extractor(e) <= keys
    requires forall c, d, e | e in es && Agree(c, d, f.extractor(e)) :: p.env.extracting(c, e) == p.env.extracting(d, e)
    ensures var x, y := ExtractAll(es, a, p.env), ExtractAll(es, b, p.env);
      x.dynamic == y.dynamic && x.outputs == y.outputs && x.extracts == y.extracts && Agree(x.data, y.data, keys)
  {
    if es != [] {
      var last := |es| - 1;
      ExtractLocal(p, f, es[..last], a, b, keys);
      var x, y := ExtractAll(es[..last], a, p.env), ExtractAll(es[..last], b, p.env);
      assert es[last] in es;
      assert Agree(x.data, y.data, f.extractor(es[last]));
    }
  }

  lemma {:induction false} ExtractFrame(es: seq<Extractor>, data: Data, env: Env)
    ensures forall k | (forall i | 0 <= i < |es| :: es[i].name != k) ::
      var x := ExtractAll(es, data, env).data; (k in x <==> k in data) && (k in data ==> x[k] == data[k])
  {
    if es != [] {
      ExtractFrame(es[..|es| - 1], data, env);
    }
  }

  lemma {:induction false} MatchesLocal(p: Protocol, f: Footprint, ops: Operators, a: Data, b: Data, n: nat)
    requires n <= |ops.matchers|
    requires forall i | 0 <= i < |ops.matchers| :: p.env.matching(a, ops.matchers[i]) == p.env.matching(b, ops.matchers[i])
    ensures MatchesUpTo(ops, a, p.env, n) == MatchesUpTo(ops, b, p.env, n)
  {
    if n > 0 { MatchesLocal(p, f, ops, a, b, n - 1); }
  }

  lemma {:induction false} FailingLocal(p: Protocol, ops: Operators, a: Data, b: Data, n: nat)
    requires n <= |ops.matchers|
    requires forall i | 0 <= i < |ops.matchers| :: p.env.matching(a, ops.matchers[i]) == p.env.matching(b, ops.matchers[i])
    ensures FirstFailing(ops, a, p.env, n) == FirstFailing(ops, b, p.env, n)
    decreases |ops.matchers| - n
  {
    if n < |ops.matchers| { FailingLocal(p, ops, a, b, n + 1); }
  }

  lemma EvaluateLocal(p: Protocol, f: Footprint, ops: Operators, a: Data, b: Data, keys: set<string>)
    requires Local(p, f, ops) && Agree(a, b, keys) && ReadsWithin(ops, f, keys)
    ensures var e, g := Evaluate(ops, a, p.env), Evaluate(ops, b, p.env);
      e.result == g.result && e.verdict == g.verdict && Agree(e.data, g.data, keys)
  {
    ExtractLocal(p, f, ops.extractors, a, b, keys);
    var x, y := ExtractAll(ops.extractors, a, p.env), ExtractAll(ops.extractors, b, p.env);
    var v, w := View(x, p.env), View(y, p.env);
    assert Agree(v, w, keys);
    forall i | 0 <= i < |ops.matchers| ensures p.env.matching(v, ops.matchers[i]) == p.env.matching(w, ops.matchers[i]) {
      assert ops.matchers[i] in ops.matchers;
      assert Agree(v, w, f.matcher(ops.matchers[i]));
    }
    FailingLocal(p, ops, v, w, 0);
    MatchesLocal(p, f, ops, v, w, |ops.matchers|);
    MatchesLocal(p, f, ops, v, w, FirstFailing(ops, v, p.env, 0));
    assert forall i | 0 <= i < |ops.matchers| :: Holds(ops, v, p.env, i) == Holds(ops, w, p.env, i);
    assert Matched(ops, v, p.env) == Matched(ops, w, p.env);
  }

  // ---- One member in the middle of a pass ----

  /** The keys that one of the members writes. */
  ghost predicate Touched(ms: seq<Member>, k: string) {
    ms != [] && (k in TEMPLATE_KEYS || exists i | 0 <= i < |ms| :: k in Written(ms[i].operators))
  }

  lemma MemberFrame(p: Protocol, s: Pass, m: Member, k: string)
    requires k !in Written(m.operators) + TEMPLATE_KEYS
    ensures var d := RunMember(p, s, m).data; (k in d <==> k in s.data) && (k in s.data ==> d[k] == s.data[k])
  {
    var es := m.operators.extractors;
    ExtractFrame(es, s.data, p.env);
    assert forall i | 0 <= i < |es| :: es[i].name != k;
    assert RunMember(p, s, m).data == Stamped(ExtractAll(es, s.data, p.env).data, m);
  }

  lemma {:induction false} PassFrame(p: Protocol, s: Pass, ms: seq<Member>)
    ensures forall k | !Touched(ms, k) ::
      (k in RunMembers(p, s, ms).data <==> k in s.data) && (k in s.data ==> RunMembers(p, s, ms).data[k] == s.data[k])
  {
    if ms != [] {
      var last := |ms| - 1;
      var front := RunMembers(p, s, ms[..last]);
      PassFrame(p, s, ms[..last]);
      forall k | !Touched(ms, k)
        ensures var d := RunMembers(p, s, ms).data; (k in d <==> k in s.data) && (k in s.data ==> d[k] == s.data[k])
      {
        assert forall i | 0 <= i < last :: ms[..last][i] == ms[i];
        assert !Touched(ms[..last], k);
        MemberFrame(p, front, ms[last], k);
      }
    }
  }

  /** On two data a member comes to the same result, and would report the same. */
  ghost predicate SameOn(p: Protocol, a: Data, b: Data, m: Member) {
    var e, g := Evaluate(m.operators, a, p.env), Evaluate(m.operators, b, p.env);
    && e.result == g.result && e.verdict == g.verdict
    && (e.result.Some? ==> Findings(p, Stamped(e.data, m), e.result.value) == Findings(p, Stamped(g.data, m), e.result.value))
    && p.failure(Stamped(e.data, m)) == p.failure(Stamped(g.data, m))
  }

  lemma MemberLocal(p: Protocol, f: Footprint, a: Data, b: Data, m: Member, keys: set<string>)
    requires Respects(p, f, [m]) && Agree(a, b, keys) && ReadsWithin(m.operators, f, keys) && f.item - TEMPLATE_KEYS <= keys
    ensures SameOn(p, a, b, m)
  {
    assert m in [m];
    EvaluateLocal(p, f, m.operators, a, b, keys);
    var e, g := Evaluate(m.operators, a, p.env), Evaluate(m.operators, b, p.env);
    assert Agree(Stamped(e.data, m), Stamped(g.data, m), f.item) by {
      forall k | k in f.item
        ensures var d, h := Stamped(e.data, m), Stamped(g.data, m); (k in d <==> k in h) && (k in d ==> d[k] == h[k])
      {
        assert k in TEMPLATE_KEYS || k in keys;
      }
    }
  }

  // ---- The pass in terms of what each member comes to ----

  /** What the operators of a member come to on the response: whether they count as a match and what
      the cluster then writes, whether it writes a failure otherwise (not when AND aborted the
      matchers), and that failure. */
  datatype Solo = Solo(id: string, finds: bool, events: seq<ResultEvent>, fails: bool, failure: Entry)

  function SoloOf(p: Protocol, data: Data, m: Member): Solo {
    var e := Evaluate(m.operators, data, p.env);
    Solo(m.templateID, e.verdict, if e.verdict then Findings(p, Stamped(e.data, m), e.result.value) else [],
         e.result.None? && p.matcherStatus, Entry(ResultEvent(p.failure(Stamped(e.data, m)), "", "", []), false))
  }

  function Solos(p: Protocol, data: Data, ms: seq<Member>): seq<Solo> {
    seq(|ms|, i requires 0 <= i < |ms| => SoloOf(p, data, ms[i]))
  }

  /** The results in the event after some members: those of the last one that found something. */
  function Leftover(xs: seq<Solo>): seq<ResultEvent> {
    if xs == [] then []
    else
      var last := |xs| - 1;
      if xs[last].finds then xs[last].events else Leftover(xs[..last])
  }

  /** What a member adds to the output when the event carries the given results. */
  function Added(x: Solo, results: seq<ResultEvent>): seq<Entry> {
    if x.finds then Entries(x.events, true)
    else if !x.fails then []
    else if results != [] then Entries(results, false)
    else [x.failure]
  }

  function PassOutput(xs: seq<Solo>): seq<Entry> {
    if xs == [] then []
    else
      var last := |xs| - 1;
      PassOutput(xs[..last]) + Added(xs[last], Leftover(xs[..last]))
  }

  lemma SolosSnoc(p: Protocol, data: Data, ms: seq<Member>)
    requires ms != []
    ensures Solos(p, data, ms) == Solos(p, data, ms[..|ms| - 1]) + [SoloOf(p, data, ms[|ms| - 1])]
    ensures Solos(p, data, ms)[..|ms| - 1] == Solos(p, data, ms[..|ms| - 1])
  {
  }

  /** The keys a member depends on. */
  ghost function Keys(f: Footprint, m: Member): (keys: set<string>)
    ensures ReadsWithin(m.operators, f, keys) && f.item - TEMPLATE_KEYS <= keys
  {
    (set x, k | x in m.operators.matchers && k in f.matcher(x) :: k)
    + (set x, k | x in m.operators.extractors && k in f.extractor(x) :: k)
    + (f.item - TEMPLATE_KEYS)
  }

  lemma KeysUntouched(f: Footprint, ms: seq<Member>, k: string)
    requires ms != [] && NonInterfering(f, ms) && k in Keys(f, ms[|ms| - 1])
    ensures !Touched(ms[..|ms| - 1], k)
  {
    var last := |ms| - 1;
    forall i | 0 <= i < last ensures k !in Written(ms[i].operators) && k !in TEMPLATE_KEYS {
      assert Independent(f, ms[i], ms[last]);
    }
    if last > 0 { assert k !in Written(ms[0].operators) && k !in TEMPLATE_KEYS; }
  }

  lemma LastMemberInPass(p: Protocol, f: Footprint, data: Data, ms: seq<Member>)
    requires Respects(p, f, ms) && NonInterfering(f, ms) && ms != []
    ensures SameOn(p, RunMembers(p, Pass(data, [], [], false), ms[..|ms| - 1]).data, data, ms[|ms| - 1])
  {
    var last := |ms| - 1;
    var begin := Pass(data, [], [], false);
    var s := RunMembers(p, begin, ms[..last]);
    PassFrame(p, begin, ms[..last]);
    var keys := Keys(f, ms[last]);
    forall k | k in keys ensures (k in s.data <==> k in data) && (k in data ==> s.data[k] == data[k]) {
      KeysUntouched(f, ms, k);
    }
    assert ms[last] in ms && Respects(p, f, [ms[last]]);
    MemberLocal(p, f, s.data, data, ms[last], keys);
  }

  lemma MemberStep(p: Protocol, data: Data, s: Pass, m: Member)
    requires SameOn(p, s.data, data, m)
    ensures var s', x := RunMember(p, s, m), SoloOf(p, data, m);
      && s'.output == s.output + Added(x, s.results)
      && s'.results == (if x.finds then x.events else s.results)
      && s'.found == (s.found || x.finds)
  {
  }

  function OneFinds(xs: seq<Solo>): bool {
    xs != [] && (OneFinds(xs[..|xs| - 1]) || xs[|xs| - 1].finds)
  }

  lemma {:induction false} OneFindsExactly(xs: seq<Solo>)
    ensures OneFinds(xs) <==> exists i | 0 <= i < |xs| :: xs[i].finds
  {
    if xs != [] {
      var front := xs[..|xs| - 1];
      OneFindsExactly(front);
      assert forall i | 0 <= i < |front| :: front[i] == xs[i];
    }
  }

  lemma FrontToo(p: Protocol, f: Footprint, ms: seq<Member>)
    requires Respects(p, f, ms) && NonInterfering(f, ms) && ms != []
    ensures Respects(p, f, ms[..|ms| - 1]) && NonInterfering(f, ms[..|ms| - 1])
  {
  }

  /** Output, results left on the event and answer of a pass, from what the members come to. */
  lemma {:induction false} PassClosedForm(p: Protocol, f: Footprint, data: Data, ms: seq<Member>)
    requires Respects(p, f, ms) && NonInterfering(f, ms)
    ensures var s, xs := RunMembers(p, Pass(data, [], [], false), ms), Solos(p, data, ms);
      s.output == PassOutput(xs) && s.results == Leftover(xs) && s.found == OneFinds(xs)
  {
    if ms != [] {
      var last := |ms| - 1;
      FrontToo(p, f, ms);
      PassClosedForm(p, f, data, ms[..last]);
      LastMemberInPass(p, f, data, ms);
      MemberStep(p, data, RunMembers(p, Pass(data, [], [], false), ms[..last]), ms[last]);
      SolosSnoc(p, data, ms);
    }
  }
}
