/** An input for each way in which a template of a cluster differs from the same template alone. A
    matcher holds, and an extractor finds a value, exactly when it refers to 1. */
module ClusterDifferences {
  import opened Operators
  import opened OperatorResults
  import opened ClusterExecuter
  import opened ClusterMeaning
  import opened TemplateExecuter
  import opened ClusterAlone
  import opened ClusterEquivalence
  import opened ClusterEvents

  ghost function Listing(s: set<string>): seq<string> {
    if s == {} then [] else var x :| x in s; [x] + Listing(s - {x})
  }

  lemma {:induction false} ListingLists(s: set<string>)
    ensures |Listing(s)| == |s| && forall k :: k in Listing(s) <==> k in s
  {
    if s != {} {
      var x :| x in s && Listing(s) == [x] + Listing(s - {x});
      ListingLists(s - {x});
    }
  }

  function Holding(d: Data, m: Matcher): (bool, seq<string>) { (m.ref == 1, []) }

  function Finding(d: Data, e: Extractor): seq<string> { if e.ref == 1 then ["value"] else [] }

  function ItemOf(d: Data): Item {
    Item(if TEMPLATE_ID in d && d[TEMPLATE_ID].Text? then d[TEMPLATE_ID].text else "", "")
  }

  ghost function Example(extracting: (Data, Extractor) -> seq<string>, status: bool): Protocol {
    Protocol(Env(Holding, extracting, (id, name) => false, (m: Texts) => Listing(m.Keys), false),
             (d, r) => ItemOf(d), ItemOf, status)
  }

  const BLIND := Footprint((m: Matcher) => {}, (e: Extractor) => {}, {TEMPLATE_ID})

  lemma ExampleSeparable(status: bool, ms: seq<Member>)
    requires forall i | 0 <= i < |ms| :: TEMPLATE_ID !in Written(ms[i].operators)
    requires forall i, j | 0 <= i < j < |ms| :: ms[i].templateID != ms[j].templateID
    ensures Separable(Example(Finding, status), BLIND, ms)
  {
    ExampleOrder(Example(Finding, status).env.order);
  }

  function Template(id: string, matchers: seq<Matcher>, extractors: seq<Extractor>, condition: Condition): Member {
    Member(id, "", "", Operators(id, matchers, extractors, condition))
  }

  function ExtractorOf(name: string, isInternal: bool): Extractor { Extractor(name, isInternal, "regex", "", [], false, 1) }

  function Nothing(data: Data): Extraction { Extraction(data, map[], [], map[]) }

  lemma ExtractSingle(e: Extractor, data: Data, env: Env)
    ensures ExtractAll([e], data, env) == ExtractOne(Nothing(data), e, env.extracting(data, e))
  {
    assert [e][..0] == [];
  }

  lemma ExtractPair(e: Extractor, g: Extractor, data: Data, env: Env)
    ensures var x := ExtractAll([e], data, env); ExtractAll([e, g], data, env) == ExtractOne(x, g, env.extracting(x.data, g))
  {
    assert [e, g][..1] == [e];
  }

  lemma OneValue()
    ensures [] + ["value"] == ["value"] && Dedupe(["value"]) == ["value"]
  {
    assert ["value"][..0] == [];
  }

  const FAILING := Matcher("", "word", "", 0, false)
  const INTERNAL := Matcher("", "word", "", 1, true)

  /** An internal and a visible extractor. */
  const BOTH := Template("both", [], [ExtractorOf("token", true), ExtractorOf("title", false)], Or)

  /** Without matchers, dynamic values suppress in the cluster what the template reports alone. */
  lemma DynamicValuesSuppress(status: bool)
    ensures var p := Example(Finding, status);
      && OwnResults(p, map[], BOTH) != []
      && For(Reported(Shared(p, Some(BOTH.operators), [BOTH], map[]).output), "both") != OwnResults(p, map[], BOTH)
  {
    var p, es := Example(Finding, status), BOTH.operators.extractors;
    ExampleSeparable(status, [BOTH]);
    ExtractPair(es[0], es[1], map[], p.env);
    ExtractSingle(es[0], map[], p.env);
    OneValue();
    assert es == [es[0], es[1]] && ExtractAll(es, map[], p.env).outputs == ["value"];
    assert "token" in ExtractAll(es, map[], p.env).dynamic;
    assert Uncovers(p, map[], BOTH.operators);
    TemplateReportsExactly(p, BLIND, Some(BOTH.operators), [BOTH], map[], 0);
    Compared(p, map[], BOTH);
    OwnReports(p, BLIND, map[], BOTH);
  }

  const QUIET := Template("quiet", [INTERNAL], [], Or)

  /** A match of internal matchers is written by the cluster and hidden alone. */
  lemma InternalMatchIsWritten(status: bool)
    ensures var p := Example(Finding, status);
      && Alone(p, map[], QUIET) == Report([], false)
      && Shared(p, Some(QUIET.operators), [QUIET], map[]).output != []
  {
    var p := Example(Finding, status);
    ExampleSeparable(status, [QUIET]);
    assert Active(QUIET.operators, p.env, 0) && Holds(QUIET.operators, map[], p.env, 0);
    assert Hides(p, map[], QUIET.operators);
    AloneClosedForm(p, BLIND, map[], QUIET);
    Compared(p, map[], QUIET);
    SharedClosedForm(p, BLIND, Some(QUIET.operators), [QUIET], map[]);
    PassSnoc(Solos(p, map[], [QUIET]), 0);
  }

  const STRICT := Template("strict", [FAILING], [], And)

  /** A failure under AND is written alone and not by the cluster; and alone it answers true. */
  lemma FailureUnderAndIsLost()
    ensures var p := Example(Finding, true);
      && Alone(p, map[], STRICT).found && |Alone(p, map[], STRICT).output| == 1
      && Shared(p, Some(STRICT.operators), [STRICT], map[]).output == []
      && !Shared(p, Some(STRICT.operators), [STRICT], map[]).found
  {
    var p := Example(Finding, true);
    ExampleSeparable(true, [STRICT]);
    assert !Holds(STRICT.operators, map[], p.env, 0) && Active(STRICT.operators, p.env, 0);
    assert FirstFailing(STRICT.operators, map[], p.env, 0) == 0;
    assert Aborted(p, map[], STRICT.operators);
    AloneClosedForm(p, BLIND, map[], STRICT);
    Compared(p, map[], STRICT);
    SharedClosedForm(p, BLIND, Some(STRICT.operators), [STRICT], map[]);
    PassSnoc(Solos(p, map[], [STRICT]), 0);
    assert Solos(p, map[], [STRICT])[..0] == [];
  }

  const HARVEST := Template("harvest", [], [ExtractorOf("token", true)], Or)

  /** Dynamic values alone make the cluster answer true, and the template answer false. */
  lemma DynamicValuesAnswer()
    ensures var p := Example(Finding, false);
      Shared(p, Some(HARVEST.operators), [HARVEST], map[]).found && !Alone(p, map[], HARVEST).found
  {
    var p, es := Example(Finding, false), HARVEST.operators.extractors;
    ExampleSeparable(false, [HARVEST]);
    ExtractSingle(es[0], map[], p.env);
    assert es == [es[0]] && "token" in ExtractAll(es, map[], p.env).dynamic;
    assert OnlyDynamic(p, map[], HARVEST.operators) && Counts(p, map[], HARVEST.operators);
    ClusterAnswersExactly(p, BLIND, Some(HARVEST.operators), [HARVEST], map[]);
    assert Counts(p, map[], [HARVEST][0].operators);
    AnswerAlone(p, BLIND, map[], HARVEST);
  }

  const LOUD := Template("loud", [Matcher("", "word", "", 1, false)], [], Or)
  const MISS := Template("miss", [FAILING], [], Or)

  /** A template that fails behind one that matched has its failure written under the other's name. */
  lemma FailureIsMisattributed()
    ensures var p := Example(Finding, true);
      && Names(AloneOutput(p, map[], [LOUD, MISS]), "miss")
      && !Names(Shared(p, Some(LOUD.operators), [LOUD, MISS], map[]).output, "miss")
  {
    var p, ms := Example(Finding, true), [LOUD, MISS];
    var xs := Solos(p, map[], ms);
    ExampleSeparable(true, ms);
    LoudAndMiss(p);
    assert Solos(p, map[], ms)[..1] == [xs[0]] && [xs[0]][..0] == [];
    assert FailsWithLeftover(xs, 1);
    SharedClosedForm(p, BLIND, Some(LOUD.operators), ms, map[]);
    PassNames(xs, 2, 1);
    FaithfulAdds(p, BLIND, map[], ms, 1);
    AloneNamesOnly(p, BLIND, map[], ms);
    UpToNames(AloneParts(p, map[], ms), IDs(ms), 2, 1);
  }

  lemma LoudAndMiss(p: Protocol)
    requires p == Example(Finding, true) && ValidOrder(p.env.order)
    ensures var x, y := SoloOf(p, map[], LOUD), SoloOf(p, map[], MISS); x.finds && x.events != [] && !y.finds && y.fails
  {
    assert Active(LOUD.operators, p.env, 0) && Holds(LOUD.operators, map[], p.env, 0);
    assert Matching(p, map[], LOUD.operators) && !Matching(p, map[], MISS.operators);
    Compared(p, map[], LOUD);
    Compared(p, map[], MISS);
  }

  /** An extractor that finds something only while its own name is free. */
  function FindingOnce(d: Data, e: Extractor): seq<string> { if e.name in d then [] else ["value"] }

  lemma ExampleOrder(order: Texts -> seq<string>)
    requires forall m: Texts :: order(m) == Listing(m.Keys)
    ensures ValidOrder(order)
  {
    forall m: Texts ensures |order(m)| == |m| && forall k :: k in order(m) <==> k in m {
      ListingLists(m.Keys);
      assert |m.Keys| == |m|;
    }
  }

  lemma FoundOnce(p: Protocol, data: Data)
    requires p == Example(FindingOnce, false) && "title" !in data && ValidOrder(p.env.order)
    ensures var c := Create(p, ONCE.operators, data); c.result.Some? && c.results != [] && !c.result.value.matched && "title" in c.data
  {
    var es := ONCE.operators.extractors;
    ExtractSingle(es[0], data, p.env);
    OneValue();
    assert es == [es[0]] && ExtractAll(es, data, p.env).outputs == ["value"];
    CreatedResultsExactly(p, ONCE.operators, data);
  }

  lemma NotFoundAgain(p: Protocol, data: Data)
    requires p == Example(FindingOnce, false) && "title" in data
    ensures !Evaluate(ONCE.operators, data, p.env).verdict
  {
    var es := ONCE.operators.extractors;
    ExtractSingle(es[0], data, p.env);
    assert es == [es[0]];
  }

  const ONCE := Template("once", [], [ExtractorOf("title", false)], Or)

  /** Its footprint: every extractor reads its own name. */
  const NAMED := Footprint((m: Matcher) => {}, (e: Extractor) => {e.name}, {TEMPLATE_ID})

  lemma OnceAlone(p: Protocol)
    requires p == Example(FindingOnce, false) && ValidOrder(p.env.order)
    ensures Alone(p, map[], ONCE).output != []
  {
    FoundOnce(p, Stamped(map[], ONCE));
  }

  lemma OnceShared(p: Protocol)
    requires p == Example(FindingOnce, false) && ValidOrder(p.env.order)
    ensures Shared(p, Some(ONCE.operators), [ONCE], map[]).output == []
  {
    FoundOnce(p, map[]);
    var c := Create(p, ONCE.operators, map[]);
    NotFoundAgain(p, c.data);
    QuietStep(p, Pass(c.data, c.results, [], false), ONCE);
  }

  lemma QuietStep(p: Protocol, s: Pass, m: Member)
    requires !p.matcherStatus && !Evaluate(m.operators, s.data, p.env).verdict
    ensures RunMembers(p, s, [m]).output == s.output
  {
    assert [m][..0] == [];
    assert RunMembers(p, s, [m]) == RunMember(p, s, m);
  }

  lemma OnceSeparable(p: Protocol)
    requires p == Example(FindingOnce, false) && ValidOrder(p.env.order)
    ensures Separable(p, NAMED, [ONCE])
  {
  }

  /** Operators that read what they write are not the same the second time: although the template is
      separable it reports something alone, and in the cluster that it leads it does not. */
  lemma UnstableOperatorsAreLost()
    ensures var p := Example(FindingOnce, false);
      && Separable(p, NAMED, [ONCE]) && !Stable(NAMED, ONCE.operators)
      && Alone(p, map[], ONCE).output != [] && Shared(p, Some(ONCE.operators), [ONCE], map[]).output == []
  {
    var p := Example(FindingOnce, false);
    ExampleOrder(p.env.order);
    OnceSeparable(p);
    OnceAlone(p);
    OnceShared(p);
    assert ONCE.operators.extractors[0].name in NAMED.extractor(ONCE.operators.extractors[0]);
  }

  const FAILED := Template("failed", [FAILING], [], Or)

  lemma FailedFails(data: Data)
    ensures var p := Example(Finding, true);
      && FailsOn(p, data, FAILED.operators) && !ShowsOn(p, data, FAILED.operators)
      && !Hides(p, data, FAILED.operators) && !Uncovers(p, data, FAILED.operators)
  {
    var p := Example(Finding, true);
    assert !Holds(FAILED.operators, View(Extracted(p, data, FAILED.operators), p.env), p.env, 0);
    assert ExtractAll([], data, p.env) == Nothing(data);
  }

  lemma FailuresSnoc(xs: seq<Solo>, x: Solo)
    requires Failing(x)
    ensures |FailuresOf(xs + [x])| == |FailuresOf(xs)| + 1
  {
    assert (xs + [x])[..|xs|] == xs;
  }

  lemma TwoFailures(xs: seq<Solo>, ys: seq<Own>)
    requires |xs| == |ys| == 2 && forall i | 0 <= i < 2 :: Agrees(xs[i], ys[i]) && Failing(xs[i])
    ensures |PartsOf(xs)| == 2 && |OwnOutput(true, ys)| == 1
  {
    PartsMixed(xs, ys);
    NothingShown(ys);
    DueIsLast(ys);
    assert xs == [xs[0]] + [xs[1]] && [xs[0]] == [] + [xs[0]];
    FailuresSnoc([], xs[0]);
    FailuresSnoc([xs[0]], xs[1]);
  }

  lemma FailedTwice(a: Data, b: Data)
    ensures var p := Example(Finding, true);
            |PartsOf(Xs(p, FAILED, [a, b]))| == 2 && |OwnOutput(true, Ys(p, FAILED, [a, b]))| == 1
  {
    var p, ds := Example(Finding, true), [a, b];
    var xs, ys := Xs(p, FAILED, ds), Ys(p, FAILED, ds);
    ExampleOrder(p.env.order);
    forall i | 0 <= i < 2 ensures Agrees(xs[i], ys[i]) && Failing(xs[i]) {
      FailedFails(ds[i]);
      OneCounted(p, ds[i], FAILED);
    }
    TwoFailures(xs, ys);
  }

  /** A template that fails on two responses of one request reports one failure alone, and a cluster
      reports it twice. */
  lemma FailureIsRepeated(a: Data, b: Data)
    ensures var p := Example(Finding, true);
      && |AloneOn(p, FAILED, [a, b]).output| == 1
      && |Under(ClusterOn(p, Some(FAILED.operators), [FAILED], [a, b]).output, "failed")| == 2
  {
    var p, ms, ds := Example(Finding, true), [FAILED], [a, b];
    ExampleSeparable(true, ms);
    SeparableOne(p, BLIND, ms, 0);
    FailedTwice(a, b);
    AloneOnClosedForm(p, BLIND, FAILED, ds);
    forall i | 0 <= i < |ds| ensures NothingLeft(Solos(p, ds[i], ms)) { assert Solos(p, ds[i], ms)[..0] == []; }
    OneMemberOn(p, ms, ds);
  }

  lemma OneMemberOn(p: Protocol, ms: seq<Member>, ds: seq<Data>)
    requires Separable(p, BLIND, ms) && Leading(BLIND, Some(FAILED.operators), ms) && ms == [FAILED]
    requires forall i | 0 <= i < |ds| :: NothingLeft(Solos(p, ds[i], ms))
    ensures Under(ClusterOn(p, Some(FAILED.operators), ms, ds).output, "failed") == PartsOf(Xs(p, FAILED, ds))
  {
    ClusterOnClosedForm(p, BLIND, Some(FAILED.operators), ms, ds);
    ColumnsAre(p, BLIND, ms, ds, 0);
    PassesUnder(SolosOn(p, ms, ds), 0, "failed");
  }
}
