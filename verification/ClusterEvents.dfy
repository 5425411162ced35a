/** A request that leads to several responses, as redirects do: alone a template reports at most one
    failure, after the last response and only if it showed nothing; in a cluster every response is
    reported for itself. */
module ClusterEvents {
  import opened Operators
  import opened OperatorResults
  import opened ClusterExecuter
  import opened ClusterMeaning
  import opened TemplateExecuter
  import opened ClusterAlone
  import opened ClusterEquivalence

  // ---- Alone ----

  /** The output so far, whether something was written, and the last event that had nothing to show. */
  datatype Progress = Progress(output: seq<Entry>, matched: bool, last: Option<Created>)

  function OnEvent(g: Progress, c: Created): Progress {
    if Hidden(c) then g
    else if TemplateExecuter.Shown(c) then Progress(g.output + Entries(c.results, true), true, g.last)
    else Progress(g.output, g.matched, Some(c))
  }

  function After(cs: seq<Created>): Progress {
    if cs == [] then Progress([], false, None) else OnEvent(After(cs[..|cs| - 1]), cs[|cs| - 1])
  }

  /** The events that a template alone creates of the responses. */
  function CreatedOn(p: Protocol, m: Member, ds: seq<Data>): seq<Created> {
    seq(|ds|, i requires 0 <= i < |ds| => Create(p, m.operators, Stamped(ds[i], m)))
  }

  /** In the end a failure may be due. */
  function Ended(p: Protocol, g: Progress): Report {
    if g.last.Some? && !g.matched && p.matcherStatus
    then Report(g.output + FailureEntries(p, g.last.value.results, g.last.value.data), true)
    else Report(g.output, g.matched)
  }

  function AloneOn(p: Protocol, m: Member, ds: seq<Data>): Report { Ended(p, After(CreatedOn(p, m, ds))) }

  lemma AfterNext(cs: seq<Created>, i: nat)
    requires i < |cs|
    ensures After(cs[..i + 1]) == OnEvent(After(cs[..i]), cs[i])
  {
    assert cs[..i + 1][..i] == cs[..i];
  }

  lemma AfterSnoc(p: Protocol, m: Member, ds: seq<Data>, i: nat)
    requires i < |ds|
    ensures After(CreatedOn(p, m, ds[..i + 1])) == OnEvent(After(CreatedOn(p, m, ds[..i])), Create(p, m.operators, Stamped(ds[i], m)))
  {
    var cs := CreatedOn(p, m, ds);
    assert CreatedOn(p, m, ds[..i + 1]) == cs[..i + 1] && CreatedOn(p, m, ds[..i]) == cs[..i];
    AfterNext(cs, i);
  }

  /** TemplateExecuter.Execute on the responses of one request. */
  method ExecuteAloneOn(p: Protocol, m: Member, ds: seq<Data>) returns (output: seq<Entry>, found: bool)
    requires ValidOrder(p.env.order)
    ensures Report(output, found) == AloneOn(p, m, ds)
  {
    output, found := [], false;
    var last: WrappedEvent? := null;
    for i := 0 to |ds|
      invariant var g := After(CreatedOn(p, m, ds[..i]));
        && output == g.output && found == g.matched && (last == null <==> g.last == None)
        && (last != null ==> g.last == Some(Created(last.internalEvent.data, last.operatorsResult, last.results)))
    {
      AfterSnoc(p, m, ds, i);
      var event := CreateEvent(p, Some(m.operators), Stamped(ds[i], m));
      var more, matched, isLast := OnResult(p, event);
      output, found := output + more, found || matched;
      if isLast { last := event; }
    }
    assert ds[..|ds|] == ds;
    if last != null && !found && p.matcherStatus {
      output := WriteFailure(p, last, output);
      found := true;
    }
  }

  // ---- In a cluster ----

  function Together(ss: seq<Pass>): Report {
    if ss == [] then Report([], false)
    else
      var front, s := Together(ss[..|ss| - 1]), ss[|ss| - 1];
      Report(front.output + s.output, front.found || s.found)
  }

  function SharedOn(p: Protocol, first: Option<Operators>, ms: seq<Member>, ds: seq<Data>): seq<Pass> {
    seq(|ds|, i requires 0 <= i < |ds| => Shared(p, first, ms, ds[i]))
  }

  function ClusterOn(p: Protocol, first: Option<Operators>, ms: seq<Member>, ds: seq<Data>): Report {
    Together(SharedOn(p, first, ms, ds))
  }

  lemma TogetherSnoc(p: Protocol, first: Option<Operators>, ms: seq<Member>, ds: seq<Data>, i: nat)
    requires i < |ds|
    ensures var front, s := ClusterOn(p, first, ms, ds[..i]), Shared(p, first, ms, ds[i]);
            ClusterOn(p, first, ms, ds[..i + 1]) == Report(front.output + s.output, front.found || s.found)
  {
    var ss := SharedOn(p, first, ms, ds[..i + 1]);
    assert ss[..i] == SharedOn(p, first, ms, ds[..i]);
  }

  /** ClusterExecuter.Execute on the responses of the shared request. */
  method ExecuteClusterOn(p: Protocol, first: Option<Operators>, ms: seq<Member>, ds: seq<Data>)
    returns (output: seq<Entry>, found: bool)
    requires ValidOrder(p.env.order)
    ensures Report(output, found) == ClusterOn(p, first, ms, ds)
  {
    output, found := [], false;
    for i := 0 to |ds|
      invariant Report(output, found) == ClusterOn(p, first, ms, ds[..i])
    {
      TogetherSnoc(p, first, ms, ds, i);
      var more, one := ExecuteCluster(p, first, ms, ds[i]);
      output, found := output + more, found || one;
    }
    assert ds[..|ds|] == ds;
  }

  // ---- What the operators of a template come to on every response ----

  function Xs(p: Protocol, m: Member, ds: seq<Data>): seq<Solo> {
    seq(|ds|, i requires 0 <= i < |ds| => SoloOf(p, ds[i], m))
  }

  function Ys(p: Protocol, m: Member, ds: seq<Data>): seq<Own> {
    seq(|ds|, i requires 0 <= i < |ds| => OwnOf(p, ds[i], m))
  }

  /** What a template shows alone. */
  function Shows(ys: seq<Own>): seq<ResultEvent> {
    if ys == [] then []
    else
      var y := ys[|ys| - 1];
      Shows(ys[..|ys| - 1]) + if y.hidden then [] else y.shown
  }

  /** The failure that is due in the end. */
  function Due(ys: seq<Own>): seq<Entry> {
    if ys == [] then []
    else
      var y := ys[|ys| - 1];
      if !y.hidden && y.shown == [] then [y.failure] else Due(ys[..|ys| - 1])
  }

  function OwnOutput(status: bool, ys: seq<Own>): seq<Entry> {
    Entries(Shows(ys), true) + if status && Shows(ys) == [] then Due(ys) else []
  }

  lemma EntriesConcat(a: seq<ResultEvent>, b: seq<ResultEvent>, status: bool)
    ensures Entries(a + b, status) == Entries(a, status) + Entries(b, status)
  {
  }

  ghost predicate Proceeds(p: Protocol, g: Progress, ys: seq<Own>) {
    && g.output == Entries(Shows(ys), true) && g.matched == (Shows(ys) != [])
    && Due(ys) == if g.last.Some? then FailureEntries(p, g.last.value.results, g.last.value.data) else []
  }

  /** The created event is what the operators come to. */
  ghost predicate Creates(p: Protocol, c: Created, y: Own) {
    && Hidden(c) == y.hidden && TemplateExecuter.Shown(c) == (!y.hidden && y.shown != []) && c.results == y.shown
    && Entry(ResultEvent(p.failure(c.data), "", "", []), false) == y.failure
  }

  lemma ProceedsNext(p: Protocol, g: Progress, ys: seq<Own>, c: Created, y: Own)
    requires Proceeds(p, g, ys) && Creates(p, c, y)
    ensures Proceeds(p, OnEvent(g, c), ys + [y])
  {
    assert (ys + [y])[..|ys|] == ys;
    EntriesConcat(Shows(ys), y.shown, true);
    assert Shows(ys) + [] == Shows(ys);
  }

  ghost predicate CreatesAt(p: Protocol, cs: seq<Created>, ys: seq<Own>, i: nat)
    requires i < |cs| == |ys|
  {
    Creates(p, cs[i], ys[i])
  }

  ghost predicate ProceedsTo(p: Protocol, cs: seq<Created>, ys: seq<Own>, n: nat)
    requires n <= |cs| == |ys|
  {
    Proceeds(p, After(cs[..n]), ys[..n])
  }

  lemma FrontSnoc<T>(xs: seq<T>, i: nat)
    requires i < |xs|
    ensures xs[..i + 1] == xs[..i] + [xs[i]]
  {
  }

  lemma ProceedsAt(p: Protocol, cs: seq<Created>, ys: seq<Own>, i: nat)
    requires i < |cs| == |ys| && CreatesAt(p, cs, ys, i) && ProceedsTo(p, cs, ys, i)
    ensures ProceedsTo(p, cs, ys, i + 1)
  {
    AfterNext(cs, i);
    FrontSnoc(ys, i);
    ProceedsNext(p, After(cs[..i]), ys[..i], cs[i], ys[i]);
  }

  lemma {:induction false} EventsProceed(p: Protocol, cs: seq<Created>, ys: seq<Own>, n: nat)
    requires n <= |cs| == |ys| && forall i | 0 <= i < |ys| :: CreatesAt(p, cs, ys, i)
    ensures ProceedsTo(p, cs, ys, n)
  {
    if n > 0 {
      EventsProceed(p, cs, ys, n - 1);
      ProceedsAt(p, cs, ys, n - 1);
    }
  }

  lemma EndedWell(p: Protocol, g: Progress, ys: seq<Own>)
    requires Proceeds(p, g, ys)
    ensures Ended(p, g).output == OwnOutput(p.matcherStatus, ys)
    ensures Ended(p, g).found == (Shows(ys) != [] || (p.matcherStatus && Due(ys) != []))
  {
    assert g.output + [] == g.output;
  }

  /** A template alone writes what it shows on any response, and one failure if it shows nothing on all. */
  lemma AloneOnClosedForm(p: Protocol, f: Footprint, m: Member, ds: seq<Data>)
    requires Respects(p, f, [m]) && IgnoresDynamic(p) && Clear(f, m)
    ensures AloneOn(p, m, ds).output == OwnOutput(p.matcherStatus, Ys(p, m, ds))
    ensures AloneOn(p, m, ds).found == (Shows(Ys(p, m, ds)) != [] || (p.matcherStatus && Due(Ys(p, m, ds)) != []))
  {
    var cs, ys := CreatedOn(p, m, ds), Ys(p, m, ds);
    forall i | 0 <= i < |ds| ensures CreatesAt(p, cs, ys, i) { CreatedClosedForm(p, f, ds[i], m); }
    EventsProceed(p, cs, ys, |ds|);
    assert cs[..|ds|] == cs && ys[..|ds|] == ys;
    EndedWell(p, After(cs), ys);
  }

  // ---- Results ----

  /** What the cluster writes of a template. */
  function Finds(xs: seq<Solo>): seq<ResultEvent> {
    if xs == [] then []
    else
      var x := xs[|xs| - 1];
      Finds(xs[..|xs| - 1]) + if x.finds then x.events else []
  }

  /** On one response the cluster writes what the template shows alone, or more, or less. */
  ghost predicate Agrees(x: Solo, y: Own) { !y.hidden && y.shown == (if x.finds then x.events else []) && y.failure == x.failure }

  ghost predicate More(x: Solo, y: Own) { y.hidden && x.finds && x.events != [] }

  ghost predicate Less(x: Solo, y: Own) { !y.hidden && y.shown != [] && x.finds && x.events == [] }

  lemma {:induction false} SameFinds(xs: seq<Solo>, ys: seq<Own>)
    requires |xs| == |ys| && forall i | 0 <= i < |xs| :: Agrees(xs[i], ys[i])
    ensures Finds(xs) == Shows(ys)
  {
    if xs != [] { SameFinds(xs[..|xs| - 1], ys[..|ys| - 1]); }
  }

  lemma {:induction false} MoreFinds(xs: seq<Solo>, ys: seq<Own>)
    requires |xs| == |ys| && forall i | 0 <= i < |xs| :: Agrees(xs[i], ys[i]) || More(xs[i], ys[i])
    ensures |Finds(xs)| >= |Shows(ys)| && ((exists i | 0 <= i < |xs| :: More(xs[i], ys[i])) ==> |Finds(xs)| > |Shows(ys)|)
  {
    if xs != [] {
      MoreFinds(xs[..|xs| - 1], ys[..|ys| - 1]);
      assert forall i | 0 <= i < |xs| - 1 :: xs[..|xs| - 1][i] == xs[i] && ys[..|ys| - 1][i] == ys[i];
    }
  }

  lemma {:induction false} LessFinds(xs: seq<Solo>, ys: seq<Own>)
    requires |xs| == |ys| && forall i | 0 <= i < |xs| :: Agrees(xs[i], ys[i]) || Less(xs[i], ys[i])
    ensures |Finds(xs)| <= |Shows(ys)| && ((exists i | 0 <= i < |xs| :: Less(xs[i], ys[i])) ==> |Finds(xs)| < |Shows(ys)|)
  {
    if xs != [] {
      LessFinds(xs[..|xs| - 1], ys[..|ys| - 1]);
      assert forall i | 0 <= i < |xs| - 1 :: xs[..|xs| - 1][i] == xs[i] && ys[..|ys| - 1][i] == ys[i];
    }
  }

  /** No match of the template is hidden, and no dynamic values stand in its way, on any response. */
  ghost predicate Plain(p: Protocol, ds: seq<Data>, ops: Operators) {
    forall i | 0 <= i < |ds| :: !Hides(p, ds[i], ops) && !Uncovers(p, ds[i], ops)
  }

  lemma OneCompared(p: Protocol, d: Data, m: Member)
    requires ValidOrder(p.env.order)
    ensures var x, y := SoloOf(p, d, m), OwnOf(p, d, m);
      && (More(x, y) <==> Hides(p, d, m.operators)) && (Less(x, y) <==> Uncovers(p, d, m.operators))
      && (Agrees(x, y) <==> !Hides(p, d, m.operators) && !Uncovers(p, d, m.operators))
      && !(m.operators.matchers == [] && More(x, y)) && !(m.operators.matchers != [] && Less(x, y))
  {
    Compared(p, d, m);
  }

  lemma FindsAgree(xs: seq<Solo>, ys: seq<Own>, more: bool)
    requires |xs| == |ys|
    requires forall i | 0 <= i < |xs| :: Agrees(xs[i], ys[i]) || if more then More(xs[i], ys[i]) else Less(xs[i], ys[i])
    ensures Finds(xs) == Shows(ys) <==> forall i | 0 <= i < |xs| :: Agrees(xs[i], ys[i])
  {
    if forall i | 0 <= i < |xs| :: Agrees(xs[i], ys[i]) {
      SameFinds(xs, ys);
    } else if more {
      MoreFinds(xs, ys);
    } else {
      LessFinds(xs, ys);
    }
  }

  /** The same results come of all responses exactly when they come of each. */
  lemma FindsExactly(p: Protocol, ds: seq<Data>, m: Member)
    requires ValidOrder(p.env.order)
    ensures Finds(Xs(p, m, ds)) == Shows(Ys(p, m, ds)) <==> Plain(p, ds, m.operators)
  {
    var xs, ys, more := Xs(p, m, ds), Ys(p, m, ds), m.operators.matchers != [];
    forall i | 0 <= i < |ds|
      ensures Agrees(xs[i], ys[i]) || if more then More(xs[i], ys[i]) else Less(xs[i], ys[i])
      ensures Agrees(xs[i], ys[i]) <==> !Hides(p, ds[i], m.operators) && !Uncovers(p, ds[i], m.operators)
    {
      OneCompared(p, ds[i], m);
    }
    FindsAgree(xs, ys, more);
  }

  // ---- The output of the cluster ----

  function SolosOn(p: Protocol, ms: seq<Member>, ds: seq<Data>): seq<seq<Solo>> {
    seq(|ds|, i requires 0 <= i < |ds| => Solos(p, ds[i], ms))
  }

  function PassOutputs(xss: seq<seq<Solo>>): seq<Entry> {
    if xss == [] then [] else PassOutputs(xss[..|xss| - 1]) + PassOutput(xss[|xss| - 1])
  }

  /** What one template comes to on every response. */
  function Column(xss: seq<seq<Solo>>, j: nat): seq<Solo>
    requires forall i | 0 <= i < |xss| :: j < |xss[i]|
  {
    seq(|xss|, i requires 0 <= i < |xss| => xss[i][j])
  }

  ghost predicate AllAttributed(xss: seq<seq<Solo>>, j: nat, id: string) {
    forall i | 0 <= i < |xss| :: j < |xss[i]| && Attributed(xss[i]) && xss[i][j].id == id
  }

  lemma {:induction false} TogetherOutputs(ss: seq<Pass>, xss: seq<seq<Solo>>)
    requires |ss| == |xss| && forall i | 0 <= i < |ss| :: ss[i].output == PassOutput(xss[i])
    ensures Together(ss).output == PassOutputs(xss)
  {
    if ss != [] { TogetherOutputs(ss[..|ss| - 1], xss[..|xss| - 1]); }
  }

  lemma ClusterOnClosedForm(p: Protocol, f: Footprint, first: Option<Operators>, ms: seq<Member>, ds: seq<Data>)
    requires Separable(p, f, ms) && Leading(f, first, ms)
    ensures ClusterOn(p, first, ms, ds).output == PassOutputs(SolosOn(p, ms, ds))
  {
    var ss, xss := SharedOn(p, first, ms, ds), SolosOn(p, ms, ds);
    forall i | 0 <= i < |ds| ensures ss[i].output == PassOutput(xss[i]) { SharedClosedForm(p, f, first, ms, ds[i]); }
    TogetherOutputs(ss, xss);
  }

  lemma ColumnsAre(p: Protocol, f: Footprint, ms: seq<Member>, ds: seq<Data>, j: nat)
    requires Separable(p, f, ms) && j < |ms|
    ensures AllAttributed(SolosOn(p, ms, ds), j, ms[j].templateID) && Column(SolosOn(p, ms, ds), j) == Xs(p, ms[j], ds)
  {
    forall i | 0 <= i < |ds| ensures Attributed(Solos(p, ds[i], ms)) { SolosAttributed(p, ds[i], ms); }
  }

  lemma PassFor(xs: seq<Solo>, j: nat)
    requires Attributed(xs) && j < |xs|
    ensures For(Reported(PassOutput(xs)), xs[j].id) == if xs[j].finds then xs[j].events else []
  {
    PassReports(xs, |xs|, j);
    assert xs[..|xs|] == xs;
  }

  lemma ColumnSnoc(xss: seq<seq<Solo>>, j: nat)
    requires xss != [] && forall i | 0 <= i < |xss| :: j < |xss[i]|
    ensures Column(xss, j) == Column(xss[..|xss| - 1], j) + [xss[|xss| - 1][j]]
  {
  }

  lemma FindsSnoc(xs: seq<Solo>, x: Solo)
    ensures Finds(xs + [x]) == Finds(xs) + if x.finds then x.events else []
  {
    assert (xs + [x])[..|xs|] == xs;
  }

  lemma {:induction false} PassesFor(xss: seq<seq<Solo>>, j: nat, id: string)
    requires AllAttributed(xss, j, id)
    ensures For(Reported(PassOutputs(xss)), id) == Finds(Column(xss, j))
  {
    if xss != [] {
      var front, xs := xss[..|xss| - 1], xss[|xss| - 1];
      PassesFor(front, j, id);
      PassFor(xs, j);
      ReportedConcat(PassOutputs(front), PassOutput(xs));
      ForConcat(Reported(PassOutputs(front)), Reported(PassOutput(xs)), id);
      ColumnSnoc(xss, j);
      FindsSnoc(Column(front, j), xs[j]);
    }
  }

  lemma {:induction false} DueIsFailure(ys: seq<Own>)
    requires forall i | 0 <= i < |ys| :: !ys[i].failure.status
    ensures Reported(Due(ys)) == []
  {
    if ys != [] {
      DueIsFailure(ys[..|ys| - 1]);
      var e := ys[|ys| - 1].failure;
      assert [e][..0] == [];
    }
  }

  lemma OwnOutputReports(status: bool, ys: seq<Own>)
    requires forall i | 0 <= i < |ys| :: !ys[i].failure.status
    ensures Reported(OwnOutput(status, ys)) == Shows(ys)
  {
    DueIsFailure(ys);
    ReportedEntries(Shows(ys), true);
    ReportedConcat(Entries(Shows(ys), true), if status && Shows(ys) == [] then Due(ys) else []);
  }

  lemma AloneOnReports(p: Protocol, f: Footprint, m: Member, ds: seq<Data>)
    requires Respects(p, f, [m]) && IgnoresDynamic(p) && Clear(f, m)
    ensures Reported(AloneOn(p, m, ds).output) == Shows(Ys(p, m, ds))
  {
    AloneOnClosedForm(p, f, m, ds);
    OwnOutputReports(p.matcherStatus, Ys(p, m, ds));
  }

  lemma ClusterOnReports(p: Protocol, f: Footprint, first: Option<Operators>, ms: seq<Member>, ds: seq<Data>, j: nat)
    requires Separable(p, f, ms) && Leading(f, first, ms) && j < |ms|
    ensures For(Reported(ClusterOn(p, first, ms, ds).output), ms[j].templateID) == Finds(Xs(p, ms[j], ds))
  {
    ClusterOnClosedForm(p, f, first, ms, ds);
    ColumnsAre(p, f, ms, ds, j);
    PassesFor(SolosOn(p, ms, ds), j, ms[j].templateID);
  }

  /** Over all responses, the results under the name of a template are those of the template alone if
      and only if it hides no match, and no dynamic values stand in the way, on each of them. */
  lemma EventsReportExactly(p: Protocol, f: Footprint, first: Option<Operators>, ms: seq<Member>, ds: seq<Data>, j: nat)
    requires Separable(p, f, ms) && Leading(f, first, ms) && j < |ms|
    ensures For(Reported(ClusterOn(p, first, ms, ds).output), ms[j].templateID) == Reported(AloneOn(p, ms[j], ds).output)
            <==> Plain(p, ds, ms[j].operators)
  {
    SeparableOne(p, f, ms, j);
    ClusterOnReports(p, f, first, ms, ds, j);
    AloneOnReports(p, f, ms[j], ds);
    FindsExactly(p, ds, ms[j]);
  }

  // ---- Failures ----

  /** The entries of one template. */
  function Under(output: seq<Entry>, id: string): seq<Entry> {
    if output == [] then []
    else
      var front, e := Under(output[..|output| - 1], id), output[|output| - 1];
      if Of(e, id) then front + [e] else front
  }

  lemma {:induction false} UnderConcat(a: seq<Entry>, b: seq<Entry>, id: string)
    ensures Under(a + b, id) == Under(a, id) + Under(b, id)
  {
    if b == [] {
      assert a + b == a;
    } else {
      var last := |b| - 1;
      assert (a + b)[..|a + b| - 1] == a + b[..last];
      UnderConcat(a, b[..last], id);
    }
  }

  lemma {:induction false} UnderOwn(part: seq<Entry>, own: string, id: string)
    requires forall k | 0 <= k < |part| :: Of(part[k], own)
    ensures Under(part, id) == if own == id then part else []
  {
    if part != [] {
      UnderOwn(part[..|part| - 1], own, id);
      assert part == part[..|part| - 1] + [part[|part| - 1]];
    }
  }

  /** What the cluster writes of a template when nothing is left over from another. */
  function Part(x: Solo): seq<Entry> { Added(x, []) }

  ghost predicate NothingLeft(xs: seq<Solo>) { forall k | 0 <= k < |xs| :: !FailsWithLeftover(xs, k) }

  lemma PartUnder(x: Solo, id: string)
    requires OneAttributed(x)
    ensures Under(Part(x), id) == if x.id == id then Part(x) else []
  {
    UnderOwn(Part(x), x.id, id);
  }

  ghost predicate UnderIs(xs: seq<Solo>, n: nat, j: nat)
    requires n <= |xs| && j < |xs|
  {
    Under(PassOutput(xs[..n]), xs[j].id) == if j < n then Part(xs[j]) else []
  }

  ghost predicate Ready(xs: seq<Solo>, j: nat, k: nat)
    requires k < |xs| && j < |xs|
  {
    OneAttributed(xs[k]) && !FailsWithLeftover(xs, k) && (xs[k].id == xs[j].id <==> k == j)
  }

  lemma AllReady(xs: seq<Solo>, j: nat)
    requires Attributed(xs) && NothingLeft(xs) && j < |xs|
    ensures forall k | 0 <= k < |xs| :: Ready(xs, j, k)
  {
    forall k | 0 <= k < |xs| ensures Ready(xs, j, k) {
      assert OneAttributed(xs[k]) && !FailsWithLeftover(xs, k);
    }
  }

  lemma PassUnderNext(xs: seq<Solo>, k: nat, j: nat)
    requires k < |xs| && j < |xs| && Ready(xs, j, k) && UnderIs(xs, k, j)
    ensures UnderIs(xs, k + 1, j)
  {
    PassSnoc(xs, k);
    assert Added(xs[k], Leftover(xs[..k])) == Part(xs[k]);
    UnderConcat(PassOutput(xs[..k]), Part(xs[k]), xs[j].id);
    PartUnder(xs[k], xs[j].id);
  }

  lemma {:induction false} PassUnder(xs: seq<Solo>, n: nat, j: nat)
    requires n <= |xs| && j < |xs| && forall k | 0 <= k < |xs| :: Ready(xs, j, k)
    ensures UnderIs(xs, n, j)
  {
    if n > 0 {
      PassUnder(xs, n - 1, j);
      PassUnderNext(xs, n - 1, j);
    }
  }

  /** What the cluster writes of one template over all responses. */
  function PartsOf(xs: seq<Solo>): seq<Entry> {
    if xs == [] then [] else PartsOf(xs[..|xs| - 1]) + Part(xs[|xs| - 1])
  }

  lemma PartsSnoc(xs: seq<Solo>, x: Solo)
    ensures PartsOf(xs + [x]) == PartsOf(xs) + Part(x)
  {
    assert (xs + [x])[..|xs|] == xs;
  }

  lemma {:induction false} PassesUnder(xss: seq<seq<Solo>>, j: nat, id: string)
    requires AllAttributed(xss, j, id) && forall i | 0 <= i < |xss| :: NothingLeft(xss[i])
    ensures Under(PassOutputs(xss), id) == PartsOf(Column(xss, j))
  {
    if xss != [] {
      var front, xs := xss[..|xss| - 1], xss[|xss| - 1];
      PassesUnder(front, j, id);
      AllReady(xs, j);
      PassUnder(xs, |xs|, j);
      assert xs[..|xs|] == xs;
      UnderConcat(PassOutputs(front), PassOutput(xs), id);
      ColumnSnoc(xss, j);
      PartsSnoc(Column(front, j), xs[j]);
    }
  }

  /** The failures that the cluster writes of one template. */
  function FailuresOf(xs: seq<Solo>): seq<Entry> {
    if xs == [] then []
    else
      var x := xs[|xs| - 1];
      FailuresOf(xs[..|xs| - 1]) + if !x.finds && x.fails then [x.failure] else []
  }

  ghost predicate Mixed(xs: seq<Solo>, ys: seq<Own>) {
    && |PartsOf(xs)| == |Shows(ys)| + |FailuresOf(xs)|
    && (FailuresOf(xs) == [] ==> PartsOf(xs) == Entries(Shows(ys), true))
    && (Shows(ys) == [] ==> PartsOf(xs) == FailuresOf(xs))
  }

  lemma MixedNext(xs: seq<Solo>, ys: seq<Own>, x: Solo, y: Own)
    requires Mixed(xs, ys) && Agrees(x, y)
    ensures Mixed(xs + [x], ys + [y])
  {
    assert (xs + [x])[..|xs|] == xs && (ys + [y])[..|ys|] == ys;
    EntriesConcat(Shows(ys), y.shown, true);
    assert Shows(ys) + [] == Shows(ys) && FailuresOf(xs) + [] == FailuresOf(xs) && PartsOf(xs) + [] == PartsOf(xs);
  }

  ghost predicate AgreesAt(xs: seq<Solo>, ys: seq<Own>, i: nat)
    requires i < |xs| == |ys|
  {
    Agrees(xs[i], ys[i])
  }

  ghost predicate MixedTo(xs: seq<Solo>, ys: seq<Own>, n: nat)
    requires n <= |xs| == |ys|
  {
    Mixed(xs[..n], ys[..n])
  }

  lemma MixedAt(xs: seq<Solo>, ys: seq<Own>, i: nat)
    requires i < |xs| == |ys| && AgreesAt(xs, ys, i) && MixedTo(xs, ys, i)
    ensures MixedTo(xs, ys, i + 1)
  {
    FrontSnoc(xs, i);
    FrontSnoc(ys, i);
    MixedNext(xs[..i], ys[..i], xs[i], ys[i]);
  }

  lemma {:induction false} AllMixed(xs: seq<Solo>, ys: seq<Own>, n: nat)
    requires n <= |xs| == |ys| && forall i | 0 <= i < |xs| :: AgreesAt(xs, ys, i)
    ensures MixedTo(xs, ys, n)
  {
    if n > 0 {
      AllMixed(xs, ys, n - 1);
      MixedAt(xs, ys, n - 1);
    }
  }

  lemma PartsMixed(xs: seq<Solo>, ys: seq<Own>)
    requires |xs| == |ys| && forall i | 0 <= i < |xs| :: Agrees(xs[i], ys[i])
    ensures Mixed(xs, ys)
  {
    assert forall i | 0 <= i < |xs| :: AgreesAt(xs, ys, i);
    AllMixed(xs, ys, |xs|);
    assert xs[..|xs|] == xs && ys[..|xs|] == ys;
  }

  /** Where nothing is shown, the failure that is due is that of the last response. */
  lemma {:induction false} DueIsLast(ys: seq<Own>)
    requires Shows(ys) == [] && forall i | 0 <= i < |ys| :: !ys[i].hidden
    ensures Due(ys) == if ys == [] then [] else [ys[|ys| - 1].failure]
  {
  }

  /** The outputs are the same exactly when the cluster writes no failure, if something is shown, and
      otherwise no other failure than that of the last response. */
  lemma PartsExactly(xs: seq<Solo>, ys: seq<Own>)
    requires |xs| == |ys| && forall i | 0 <= i < |xs| :: Agrees(xs[i], ys[i])
    ensures PartsOf(xs) == OwnOutput(true, ys)
            <==> FailuresOf(xs) == if Shows(ys) != [] || ys == [] then [] else [ys[|ys| - 1].failure]
    ensures FailuresOf(xs) == [] ==> PartsOf(xs) == OwnOutput(false, ys)
  {
    PartsMixed(xs, ys);
    var shown := Entries(Shows(ys), true);
    assert shown + [] == shown;
    if Shows(ys) == [] {
      DueIsLast(ys);
      assert shown == [] && [] + Due(ys) == Due(ys);
    }
  }

  predicate Failing(x: Solo) { !x.finds && x.fails }

  lemma {:induction false} NoFailures(xs: seq<Solo>)
    ensures FailuresOf(xs) == [] <==> forall i | 0 <= i < |xs| :: !Failing(xs[i])
  {
    if xs != [] {
      NoFailures(xs[..|xs| - 1]);
      assert forall i | 0 <= i < |xs| - 1 :: xs[..|xs| - 1][i] == xs[i];
    }
  }

  ghost predicate OnlyFailing(xs: seq<Solo>, i: nat, e: Entry) {
    i < |xs| && Failing(xs[i]) && xs[i].failure == e && forall k | 0 <= k < |xs| && k != i :: !Failing(xs[k])
  }

  lemma OneLast(front: seq<Entry>, x: Entry, e: Entry)
    ensures front + [x] == [e] <==> front == [] && x == e
  {
    if front == [] { assert front + [x] == [x] && [x][0] == x && [e][0] == e; }
    assert |front + [x]| == |front| + 1 && |[e]| == 1;
  }

  /** The last one fails, with a given failure, and none before it. */
  ghost predicate OnlyLastFails(xs: seq<Solo>, e: Entry)
    requires xs != []
  {
    xs[|xs| - 1].failure == e && forall k | 0 <= k < |xs| - 1 :: !Failing(xs[k])
  }

  lemma LastFails(xs: seq<Solo>, e: Entry)
    requires xs != [] && Failing(xs[|xs| - 1])
    ensures FailuresOf(xs) == [e] <==> OnlyLastFails(xs, e)
  {
    var front, last := xs[..|xs| - 1], |xs| - 1;
    NoFailures(front);
    assert forall i | 0 <= i < last :: front[i] == xs[i];
    OneLast(FailuresOf(front), xs[last].failure, e);
  }

  lemma OnlyLast(xs: seq<Solo>, e: Entry)
    requires xs != [] && Failing(xs[|xs| - 1])
    ensures OnlyLastFails(xs, e) <==> exists i: nat :: OnlyFailing(xs, i, e)
  {
    var last := |xs| - 1;
    if OnlyLastFails(xs, e) { assert OnlyFailing(xs, last, e); }
    forall i: nat | OnlyFailing(xs, i, e) ensures i == last {}
  }

  lemma OnlyInFront(xs: seq<Solo>, front: seq<Solo>, e: Entry)
    requires xs != [] && !Failing(xs[|xs| - 1]) && front == xs[..|xs| - 1]
    ensures (exists i: nat :: OnlyFailing(xs, i, e)) <==> exists i: nat :: OnlyFailing(front, i, e)
  {
    forall i: nat | OnlyFailing(front, i, e) ensures OnlyFailing(xs, i, e) {}
    forall i: nat | OnlyFailing(xs, i, e) ensures OnlyFailing(front, i, e) {}
  }

  lemma {:induction false} OneFailure(xs: seq<Solo>, e: Entry)
    ensures FailuresOf(xs) == [e] <==> exists i: nat :: OnlyFailing(xs, i, e)
  {
    if xs != [] {
      if Failing(xs[|xs| - 1]) {
        LastFails(xs, e);
        OnlyLast(xs, e);
      } else {
        OneFailure(xs[..|xs| - 1], e);
        OnlyInFront(xs, xs[..|xs| - 1], e);
        assert FailuresOf(xs) == FailuresOf(xs[..|xs| - 1]);
      }
    }
  }

  lemma {:induction false} NothingShown(ys: seq<Own>)
    ensures Shows(ys) == [] <==> forall i | 0 <= i < |ys| :: ys[i].hidden || ys[i].shown == []
  {
    if ys != [] {
      NothingShown(ys[..|ys| - 1]);
      assert forall i | 0 <= i < |ys| - 1 :: ys[..|ys| - 1][i] == ys[i];
    }
  }

  // ---- In terms of the operators ----

  /** On a response, the template has something to show. */
  predicate ShowsOn(p: Protocol, d: Data, ops: Operators) { Counts(p, d, ops) && !OnlyDynamic(p, d, ops) }

  /** On a response, the cluster sees the template fail. */
  predicate FailsOn(p: Protocol, d: Data, ops: Operators) { !Counts(p, d, ops) && !Aborted(p, d, ops) }

  ghost predicate OnlyFailure(p: Protocol, ds: seq<Data>, m: Member, i: nat) {
    && i < |ds| && FailsOn(p, ds[i], m.operators) && OwnOf(p, ds[i], m).failure == OwnOf(p, ds[|ds| - 1], m).failure
    && forall k | 0 <= k < |ds| && k != i :: !FailsOn(p, ds[k], m.operators)
  }

  ghost predicate SomeShown(p: Protocol, ds: seq<Data>, ops: Operators) { exists i | 0 <= i < |ds| :: ShowsOn(p, ds[i], ops) }

  ghost predicate NoneFails(p: Protocol, ds: seq<Data>, ops: Operators) { forall i | 0 <= i < |ds| :: !FailsOn(p, ds[i], ops) }

  ghost predicate LastFailureOnce(p: Protocol, ds: seq<Data>, m: Member) { exists i: nat :: OnlyFailure(p, ds, m, i) }

  /** With failures reported: where something is shown on some response, the template fails on none, as
      alone it reports no failure then; otherwise it fails on exactly one, and the failure is that of
      the last response, which it reports alone. */
  ghost predicate FailuresAgree(p: Protocol, ds: seq<Data>, m: Member) {
    if SomeShown(p, ds, m.operators) || ds == [] then NoneFails(p, ds, m.operators) else LastFailureOnce(p, ds, m)
  }

  lemma OneCounted(p: Protocol, d: Data, m: Member)
    requires ValidOrder(p.env.order) && !Hides(p, d, m.operators) && !Uncovers(p, d, m.operators)
    ensures Counted(p, d, m.operators, SoloOf(p, d, m), OwnOf(p, d, m))
  {
    Compared(p, d, m);
  }

  ghost predicate Counted(p: Protocol, d: Data, ops: Operators, x: Solo, y: Own) {
    && Agrees(x, y) && (y.shown != [] <==> ShowsOn(p, d, ops)) && (Failing(x) <==> p.matcherStatus && FailsOn(p, d, ops))
  }

  lemma FailuresUnreported(xs: seq<Solo>, ys: seq<Own>)
    requires |xs| == |ys| && forall i | 0 <= i < |xs| :: Agrees(xs[i], ys[i]) && !Failing(xs[i])
    ensures PartsOf(xs) == OwnOutput(false, ys)
  {
    PartsExactly(xs, ys);
    NoFailures(xs);
  }

  ghost predicate AllCounted(p: Protocol, ds: seq<Data>, ops: Operators, xs: seq<Solo>, ys: seq<Own>) {
    |xs| == |ys| == |ds| && forall i | 0 <= i < |ds| :: Counted(p, ds[i], ops, xs[i], ys[i])
  }

  lemma SomethingShown(p: Protocol, ds: seq<Data>, ops: Operators, xs: seq<Solo>, ys: seq<Own>)
    requires AllCounted(p, ds, ops, xs, ys)
    ensures Shows(ys) != [] <==> SomeShown(p, ds, ops)
  {
    NothingShown(ys);
    forall i | 0 <= i < |ds| ensures ShowsOn(p, ds[i], ops) <==> !(ys[i].hidden || ys[i].shown == []) {
      assert Counted(p, ds[i], ops, xs[i], ys[i]);
    }
  }

  lemma NothingFails(p: Protocol, ds: seq<Data>, ops: Operators, xs: seq<Solo>, ys: seq<Own>)
    requires p.matcherStatus && AllCounted(p, ds, ops, xs, ys)
    ensures FailuresOf(xs) == [] <==> NoneFails(p, ds, ops)
  {
    NoFailures(xs);
    forall i | 0 <= i < |ds| ensures Failing(xs[i]) <==> FailsOn(p, ds[i], ops) {
      assert Counted(p, ds[i], ops, xs[i], ys[i]);
    }
  }

  lemma CountedAgree(p: Protocol, ds: seq<Data>, ops: Operators, xs: seq<Solo>, ys: seq<Own>)
    requires AllCounted(p, ds, ops, xs, ys)
    ensures forall i | 0 <= i < |xs| :: Agrees(xs[i], ys[i])
  {
    forall i | 0 <= i < |xs| ensures Agrees(xs[i], ys[i]) { assert Counted(p, ds[i], ops, xs[i], ys[i]); }
  }

  lemma CountedFailure(p: Protocol, d: Data, m: Member, x: Solo)
    requires p.matcherStatus && Counted(p, d, m.operators, x, OwnOf(p, d, m))
    ensures FailureIs(p, d, m, x)
  {
  }

  lemma CountedFailures(p: Protocol, ds: seq<Data>, m: Member, xs: seq<Solo>, ys: seq<Own>)
    requires p.matcherStatus && ys == Ys(p, m, ds) && AllCounted(p, ds, m.operators, xs, ys)
    ensures FailuresAre(p, ds, m, xs)
  {
    forall i | 0 <= i < |ds| ensures FailureIs(p, ds[i], m, xs[i]) {
      assert Counted(p, ds[i], m.operators, xs[i], ys[i]);
      CountedFailure(p, ds[i], m, xs[i]);
    }
  }

  /** The one failure that the cluster may write where nothing is shown. */
  function LastFailure(p: Protocol, ds: seq<Data>, m: Member): seq<Entry> {
    if ds == [] then [] else [OwnOf(p, ds[|ds| - 1], m).failure]
  }

  lemma FailuresExactly(p: Protocol, ds: seq<Data>, m: Member, xs: seq<Solo>, ys: seq<Own>)
    requires p.matcherStatus && xs == Xs(p, m, ds) && ys == Ys(p, m, ds) && AllCounted(p, ds, m.operators, xs, ys)
    ensures FailuresOf(xs) == (if SomeShown(p, ds, m.operators) then [] else LastFailure(p, ds, m)) <==> FailuresAgree(p, ds, m)
  {
    if SomeShown(p, ds, m.operators) || ds == [] {
      NothingFails(p, ds, m.operators, xs, ys);
    } else {
      CountedFailures(p, ds, m, xs, ys);
      OnlyFailureExactly(p, ds, m, xs);
    }
  }

  lemma FailuresReported(p: Protocol, ds: seq<Data>, m: Member, xs: seq<Solo>, ys: seq<Own>)
    requires p.matcherStatus && xs == Xs(p, m, ds) && ys == Ys(p, m, ds) && AllCounted(p, ds, m.operators, xs, ys)
    ensures PartsOf(xs) == OwnOutput(true, ys) <==> FailuresAgree(p, ds, m)
  {
    CountedAgree(p, ds, m.operators, xs, ys);
    PartsExactly(xs, ys);
    SomethingShown(p, ds, m.operators, xs, ys);
    FailuresExactly(p, ds, m, xs, ys);
  }

  lemma FailuresAgreeExactly(p: Protocol, ds: seq<Data>, m: Member)
    requires ValidOrder(p.env.order) && Plain(p, ds, m.operators)
    ensures PartsOf(Xs(p, m, ds)) == OwnOutput(p.matcherStatus, Ys(p, m, ds)) <==> (p.matcherStatus ==> FailuresAgree(p, ds, m))
  {
    var xs, ys := Xs(p, m, ds), Ys(p, m, ds);
    forall i | 0 <= i < |ds| ensures Counted(p, ds[i], m.operators, xs[i], ys[i]) { OneCounted(p, ds[i], m); }
    if p.matcherStatus { FailuresReported(p, ds, m, xs, ys); } else { FailuresUnreported(xs, ys); }
  }

  /** The failures are those that the cluster writes. */
  ghost predicate FailureIs(p: Protocol, d: Data, m: Member, x: Solo) {
    (Failing(x) <==> FailsOn(p, d, m.operators)) && OwnOf(p, d, m).failure == x.failure
  }

  ghost predicate FailuresAre(p: Protocol, ds: seq<Data>, m: Member, xs: seq<Solo>) {
    |xs| == |ds| && forall i | 0 <= i < |ds| :: FailureIs(p, ds[i], m, xs[i])
  }

  lemma OnlyFailureIf(p: Protocol, ds: seq<Data>, m: Member, xs: seq<Solo>, e: Entry, i: nat)
    requires ds != [] && FailuresAre(p, ds, m, xs) && e == OwnOf(p, ds[|ds| - 1], m).failure && OnlyFailing(xs, i, e)
    ensures OnlyFailure(p, ds, m, i)
  {
    assert FailureIs(p, ds[i], m, xs[i]);
    forall k | 0 <= k < |ds| && k != i ensures !FailsOn(p, ds[k], m.operators) {
      assert FailureIs(p, ds[k], m, xs[k]) && !Failing(xs[k]);
    }
  }

  lemma OnlyFailingIf(p: Protocol, ds: seq<Data>, m: Member, xs: seq<Solo>, e: Entry, i: nat)
    requires ds != [] && FailuresAre(p, ds, m, xs) && e == OwnOf(p, ds[|ds| - 1], m).failure && OnlyFailure(p, ds, m, i)
    ensures OnlyFailing(xs, i, e)
  {
    assert FailureIs(p, ds[i], m, xs[i]);
    forall k | 0 <= k < |xs| && k != i ensures !Failing(xs[k]) {
      assert FailureIs(p, ds[k], m, xs[k]) && !FailsOn(p, ds[k], m.operators);
    }
  }

  lemma OnlyFailureExactly(p: Protocol, ds: seq<Data>, m: Member, xs: seq<Solo>)
    requires ds != [] && FailuresAre(p, ds, m, xs)
    ensures FailuresOf(xs) == [OwnOf(p, ds[|ds| - 1], m).failure] <==> LastFailureOnce(p, ds, m)
  {
    var e := OwnOf(p, ds[|ds| - 1], m).failure;
    OneFailure(xs, e);
    if i: nat :| OnlyFailing(xs, i, e) { OnlyFailureIf(p, ds, m, xs, e, i); }
    if i: nat :| OnlyFailure(p, ds, m, i) { OnlyFailingIf(p, ds, m, xs, e, i); }
  }

  // ---- Leftover results ----

  ghost predicate HasFailure(output: seq<Entry>, id: string) { exists i | 0 <= i < |output| :: Of(output[i], id) && !output[i].status }

  lemma FailureConcat(a: seq<Entry>, b: seq<Entry>, id: string)
    ensures HasFailure(a, id) || HasFailure(b, id) ==> HasFailure(a + b, id)
  {
    var ab := a + b;
    if i :| 0 <= i < |a| && Of(a[i], id) && !a[i].status { assert Of(ab[i], id) && !ab[i].status; }
    if i :| 0 <= i < |b| && Of(b[i], id) && !b[i].status { assert Of(ab[|a| + i], id) && !ab[|a| + i].status; }
  }

  lemma {:induction false} FailureUnder(output: seq<Entry>, id: string)
    requires HasFailure(output, id)
    ensures exists e | e in Under(output, id) :: !e.status
  {
    var last := |output| - 1;
    if Of(output[last], id) && !output[last].status {
      assert output[last] in Under(output, id);
    } else {
      var i :| 0 <= i < |output| && Of(output[i], id) && !output[i].status;
      assert output[..last][i] == output[i];
      FailureUnder(output[..last], id);
      var e :| e in Under(output[..last], id) && !e.status;
      assert e in Under(output, id);
    }
  }

  lemma PassFailureNext(xs: seq<Solo>, n: nat, id: string)
    requires n < |xs|
    ensures HasFailure(PassOutput(xs[..n]), id) || HasFailure(Added(xs[n], Leftover(xs[..n])), id) ==> HasFailure(PassOutput(xs[..n + 1]), id)
  {
    PassSnoc(xs, n);
    FailureConcat(PassOutput(xs[..n]), Added(xs[n], Leftover(xs[..n])), id);
  }

  lemma {:induction false} PassFailure(xs: seq<Solo>, n: nat, k: nat, id: string)
    requires k < n <= |xs| && HasFailure(Added(xs[k], Leftover(xs[..k])), id)
    ensures HasFailure(PassOutput(xs[..n]), id)
  {
    PassFailureNext(xs, n - 1, id);
    if k < n - 1 { PassFailure(xs, n - 1, k, id); }
  }

  lemma PassesFailureNext(xss: seq<seq<Solo>>, id: string)
    requires xss != []
    requires HasFailure(PassOutputs(xss[..|xss| - 1]), id) || HasFailure(PassOutput(xss[|xss| - 1]), id)
    ensures HasFailure(PassOutputs(xss), id)
  {
    FailureConcat(PassOutputs(xss[..|xss| - 1]), PassOutput(xss[|xss| - 1]), id);
  }

  lemma {:induction false} PassesFailure(xss: seq<seq<Solo>>, i: nat, id: string)
    requires i < |xss| && HasFailure(PassOutput(xss[i]), id)
    ensures HasFailure(PassOutputs(xss), id)
  {
    if i < |xss| - 1 { PassesFailure(xss[..|xss| - 1], i, id); }
    PassesFailureNext(xss, id);
  }

  /** Results that are written again in place of a failure are a failure of their own template. */
  lemma LeftoverIsFailure(xs: seq<Solo>, k: nat) returns (j: nat)
    requires Attributed(xs) && k < |xs| && FailsWithLeftover(xs, k)
    ensures j < |xs| && xs[j].finds && xs[j].events != [] && HasFailure(PassOutput(xs), xs[j].id)
  {
    j := LeftoverIsAnothers(xs[..k]);
    var added := Added(xs[k], Leftover(xs[..k]));
    assert OneAttributed(xs[j]) && Leftover(xs[..k]) == xs[j].events;
    assert Of(added[0], xs[j].id) && !added[0].status;
    PassFailure(xs, |xs|, k, xs[j].id);
    assert xs[..|xs|] == xs;
  }

  lemma {:induction false} FindsNothing(xs: seq<Solo>, i: nat)
    requires i < |xs| && xs[i].finds && xs[i].events != []
    ensures Finds(xs) != []
  {
    if i < |xs| - 1 { FindsNothing(xs[..|xs| - 1], i); }
  }

  lemma ShownAllTrue(status: bool, ys: seq<Own>)
    requires Shows(ys) != []
    ensures forall e | e in OwnOutput(status, ys) :: e.status
  {
    assert Entries(Shows(ys), true) + [] == Entries(Shows(ys), true);
  }

  /** So where results are left over on some response, the output of a template differs. */
  lemma LeftoverDiffers(p: Protocol, f: Footprint, first: Option<Operators>, ms: seq<Member>, ds: seq<Data>, i: nat, k: nat) returns (j: nat)
    requires Separable(p, f, ms) && Leading(f, first, ms) && i < |ds| && k < |ms| && FailsWithLeftover(Solos(p, ds[i], ms), k)
    ensures j < |ms| && Under(ClusterOn(p, first, ms, ds).output, ms[j].templateID) != AloneOn(p, ms[j], ds).output
  {
    var xss := SolosOn(p, ms, ds);
    SolosAttributed(p, ds[i], ms);
    j := LeftoverIsFailure(xss[i], k);
    var id, ys := ms[j].templateID, Ys(p, ms[j], ds);
    ClusterOnClosedForm(p, f, first, ms, ds);
    PassesFailure(xss, i, id);
    FailureUnder(PassOutputs(xss), id);
    FindsNothing(Xs(p, ms[j], ds), i);
    ClusterOnReports(p, f, first, ms, ds, j);
    UnderReports(PassOutputs(xss), id);
    SeparableOne(p, f, ms, j);
    AloneOnReports(p, f, ms[j], ds);
    AloneOnClosedForm(p, f, ms[j], ds);
    if Shows(ys) != [] { ShownAllTrue(p.matcherStatus, ys); }
  }

  lemma {:induction false} UnderReports(output: seq<Entry>, id: string)
    ensures Reported(Under(output, id)) == For(Reported(output), id)
  {
    if output != [] {
      var front, e := output[..|output| - 1], output[|output| - 1];
      UnderReports(front, id);
      assert (Under(front, id) + [e])[..|Under(front, id)|] == Under(front, id);
      assert (Reported(front) + [e.event])[..|Reported(front)|] == Reported(front);
      assert Reported(front) + [] == Reported(front);
    }
  }

  // ---- The whole output, by template ----

  /** A template does on all responses in the cluster what it does on them alone. */
  ghost predicate FaithfulOn(p: Protocol, ds: seq<Data>, ms: seq<Member>, j: nat)
    requires j < |ms|
  {
    && Plain(p, ds, ms[j].operators) && (p.matcherStatus ==> FailuresAgree(p, ds, ms[j]))
    && forall i | 0 <= i < |ds| :: !FailsWithLeftover(Solos(p, ds[i], ms), j)
  }

  ghost predicate SameOutput(p: Protocol, first: Option<Operators>, ms: seq<Member>, ds: seq<Data>, j: nat)
    requires j < |ms|
  {
    Under(ClusterOn(p, first, ms, ds).output, ms[j].templateID) == AloneOn(p, ms[j], ds).output
  }

  lemma SameOutputExactly(p: Protocol, f: Footprint, first: Option<Operators>, ms: seq<Member>, ds: seq<Data>, j: nat)
    requires Separable(p, f, ms) && Leading(f, first, ms) && j < |ms|
    requires forall i | 0 <= i < |ds| :: NothingLeft(Solos(p, ds[i], ms))
    ensures SameOutput(p, first, ms, ds, j) <==> Plain(p, ds, ms[j].operators) && (p.matcherStatus ==> FailuresAgree(p, ds, ms[j]))
  {
    var id, output := ms[j].templateID, ClusterOn(p, first, ms, ds).output;
    SeparableOne(p, f, ms, j);
    ClusterOnClosedForm(p, f, first, ms, ds);
    ColumnsAre(p, f, ms, ds, j);
    PassesUnder(SolosOn(p, ms, ds), j, id);
    AloneOnClosedForm(p, f, ms[j], ds);
    EventsReportExactly(p, f, first, ms, ds, j);
    UnderReports(output, id);
    if Plain(p, ds, ms[j].operators) { FailuresAgreeExactly(p, ds, ms[j]); }
  }

  /** Over all responses of a request, the cluster writes under the name of every template what the
      template writes alone if and only if every template is faithful on them. */
  lemma ClusterPreservesEventsExactly(p: Protocol, f: Footprint, first: Option<Operators>, ms: seq<Member>, ds: seq<Data>)
    requires Separable(p, f, ms) && Leading(f, first, ms)
    ensures (forall j | 0 <= j < |ms| :: SameOutput(p, first, ms, ds, j)) <==> forall j | 0 <= j < |ms| :: FaithfulOn(p, ds, ms, j)
  {
    if i, k :| 0 <= i < |ds| && 0 <= k < |ms| && FailsWithLeftover(Solos(p, ds[i], ms), k) {
      var j := LeftoverDiffers(p, f, first, ms, ds, i, k);
      assert !SameOutput(p, first, ms, ds, j) && !FaithfulOn(p, ds, ms, k);
    } else {
      forall j | 0 <= j < |ms| ensures SameOutput(p, first, ms, ds, j) <==> FaithfulOn(p, ds, ms, j) {
        SameOutputExactly(p, f, first, ms, ds, j);
      }
    }
  }

  // ---- Answers ----

  lemma {:induction false} SomethingDue(ys: seq<Own>)
    ensures Due(ys) != [] <==> exists i | 0 <= i < |ys| :: !ys[i].hidden && ys[i].shown == []
  {
    if ys != [] {
      SomethingDue(ys[..|ys| - 1]);
      assert forall i | 0 <= i < |ys| - 1 :: ys[..|ys| - 1][i] == ys[i];
    }
  }

  lemma SomethingVisible(ys: seq<Own>)
    ensures Shows(ys) != [] <==> exists i | 0 <= i < |ys| :: !ys[i].hidden && ys[i].shown != []
  {
    NothingShown(ys);
  }

  lemma {:induction false} TogetherFound(ss: seq<Pass>)
    ensures Together(ss).found <==> exists i | 0 <= i < |ss| :: ss[i].found
  {
    if ss != [] {
      TogetherFound(ss[..|ss| - 1]);
      assert forall i | 0 <= i < |ss| - 1 :: ss[..|ss| - 1][i] == ss[i];
    }
  }

  lemma OwnAnswers(p: Protocol, d: Data, m: Member)
    requires ValidOrder(p.env.order)
    ensures var y := OwnOf(p, d, m); !y.hidden && (y.shown != [] || p.matcherStatus) <==> Answers(p, d, m.operators)
  {
    Compared(p, d, m);
  }

  lemma AloneOnAnswers(p: Protocol, f: Footprint, m: Member, ds: seq<Data>)
    requires Respects(p, f, [m]) && IgnoresDynamic(p) && Clear(f, m) && ValidOrder(p.env.order)
    ensures AloneOn(p, m, ds).found <==> exists i | 0 <= i < |ds| :: Answers(p, ds[i], m.operators)
  {
    var ys := Ys(p, m, ds);
    AloneOnClosedForm(p, f, m, ds);
    SomethingVisible(ys);
    SomethingDue(ys);
    forall i | 0 <= i < |ds| ensures !ys[i].hidden && (ys[i].shown != [] || p.matcherStatus) <==> Answers(p, ds[i], m.operators) {
      OwnAnswers(p, ds[i], m);
    }
  }

  /** The cluster answers true exactly when some template counts on some response; a template alone
      exactly when it answers true on one of them. */
  lemma EventsAnswerExactly(p: Protocol, f: Footprint, first: Option<Operators>, ms: seq<Member>, ds: seq<Data>)
    requires Separable(p, f, ms) && Leading(f, first, ms)
    ensures ClusterOn(p, first, ms, ds).found <==> exists i | 0 <= i < |ds| :: SomeCounts(p, ds[i], ms)
    ensures forall j | 0 <= j < |ms| :: AloneOn(p, ms[j], ds).found <==> exists i | 0 <= i < |ds| :: Answers(p, ds[i], ms[j].operators)
  {
    var ss := SharedOn(p, first, ms, ds);
    TogetherFound(ss);
    forall i | 0 <= i < |ds| ensures ss[i].found <==> SomeCounts(p, ds[i], ms) { SharedAnswer(p, f, first, ms, ds[i]); }
    forall j | 0 <= j < |ms| ensures AloneOn(p, ms[j], ds).found <==> exists i | 0 <= i < |ds| :: Answers(p, ds[i], ms[j].operators) {
      SeparableOne(p, f, ms, j);
      AloneOnAnswers(p, f, ms[j], ds);
    }
  }
}
