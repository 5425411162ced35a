/** What clustering preserves: the whole output, the results and the answer of one pass over a cluster,
    compared with those of its templates run alone. */
module ClusterEquivalence {
  import opened Operators
  import opened OperatorResults
  import opened ClusterExecuter
  import opened ClusterMeaning
  import opened TemplateExecuter
  import opened ClusterAlone

  // ---- Outputs, by template ----

  /** Parts of an output, one after the other. */
  function UpTo(parts: seq<seq<Entry>>, n: nat): seq<Entry>
    requires n <= |parts|
  {
    if n == 0 then [] else UpTo(parts, n - 1) + parts[n - 1]
  }

  function AloneParts(p: Protocol, data: Data, ms: seq<Member>): seq<seq<Entry>> {
    seq(|ms|, i requires 0 <= i < |ms| => Alone(p, data, ms[i]).output)
  }

  /** The outputs of all templates run alone, one after the other. */
  function AloneOutput(p: Protocol, data: Data, ms: seq<Member>): seq<Entry> { UpTo(AloneParts(p, data, ms), |ms|) }

  function IDs(ms: seq<Member>): seq<string> { seq(|ms|, i requires 0 <= i < |ms| => ms[i].templateID) }

  ghost predicate Distinct(ids: seq<string>) { forall i, j | 0 <= i < j < |ids| :: ids[i] != ids[j] }

  predicate Of(e: Entry, id: string) { e.event.base.templateID == id }

  predicate Names(output: seq<Entry>, id: string) { exists i | 0 <= i < |output| :: Of(output[i], id) }

  lemma NamesConcat(a: seq<Entry>, b: seq<Entry>, id: string)
    ensures Names(a + b, id) <==> Names(a, id) || Names(b, id)
  {
    var ab := a + b;
    if i :| 0 <= i < |a| && Of(a[i], id) { assert Of(ab[i], id); }
    if i :| 0 <= i < |b| && Of(b[i], id) { assert Of(ab[|a| + i], id); }
    if i :| 0 <= i < |ab| && Of(ab[i], id) { assert if i < |a| then Of(a[i], id) else Of(b[i - |a|], id); }
  }

  /** Events and failures carry the identifier of their template, and no two templates have the same. */
  ghost predicate Attributed(xs: seq<Solo>) {
    && (forall i | 0 <= i < |xs| :: OneAttributed(xs[i]))
    && (forall i, k | 0 <= i < k < |xs| :: xs[i].id != xs[k].id)
  }

  ghost predicate OneAttributed(x: Solo) {
    && Of(x.failure, x.id) && !x.failure.status
    && forall k | 0 <= k < |x.events| :: x.events[k].base.templateID == x.id
  }

  lemma SoloAttributed(p: Protocol, data: Data, m: Member)
    requires Attributes(p)
    ensures OneAttributed(SoloOf(p, data, m))
  {
    var d := Stamped(Evaluate(m.operators, data, p.env).data, m);
    assert d[TEMPLATE_ID] == Text(m.templateID);
  }

  lemma SolosAttributed(p: Protocol, data: Data, ms: seq<Member>)
    requires Attributes(p) && forall i, k | 0 <= i < k < |ms| :: ms[i].templateID != ms[k].templateID
    ensures Attributed(Solos(p, data, ms))
  {
    var xs := Solos(p, data, ms);
    forall i | 0 <= i < |xs| ensures OneAttributed(xs[i]) && xs[i].id == ms[i].templateID {
      SoloAttributed(p, data, ms[i]);
    }
  }

  lemma {:induction false} LeftoverIsAnothers(xs: seq<Solo>) returns (i: nat)
    requires Leftover(xs) != []
    ensures i < |xs| && xs[i].finds && xs[i].events != [] && Leftover(xs) == xs[i].events
  {
    var last := |xs| - 1;
    if xs[last].finds { i := last; } else { i := LeftoverIsAnothers(xs[..last]); }
  }

  /** Whether a member writes something under its own name, as the event stands. */
  predicate Writes(xs: seq<Solo>, j: nat)
    requires j < |xs|
  {
    if xs[j].finds then xs[j].events != [] else xs[j].fails && Leftover(xs[..j]) == []
  }

  lemma AddedNames(xs: seq<Solo>, j: nat, id: string)
    requires Attributed(xs) && j < |xs|
    ensures Names(Added(xs[j], Leftover(xs[..j])), id) ==>
      (id == xs[j].id && Writes(xs, j)) || exists i :: 0 <= i < j && xs[i].id == id && xs[i].finds && xs[i].events != []
    ensures Writes(xs, j) ==> Names(Added(xs[j], Leftover(xs[..j])), xs[j].id)
  {
    var results := Leftover(xs[..j]);
    var added := Added(xs[j], results);
    if Writes(xs, j) { assert Of(added[0], xs[j].id); }
    if results != [] {
      var i := LeftoverIsAnothers(xs[..j]);
      assert xs[..j][i] == xs[i] && results == xs[i].events;
    }
  }

  lemma NextNames(xs: seq<Solo>, k: nat, j: nat)
    requires Attributed(xs) && k < |xs| && j < |xs|
    requires Names(PassOutput(xs[..k]), xs[j].id) <==> j < k && Writes(xs, j)
    ensures Names(PassOutput(xs[..k + 1]), xs[j].id) <==> j <= k && Writes(xs, j)
  {
    PassSnoc(xs, k);
    AddedNames(xs, k, xs[j].id);
    NamesConcat(PassOutput(xs[..k]), Added(xs[k], Leftover(xs[..k])), xs[j].id);
    if i :| 0 <= i < k && xs[i].id == xs[j].id { assert i == j; }
  }

  /** The output of a pass names a template exactly when the template writes something itself: it is
      written again only after it was written. */
  lemma {:induction false} PassNames(xs: seq<Solo>, n: nat, j: nat)
    requires Attributed(xs) && n <= |xs| && j < |xs|
    ensures Names(PassOutput(xs[..n]), xs[j].id) <==> j < n && Writes(xs, j)
  {
    if n > 0 {
      PassNames(xs, n - 1, j);
      NextNames(xs, n - 1, j);
    }
  }

  lemma ReportNames(status: bool, y: Own, x: Solo, id: string)
    requires y.failure == x.failure && Of(x.failure, x.id)
    requires forall k | 0 <= k < |y.shown| :: y.shown[k].base.templateID == x.id
    ensures Names(ReportOf(status, y).output, id) <==> id == x.id && ReportOf(status, y).output != []
  {
    var output := ReportOf(status, y).output;
    if output != [] { assert Of(output[0], x.id); }
  }

  lemma ShownAttributed(p: Protocol, data: Data, m: Member)
    requires Attributes(p)
    ensures forall k | 0 <= k < |OwnOf(p, data, m).shown| :: OwnOf(p, data, m).shown[k].base.templateID == m.templateID
  {
    var d := Stamped(Evaluate(m.operators, data, p.env).data, m);
    assert d[TEMPLATE_ID] == Text(m.templateID);
  }

  lemma AloneNames(p: Protocol, f: Footprint, data: Data, m: Member, id: string)
    requires Separable(p, f, [m])
    ensures Names(Alone(p, data, m).output, id) <==> id == m.templateID && Alone(p, data, m).output != []
  {
    assert [m][0] == m;
    AloneClosedForm(p, f, data, m);
    Compared(p, data, m);
    ShownAttributed(p, data, m);
    SolosAttributed(p, data, [m]);
    assert Solos(p, data, [m])[0] == SoloOf(p, data, m);
    ReportNames(p.matcherStatus, OwnOf(p, data, m), SoloOf(p, data, m), id);
  }

  lemma SeparableOne(p: Protocol, f: Footprint, ms: seq<Member>, i: nat)
    requires Separable(p, f, ms) && i < |ms|
    ensures Separable(p, f, [ms[i]])
  {
    assert ms[i] in ms;
  }

  /** The part names its template, if it says anything, and no other. */
  ghost predicate NamesOnly(part: seq<Entry>, own: string) {
    forall id :: Names(part, id) <==> id == own && part != []
  }

  lemma {:induction false} UpToNames(parts: seq<seq<Entry>>, ids: seq<string>, n: nat, j: nat)
    requires n <= |parts| == |ids| && j < |ids| && Distinct(ids) && forall i | 0 <= i < |ids| :: NamesOnly(parts[i], ids[i])
    ensures Names(UpTo(parts, n), ids[j]) <==> j < n && parts[j] != []
  {
    if n > 0 {
      UpToNames(parts, ids, n - 1, j);
      NamesConcat(UpTo(parts, n - 1), parts[n - 1], ids[j]);
      assert NamesOnly(parts[n - 1], ids[n - 1]);
    }
  }

  lemma AloneNamesOnly(p: Protocol, f: Footprint, data: Data, ms: seq<Member>)
    requires Separable(p, f, ms)
    ensures Distinct(IDs(ms)) && forall i | 0 <= i < |ms| :: NamesOnly(AloneParts(p, data, ms)[i], IDs(ms)[i])
  {
    forall i | 0 <= i < |ms| ensures NamesOnly(AloneParts(p, data, ms)[i], IDs(ms)[i]) {
      SeparableOne(p, f, ms, i);
      forall id ensures Names(AloneParts(p, data, ms)[i], id) <==> id == ms[i].templateID && AloneParts(p, data, ms)[i] != [] {
        AloneNames(p, f, data, ms[i], id);
      }
    }
  }

  // ---- The whole output ----

  /** The j-th member fails while the event still carries the results of an earlier one. */
  ghost predicate FailsWithLeftover(xs: seq<Solo>, j: nat) {
    j < |xs| && !xs[j].finds && xs[j].fails && Leftover(xs[..j]) != []
  }

  /** A template does in the cluster what it does alone: its match is not hidden, no dynamic values
      stand in the way of its results, and with failures reported, it has none that the cluster
      does not see or writes under another name. */
  ghost predicate Faithful(p: Protocol, data: Data, ms: seq<Member>, j: nat)
    requires j < |ms|
  {
    var ops := ms[j].operators;
    && !Hides(p, data, ops) && !Uncovers(p, data, ops)
    && (p.matcherStatus ==> !OnlyDynamic(p, data, ops) && !Aborted(p, data, ops))
    && !FailsWithLeftover(Solos(p, data, ms), j)
  }

  lemma FaithfulAdds(p: Protocol, f: Footprint, data: Data, ms: seq<Member>, j: nat)
    requires Separable(p, f, ms) && j < |ms|
    ensures var xs := Solos(p, data, ms);
      && (Faithful(p, data, ms, j) ==> Added(xs[j], Leftover(xs[..j])) == Alone(p, data, ms[j]).output)
      && (!Faithful(p, data, ms, j) ==> Writes(xs, j) != (Alone(p, data, ms[j]).output != []))
  {
    SeparableOne(p, f, ms, j);
    assert ms[j] in [ms[j]] && [ms[j]][0] == ms[j];
    AloneClosedForm(p, f, data, ms[j]);
    Compared(p, data, ms[j]);
  }

  lemma PassSnoc(xs: seq<Solo>, k: nat)
    requires k < |xs|
    ensures PassOutput(xs[..k + 1]) == PassOutput(xs[..k]) + Added(xs[k], Leftover(xs[..k]))
  {
    assert xs[..k + 1][..k] == xs[..k];
  }

  lemma {:induction false} SameParts(xs: seq<Solo>, parts: seq<seq<Entry>>, n: nat)
    requires n <= |xs| == |parts| && forall k | 0 <= k < n :: Added(xs[k], Leftover(xs[..k])) == parts[k]
    ensures PassOutput(xs[..n]) == UpTo(parts, n)
  {
    if n > 0 {
      SameParts(xs, parts, n - 1);
      PassSnoc(xs, n - 1);
    }
  }

  /** What the event of the shared request leads to, from what the members come to. */
  lemma SharedClosedForm(p: Protocol, f: Footprint, first: Option<Operators>, ms: seq<Member>, data: Data)
    requires Separable(p, f, ms) && Leading(f, first, ms)
    ensures var xs := Solos(p, data, ms);
      && Shared(p, first, ms, data).output == PassOutput(xs) && Shared(p, first, ms, data).found == OneFinds(xs)
      && Attributed(xs) && xs[..|ms|] == xs
  {
    SharedIsPlain(p, f, first, ms, data);
    PassClosedForm(p, f, data, ms);
    SolosAttributed(p, data, ms);
  }

  lemma FaithfulSame(p: Protocol, f: Footprint, ms: seq<Member>, data: Data)
    requires Separable(p, f, ms) && forall j | 0 <= j < |ms| :: Faithful(p, data, ms, j)
    ensures PassOutput(Solos(p, data, ms)[..|ms|]) == AloneOutput(p, data, ms)
  {
    var xs, parts := Solos(p, data, ms), AloneParts(p, data, ms);
    forall j | 0 <= j < |ms| ensures Added(xs[j], Leftover(xs[..j])) == parts[j] { FaithfulAdds(p, f, data, ms, j); }
    SameParts(xs, parts, |ms|);
  }

  lemma UnfaithfulDiffers(p: Protocol, f: Footprint, ms: seq<Member>, data: Data, j: nat)
    requires Separable(p, f, ms) && j < |ms| && !Faithful(p, data, ms, j) && Attributed(Solos(p, data, ms))
    ensures PassOutput(Solos(p, data, ms)[..|ms|]) != AloneOutput(p, data, ms)
  {
    FaithfulAdds(p, f, data, ms, j);
    PassNames(Solos(p, data, ms), |ms|, j);
    AloneNamesOnly(p, f, data, ms);
    UpToNames(AloneParts(p, data, ms), IDs(ms), |ms|, j);
  }

  /** The pass over a cluster writes, results and failures in order, what the templates write alone if
      and only if every template is faithful. */
  lemma ClusterPreservesOutputExactly(p: Protocol, f: Footprint, first: Option<Operators>, ms: seq<Member>, data: Data)
    requires Separable(p, f, ms) && Leading(f, first, ms)
    ensures Shared(p, first, ms, data).output == AloneOutput(p, data, ms) <==> forall j | 0 <= j < |ms| :: Faithful(p, data, ms, j)
  {
    SharedClosedForm(p, f, first, ms, data);
    if j :| 0 <= j < |ms| && !Faithful(p, data, ms, j) {
      UnfaithfulDiffers(p, f, ms, data, j);
    } else {
      FaithfulSame(p, f, ms, data);
    }
  }

  // ---- Results ----

  function Reported(output: seq<Entry>): seq<ResultEvent> {
    if output == [] then []
    else
      var last := |output| - 1;
      Reported(output[..last]) + if output[last].status then [output[last].event] else []
  }

  lemma {:induction false} ReportedConcat(a: seq<Entry>, b: seq<Entry>)
    ensures Reported(a + b) == Reported(a) + Reported(b)
  {
    if b == [] {
      assert a + b == a;
    } else {
      var last := |b| - 1;
      assert (a + b)[..|a + b| - 1] == a + b[..last];
      ReportedConcat(a, b[..last]);
    }
  }

  lemma {:induction false} ReportedEntries(events: seq<ResultEvent>, status: bool)
    ensures Reported(Entries(events, status)) == if status then events else []
  {
    if events != [] {
      var last := |events| - 1;
      assert Entries(events, status)[..last] == Entries(events[..last], status);
      ReportedEntries(events[..last], status);
      assert events == events[..last] + [events[last]];
    }
  }

  /** The events of a template in a list. */
  function For(events: seq<ResultEvent>, id: string): seq<ResultEvent> {
    if events == [] then []
    else
      var front, last := For(events[..|events| - 1], id), events[|events| - 1];
      if last.base.templateID == id then front + [last] else front
  }

  lemma {:induction false} ForConcat(a: seq<ResultEvent>, b: seq<ResultEvent>, id: string)
    ensures For(a + b, id) == For(a, id) + For(b, id)
  {
    if b == [] {
      assert a + b == a;
    } else {
      var last := |b| - 1;
      assert (a + b)[..|a + b| - 1] == a + b[..last];
      ForConcat(a, b[..last], id);
    }
  }

  lemma {:induction false} ForOne(events: seq<ResultEvent>, own: string, id: string)
    requires forall k | 0 <= k < |events| :: events[k].base.templateID == own
    ensures For(events, id) == if id == own then events else []
  {
    if events != [] {
      ForOne(events[..|events| - 1], own, id);
      assert events == events[..|events| - 1] + [events[|events| - 1]];
    }
  }

  lemma AddedReports(x: Solo, results: seq<ResultEvent>)
    requires OneAttributed(x)
    ensures Reported(Added(x, results)) == if x.finds then x.events else []
  {
    ReportedEntries(x.events, true);
    ReportedEntries(results, false);
    ReportedEntries([x.failure.event], false);
    assert Entries([x.failure.event], false) == [x.failure];
  }

  /** Of a template, the pass reports what its operators come to. */
  lemma {:induction false} PassReports(xs: seq<Solo>, n: nat, j: nat)
    requires Attributed(xs) && n <= |xs| && j < |xs|
    ensures For(Reported(PassOutput(xs[..n])), xs[j].id) == if j < n && xs[j].finds then xs[j].events else []
  {
    if n > 0 {
      var k := n - 1;
      PassReports(xs, k, j);
      PassSnoc(xs, k);
      assert OneAttributed(xs[k]);
      AddedReports(xs[k], Leftover(xs[..k]));
      ReportedConcat(PassOutput(xs[..k]), Added(xs[k], Leftover(xs[..k])));
      var events := if xs[k].finds then xs[k].events else [];
      ForConcat(Reported(PassOutput(xs[..k])), events, xs[j].id);
      ForOne(events, xs[k].id, xs[j].id);
    }
  }

  /** What a template reports alone. */
  function OwnResults(p: Protocol, data: Data, m: Member): seq<ResultEvent> { Reported(Alone(p, data, m).output) }

  lemma OwnReports(p: Protocol, f: Footprint, data: Data, m: Member)
    requires Separable(p, f, [m])
    ensures var y := OwnOf(p, data, m); OwnResults(p, data, m) == if y.hidden then [] else y.shown
    ensures forall k | 0 <= k < |OwnResults(p, data, m)| :: OwnResults(p, data, m)[k].base.templateID == m.templateID
  {
    assert [m][0] == m;
    AloneClosedForm(p, f, data, m);
    var y := OwnOf(p, data, m);
    ShownAttributed(p, data, m);
    ReportedEntries(y.shown, true);
    ReportedEntries([y.failure.event], false);
    assert Entries([y.failure.event], false) == [y.failure];
  }

  /** The part reports events of its template only. */
  ghost predicate ReportsOnly(part: seq<Entry>, own: string) {
    forall k | 0 <= k < |Reported(part)| :: Reported(part)[k].base.templateID == own
  }

  lemma NextReports(a: seq<Entry>, part: seq<Entry>, own: string, id: string)
    requires ReportsOnly(part, own)
    ensures For(Reported(a + part), id) == For(Reported(a), id) + if id == own then Reported(part) else []
  {
    ReportedConcat(a, part);
    ForConcat(Reported(a), Reported(part), id);
    ForOne(Reported(part), own, id);
  }

  ghost predicate AllReportOnly(parts: seq<seq<Entry>>, ids: seq<string>) {
    |parts| == |ids| && Distinct(ids) && forall i | 0 <= i < |ids| :: ReportsOnly(parts[i], ids[i])
  }

  lemma {:induction false} UpToReports(parts: seq<seq<Entry>>, ids: seq<string>, n: nat, j: nat)
    requires AllReportOnly(parts, ids) && n <= |parts| && j < |ids|
    ensures For(Reported(UpTo(parts, n)), ids[j]) == if j < n then Reported(parts[j]) else []
  {
    if n > 0 {
      var own, id := ids[n - 1], ids[j];
      assert own == id <==> j == n - 1;
      UpToReports(parts, ids, n - 1, j);
      NextReports(UpTo(parts, n - 1), parts[n - 1], own, id);
    }
  }

  lemma AloneReportsOnly(p: Protocol, f: Footprint, data: Data, ms: seq<Member>)
    requires Separable(p, f, ms)
    ensures Distinct(IDs(ms)) && forall i | 0 <= i < |ms| :: ReportsOnly(AloneParts(p, data, ms)[i], IDs(ms)[i])
  {
    forall i | 0 <= i < |ms| ensures ReportsOnly(AloneParts(p, data, ms)[i], IDs(ms)[i]) {
      SeparableOne(p, f, ms, i);
      OwnReports(p, f, data, ms[i]);
    }
  }

  /** The results that the pass writes under the name of a template are those of the template alone if
      and only if the template hides no match and no dynamic values stand in the way. */
  lemma TemplateReportsExactly(p: Protocol, f: Footprint, first: Option<Operators>, ms: seq<Member>, data: Data, j: nat)
    requires Separable(p, f, ms) && Leading(f, first, ms) && j < |ms|
    ensures var ops := ms[j].operators;
      For(Reported(Shared(p, first, ms, data).output), ms[j].templateID) == OwnResults(p, data, ms[j])
      <==> !Hides(p, data, ops) && !Uncovers(p, data, ops)
  {
    SharedClosedForm(p, f, first, ms, data);
    PassReports(Solos(p, data, ms), |ms|, j);
    OneReportsExactly(p, f, ms, data, j);
  }

  lemma {:induction false} SameReports(xs: seq<Solo>, parts: seq<seq<Entry>>, n: nat)
    requires n <= |xs| == |parts| && Attributed(xs)
    requires forall k | 0 <= k < n :: Reported(parts[k]) == if xs[k].finds then xs[k].events else []
    ensures Reported(PassOutput(xs[..n])) == Reported(UpTo(parts, n))
  {
    if n > 0 {
      var k := n - 1;
      SameReports(xs, parts, k);
      PassSnoc(xs, k);
      assert OneAttributed(xs[k]);
      AddedReports(xs[k], Leftover(xs[..k]));
      ReportedConcat(PassOutput(xs[..k]), Added(xs[k], Leftover(xs[..k])));
      ReportedConcat(UpTo(parts, k), parts[k]);
    }
  }

  /** Of one template, the pass reports what the template reports alone exactly without the two ways. */
  lemma OneReportsExactly(p: Protocol, f: Footprint, ms: seq<Member>, data: Data, j: nat)
    requires Separable(p, f, ms) && j < |ms|
    ensures var x := SoloOf(p, data, ms[j]);
      OwnResults(p, data, ms[j]) == (if x.finds then x.events else [])
      <==> !Hides(p, data, ms[j].operators) && !Uncovers(p, data, ms[j].operators)
  {
    SeparableOne(p, f, ms, j);
    OwnReports(p, f, data, ms[j]);
    Compared(p, data, ms[j]);
  }

  lemma ReportsDiffer(p: Protocol, f: Footprint, first: Option<Operators>, ms: seq<Member>, data: Data, j: nat)
    requires Separable(p, f, ms) && Leading(f, first, ms)
    requires j < |ms| && (Hides(p, data, ms[j].operators) || Uncovers(p, data, ms[j].operators))
    ensures Reported(Shared(p, first, ms, data).output) != Reported(AloneOutput(p, data, ms))
  {
    TemplateReportsExactly(p, f, first, ms, data, j);
    AloneReportsOnly(p, f, data, ms);
    UpToReports(AloneParts(p, data, ms), IDs(ms), |ms|, j);
  }

  lemma ReportsSame(p: Protocol, f: Footprint, first: Option<Operators>, ms: seq<Member>, data: Data)
    requires Separable(p, f, ms) && Leading(f, first, ms)
    requires forall j | 0 <= j < |ms| :: !Hides(p, data, ms[j].operators) && !Uncovers(p, data, ms[j].operators)
    ensures Reported(Shared(p, first, ms, data).output) == Reported(AloneOutput(p, data, ms))
  {
    var xs, parts := Solos(p, data, ms), AloneParts(p, data, ms);
    SharedClosedForm(p, f, first, ms, data);
    forall j | 0 <= j < |ms| ensures Reported(parts[j]) == if xs[j].finds then xs[j].events else [] {
      OneReportsExactly(p, f, ms, data, j);
    }
    SameReports(xs, parts, |ms|);
  }

  /** Failures aside, the pass reports, in operator order, what the templates report alone if and only
      if that holds of every template. */
  lemma ClusterReportsExactly(p: Protocol, f: Footprint, first: Option<Operators>, ms: seq<Member>, data: Data)
    requires Separable(p, f, ms) && Leading(f, first, ms)
    ensures Reported(Shared(p, first, ms, data).output) == Reported(AloneOutput(p, data, ms))
            <==> forall j | 0 <= j < |ms| :: !Hides(p, data, ms[j].operators) && !Uncovers(p, data, ms[j].operators)
  {
    if j :| 0 <= j < |ms| && (Hides(p, data, ms[j].operators) || Uncovers(p, data, ms[j].operators)) {
      ReportsDiffer(p, f, first, ms, data, j);
    } else {
      ReportsSame(p, f, first, ms, data);
    }
  }

  // ---- Answers ----

  ghost predicate SomeCounts(p: Protocol, data: Data, ms: seq<Member>) {
    exists j :: 0 <= j < |ms| && Counts(p, data, ms[j].operators)
  }

  ghost predicate SomeAnswersAlone(p: Protocol, data: Data, ms: seq<Member>) {
    exists j :: 0 <= j < |ms| && Alone(p, data, ms[j]).found
  }

  ghost predicate SomeAnswers(p: Protocol, data: Data, ms: seq<Member>) {
    exists j :: 0 <= j < |ms| && Answers(p, data, ms[j].operators)
  }

  lemma OneAnswer(p: Protocol, f: Footprint, data: Data, ms: seq<Member>, j: nat)
    requires Separable(p, f, ms) && j < |ms|
    ensures Alone(p, data, ms[j]).found <==> Answers(p, data, ms[j].operators)
  {
    SeparableOne(p, f, ms, j);
    assert [ms[j]][0] == ms[j];
    AnswerAlone(p, f, data, ms[j]);
  }

  lemma SomeAnswer(p: Protocol, f: Footprint, data: Data, ms: seq<Member>)
    requires Separable(p, f, ms)
    ensures SomeAnswersAlone(p, data, ms) <==> SomeAnswers(p, data, ms)
  {
    forall j | 0 <= j < |ms| ensures Alone(p, data, ms[j]).found <==> Answers(p, data, ms[j].operators) {
      OneAnswer(p, f, data, ms, j);
    }
  }

  lemma SharedAnswer(p: Protocol, f: Footprint, first: Option<Operators>, ms: seq<Member>, data: Data)
    requires Separable(p, f, ms) && Leading(f, first, ms)
    ensures Shared(p, first, ms, data).found <==> SomeCounts(p, data, ms)
  {
    var xs := Solos(p, data, ms);
    SharedClosedForm(p, f, first, ms, data);
    OneFindsExactly(xs);
    forall j | 0 <= j < |ms| ensures xs[j].finds == Counts(p, data, ms[j].operators) { Compared(p, data, ms[j]); }
  }

  /** The cluster answers true exactly when the operators of a template count; some template alone
      answers true exactly when one hides no match and has something to show or reports failures.
      So the two answers agree when for each template they do: it counts and hides nothing, and
      without failures to report it has something to write. */
  lemma ClusterAnswersExactly(p: Protocol, f: Footprint, first: Option<Operators>, ms: seq<Member>, data: Data)
    requires Separable(p, f, ms) && Leading(f, first, ms)
    ensures Shared(p, first, ms, data).found <==> SomeCounts(p, data, ms)
    ensures SomeAnswersAlone(p, data, ms) <==> SomeAnswers(p, data, ms)
    ensures forall j | 0 <= j < |ms| ::
              (Alone(p, data, ms[j]).found <==> Counts(p, data, ms[j].operators))
              <==> if Counts(p, data, ms[j].operators) then Answers(p, data, ms[j].operators)
                   else Hides(p, data, ms[j].operators) || !p.matcherStatus
  {
    SharedAnswer(p, f, first, ms, data);
    SomeAnswer(p, f, data, ms);
    forall j | 0 <= j < |ms| ensures Alone(p, data, ms[j]).found <==> Answers(p, data, ms[j].operators) {
      OneAnswer(p, f, data, ms, j);
    }
  }
}
