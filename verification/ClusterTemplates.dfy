/** Replacing every group of several templates by one clustered template, and what that does to
    the numbers of templates and requests. */
module ClusterTemplates {

  import opened ClusterGroups
  import ClusterID

  datatype ClusteredOperator = ClusteredOperator(templateID: string, operators: nat)

  /** The shared request and the operators of the members. */
  datatype Executer = Executer(protocol: Option<Protocol>, request: Option<Request>, operators: seq<ClusteredOperator>)

  /** A template of the final list, and the clustered executer it was given, if any. */
  datatype Loaded = Loaded(template: Template, executer: Option<Executer>)

  function Requests(t: Template, p: Protocol): seq<Request> {
    match p
    case DNS => t.dns
    case HTTP => t.http
    case SSL => t.ssl
  }

  /** The protocol of the first of DNS, HTTP and SSL with exactly one request. */
  function SingleProtocol(t: Template): Option<Protocol> {
    if |t.dns| == 1 then Some(DNS) else if |t.http| == 1 then Some(HTTP) else if |t.ssl| == 1 then Some(SSL) else None
  }

  /** The operators compiled for the request of each template that has some, under its own identifier. */
  function OperatorsOf(ts: seq<Template>, p: Protocol): seq<ClusteredOperator>
    requires forall t | t in ts :: Requests(t, p) != []
  {
    if ts == [] then []
    else
      var t := ts[|ts| - 1];
      var front := OperatorsOf(ts[..|ts| - 1], p);
      match Requests(t, p)[0].operators
      case None => front
      case Some(o) => front + [ClusteredOperator(t.id, o)]
  }

  method AppendOperator(t: Template, request: Request, operators: seq<ClusteredOperator>) returns (operators': seq<ClusteredOperator>)
    ensures operators' == operators + match request.operators case None => [] case Some(o) => [ClusteredOperator(t.id, o)]
  {
    operators' := operators;
    if request.operators.Some? {
      operators' := operators' + [ClusteredOperator(t.id, request.operators.value)];
    }
  }

  /** The caller owes the indexes [0]: a first template, and in every template a request of the
      protocol that the first one selects. */
  method NewClusterExecuter(ts: seq<Template>) returns (e: Executer)
    requires ts != []
    requires SingleProtocol(ts[0]).Some? ==> forall t | t in ts :: Requests(t, SingleProtocol(ts[0]).value) != []
    ensures e.protocol == SingleProtocol(ts[0])
    ensures e.protocol.None? ==> e.request == None && e.operators == []
    ensures e.protocol.Some? ==>
              && e.request == Some(Requests(ts[0], e.protocol.value)[0])
              && e.operators == OperatorsOf(ts, e.protocol.value)
  {
    var protocol: Option<Protocol>, request: Option<Request> := None, None;
    if |ts[0].dns| == 1 {
      protocol, request := Some(DNS), Some(ts[0].dns[0]);
    } else if |ts[0].http| == 1 {
      protocol, request := Some(HTTP), Some(ts[0].http[0]);
    } else if |ts[0].ssl| == 1 {
      protocol, request := Some(SSL), Some(ts[0].ssl[0]);
    }
    assert protocol == SingleProtocol(ts[0]);
    var operators: seq<ClusteredOperator> := [];
    for i := 0 to |ts|
      invariant protocol.Some? ==> forall t | t in ts :: Requests(t, protocol.value) != []
      invariant protocol.None? ==> operators == []
      invariant protocol.Some? ==> operators == OperatorsOf(ts[..i], protocol.value)
    {
      assert ts[..i + 1][..i] == ts[..i];
      assert ts[i] in ts && (protocol.Some? ==> Requests(ts[i], protocol.value) != []);
      if protocol == Some(DNS) {
        operators := AppendOperator(ts[i], ts[i].dns[0], operators);
      } else if protocol == Some(HTTP) {
        operators := AppendOperator(ts[i], ts[i].http[0], operators);
      } else if protocol == Some(SSL) {
        operators := AppendOperator(ts[i], ts[i].ssl[0], operators);
      }
    }
    assert ts[..|ts|] == ts;
    e := Executer(protocol, request, operators);
  }

  /** The requests of a class: every member has exactly one request of its protocol, the selected
      one, and all have the same key. */
  lemma MembersShare(t: Template, c: Class)
    requires ClassOf(t) == Some(c)
    ensures SingleProtocol(t) == Some(c.protocol) && |Requests(t, c.protocol)| == 1
    ensures Requests(t, c.protocol)[0].clusterable && Requests(t, c.protocol)[0].key == c.key
    ensures t.flow == "" && !t.multiProtocol
  {
  }

  /** A group that is clustered satisfies what the constructor of its executer demands. */
  lemma GroupIsIndexable(list: seq<Template>, g: seq<Template>)
    requires IsGroup(list, g) && |g| > 1
    ensures exists c :: (forall t | t in g :: ClassOf(t) == Some(c)) && SingleProtocol(g[0]) == Some(c.protocol)
    ensures SingleProtocol(g[0]).Some? && forall t | t in g :: Requests(t, SingleProtocol(g[0]).value) != []
  {
    var c :| g == Members(list, c) && g != [];
    MembersAre(list, c);
    forall t | t in g ensures ClassOf(t) == Some(c) && SingleProtocol(t) == Some(c.protocol) && |Requests(t, c.protocol)| == 1 {
      MembersShare(t, c);
    }
    assert g[0] in g;
  }

  /** An operator of the executer belongs to a member with compiled operators, and each such member
      has one: the counts agree, member by member. */
  ghost function Contribution(ts: seq<Template>, p: Protocol, o: ClusteredOperator): nat
    requires forall t | t in ts :: Requests(t, p) != []
  {
    if ts == [] then 0
    else
      var t := ts[|ts| - 1];
      Contribution(ts[..|ts| - 1], p, o)
      + if t.id == o.templateID && Requests(t, p)[0].operators == Some(o.operators) then 1 else 0
  }

  lemma {:induction false} OneOperatorEach(ts: seq<Template>, p: Protocol, o: ClusteredOperator)
    requires forall t | t in ts :: Requests(t, p) != []
    ensures multiset(OperatorsOf(ts, p))[o] == Contribution(ts, p, o)
  {
    if ts != [] { OneOperatorEach(ts[..|ts| - 1], p, o); }
  }

  /** The operators of the shared request come first: if it has some, they are those of the first
      template, under its identifier. */
  lemma {:induction false} FirstOperatorsLead(ts: seq<Template>, p: Protocol, n: nat)
    requires 1 <= n <= |ts| && (forall t | t in ts :: Requests(t, p) != []) && Requests(ts[0], p)[0].operators.Some?
    ensures (forall t | t in ts[..n] :: Requests(t, p) != [])
    ensures OperatorsOf(ts[..n], p) != []
    ensures OperatorsOf(ts[..n], p)[0] == ClusteredOperator(ts[0].id, Requests(ts[0], p)[0].operators.value)
  {
    assert forall t | t in ts[..n] :: t in ts;
    assert ts[..n][..n - 1] == ts[..n - 1];
    if n > 1 { FirstOperatorsLead(ts, p, n - 1); }
  }

  // ---- The final list ----

  function IDs(ts: seq<Template>): seq<string> {
    if ts == [] then [] else IDs(ts[..|ts| - 1]) + [ts[|ts| - 1].id]
  }

  /** The template that stands for a group: its requests are those of the first member. */
  function Merged(g: seq<Template>, hash: string -> string): Template
    requires g != []
  {
    Template("cluster-" + hash(ClusterID.Join(ClusterID.Sort(IDs(g)))), "", false,
             g[0].dns, g[0].http, g[0].ssl, 0, |g[0].http| + |g[0].dns|)
  }

  function Kept(g: seq<Template>): seq<Loaded> {
    if g == [] then [] else Kept(g[..|g| - 1]) + [Loaded(g[|g| - 1], None)]
  }

  /** What one group becomes. */
  ghost predicate Becomes(g: seq<Template>, out: seq<Loaded>, hash: string -> string) {
    if |g| > 1 then
      && |out| == 1 && out[0].template == Merged(g, hash)
      && var p := SingleProtocol(g[0]);
      && p.Some? && (forall t | t in g :: Requests(t, p.value) != [])
      && out[0].executer == Some(Executer(p, Some(Requests(g[0], p.value)[0]), OperatorsOf(g, p.value)))
    else out == Kept(g)
  }

  /** The final list is what the groups become, one after the other. */
  ghost predicate AllBecome(groups: seq<seq<Template>>, final: seq<Loaded>, hash: string -> string)
    decreases |groups|
  {
    if groups == [] then final == []
    else exists k | 0 <= k <= |final| ::
           AllBecome(groups[..|groups| - 1], final[..k], hash) && Becomes(groups[|groups| - 1], final[k..], hash)
  }

  /** How many templates were replaced. */
  function Replaced(groups: seq<seq<Template>>): nat {
    if groups == [] then 0
    else Replaced(groups[..|groups| - 1]) + var g := groups[|groups| - 1]; if |g| > 1 then |g| else 0
  }

  method Collect(ts: seq<Template>) returns (ids: seq<string>)
    ensures ids == IDs(ts)
  {
    ids := [];
    for i := 0 to |ts|
      invariant ids == IDs(ts[..i])
    {
      assert ts[..i + 1][..i] == ts[..i];
      ids := ids + [ts[i].id];
    }
    assert ts[..|ts|] == ts;
  }

  method Keep(g: seq<Template>) returns (out: seq<Loaded>)
    ensures out == Kept(g)
  {
    out := [];
    for i := 0 to |g|
      invariant out == Kept(g[..i])
    {
      assert g[..i + 1][..i] == g[..i];
      out := out + [Loaded(g[i], None)];
    }
    assert g[..|g|] == g;
  }

  method Merge(g: seq<Template>, hash: string -> string) returns (out: Loaded)
    requires |g| > 1 && SingleProtocol(g[0]).Some? && forall t | t in g :: Requests(t, SingleProtocol(g[0]).value) != []
    ensures Becomes(g, [out], hash)
  {
    var ids := Collect(g);
    var joined := ClusterID.JoinedIDs(ids);
    var clusterID := "cluster-" + hash(joined);
    var executer := NewClusterExecuter(g);
    out := Loaded(Template(clusterID, "", false, g[0].dns, g[0].http, g[0].ssl, 0, |g[0].http| + |g[0].dns|), Some(executer));
  }

  lemma BecomeNext(groups: seq<seq<Template>>, final: seq<Loaded>, g: seq<Template>, out: seq<Loaded>, hash: string -> string)
    requires AllBecome(groups, final, hash) && Becomes(g, out, hash)
    ensures AllBecome(groups + [g], final + out, hash)
  {
    var k, more, all := |final|, groups + [g], final + out;
    assert more[..|more| - 1] == groups && more[|more| - 1] == g;
    assert all[..k] == final && all[k..] == out;
  }

  method Replace(groups: seq<seq<Template>>, ghost list: seq<Template>, hash: string -> string) returns (final: seq<Loaded>, clusterCount: nat)
    requires forall g | g in groups :: IsGroup(list, g)
    ensures AllBecome(groups, final, hash) && clusterCount == Replaced(groups)
  {
    final, clusterCount := [], 0;
    for i := 0 to |groups|
      invariant AllBecome(groups[..i], final, hash) && clusterCount == Replaced(groups[..i])
    {
      ghost var done, g := groups[..i], groups[i];
      assert groups[..i + 1] == done + [g] && (done + [g])[..i] == done;
      if |groups[i]| > 1 {
        GroupIsIndexable(list, g);
        var out := Merge(groups[i], hash);
        BecomeNext(done, final, g, [out], hash);
        final := final + [out];
        clusterCount := clusterCount + |groups[i]|;
      } else {
        var out := Keep(groups[i]);
        BecomeNext(done, final, g, out, hash);
        final := final + out;
      }
    }
    assert groups[..|groups|] == groups;
  }

  method ClusterTemplates(list: seq<Template>, disabled: bool, hash: string -> string)
    returns (final: seq<Loaded>, clusterCount: nat, ghost groups: seq<seq<Template>>, ghost order: seq<Class>)
    ensures disabled ==> final == Kept(list) && clusterCount == 0
    ensures !disabled ==> Arranged(list, order, groups) && AllBecome(groups, final, hash) && clusterCount == Replaced(groups)
  {
    groups, order := [], [];
    if disabled {
      final := Keep(list);
      return final, 0, groups, order;
    }
    var clusters;
    clusters, order := Cluster(list);
    groups := clusters;
    ClusterPartition(list, order, groups);
    final, clusterCount := Replace(clusters, list, hash);
  }

  // ---- The balance of the counts ----

  /** The number of groups of more than one template. */
  function Large(groups: seq<seq<Template>>): nat {
    if groups == [] then 0 else Large(groups[..|groups| - 1]) + if |groups[|groups| - 1]| > 1 then 1 else 0
  }

  function Total(groups: seq<seq<Template>>): nat {
    if groups == [] then 0 else Total(groups[..|groups| - 1]) + |groups[|groups| - 1]|
  }

  lemma {:induction false} TotalIsSize(groups: seq<seq<Template>>)
    ensures |Contents(groups)| == Total(groups)
  {
    if groups != [] { TotalIsSize(groups[..|groups| - 1]); }
  }

  lemma {:induction false} KeptLength(g: seq<Template>)
    ensures |Kept(g)| == |g|
  {
    if g != [] { KeptLength(g[..|g| - 1]); }
  }

  lemma {:induction false} FinalLength(groups: seq<seq<Template>>, final: seq<Loaded>, hash: string -> string)
    requires AllBecome(groups, final, hash)
    ensures |final| + Replaced(groups) == Total(groups) + Large(groups)
    decreases |groups|
  {
    if groups != [] {
      var g := groups[|groups| - 1];
      var k :| 0 <= k <= |final| && AllBecome(groups[..|groups| - 1], final[..k], hash) && Becomes(g, final[k..], hash);
      FinalLength(groups[..|groups| - 1], final[..k], hash);
      KeptLength(g);
    }
  }

  /** The list shrinks by the templates that were replaced, and grows by one for each large group. */
  lemma LengthBalance(list: seq<Template>, order: seq<Class>, groups: seq<seq<Template>>, final: seq<Loaded>, hash: string -> string)
    requires Arranged(list, order, groups) && AllBecome(groups, final, hash)
    ensures |final| == |list| - Replaced(groups) + Large(groups)
  {
    ClusterPartition(list, order, groups);
    assert |multiset(list)| == |list|;
    TotalIsSize(groups);
    FinalLength(groups, final, hash);
  }

  /** The requests of a template, workflows not counted. */
  function Counted(t: Template): nat { if t.workflows > 0 then 0 else t.totalRequests }

  function RequestCount(ts: seq<Template>): nat {
    if ts == [] then 0 else RequestCount(ts[..|ts| - 1]) + Counted(ts[|ts| - 1])
  }

  function LoadedCount(ts: seq<Loaded>): nat {
    if ts == [] then 0 else LoadedCount(ts[..|ts| - 1]) + Counted(ts[|ts| - 1].template)
  }

  method GetRequestCount(ts: seq<Template>) returns (count: nat)
    ensures count == RequestCount(ts)
  {
    count := 0;
    for i := 0 to |ts|
      invariant count == RequestCount(ts[..i])
    {
      assert ts[..i + 1][..i] == ts[..i];
      if ts[i].workflows > 0 { continue; }
      count := count + ts[i].totalRequests;
    }
    assert ts[..|ts|] == ts;
  }

  lemma {:induction false} LoadedConcat(a: seq<Loaded>, b: seq<Loaded>)
    ensures LoadedCount(a + b) == LoadedCount(a) + LoadedCount(b)
  {
    if b == [] {
      assert a + b == a;
    } else {
      assert (a + b)[..|a + b| - 1] == a + b[..|b| - 1];
      LoadedConcat(a, b[..|b| - 1]);
    }
  }

  lemma {:induction false} KeptCount(g: seq<Template>)
    ensures LoadedCount(Kept(g)) == RequestCount(g)
  {
    if g != [] { KeptCount(g[..|g| - 1]); }
  }

  lemma Without(b: seq<Template>, i: nat)
    requires i < |b|
    ensures multiset(b[..i] + b[i + 1..]) == multiset(b) - multiset{b[i]}
  {
    assert b == b[..i] + [b[i]] + b[i + 1..];
  }

  /** The count of a list depends only on which templates it holds how often. */
  lemma {:induction false} CountOfPermutation(a: seq<Template>, b: seq<Template>)
    requires multiset(a) == multiset(b)
    ensures RequestCount(a) == RequestCount(b)
  {
    if a == [] {
      assert |multiset(b)| == |b|;
    } else {
      var last := |a| - 1;
      var i := Position(b, a[last]) by { assert a[last] in multiset(a); }
      Without(a, last);
      Without(b, i);
      assert a[..last] + a[last + 1..] == a[..last];
      CountOfPermutation(a[..last], b[..i] + b[i + 1..]);
      CountWithout(b, i);
    }
  }

  lemma Position(b: seq<Template>, t: Template) returns (i: nat)
    requires t in multiset(b)
    ensures i < |b| && b[i] == t
  {
    assert t in b;
    i :| 0 <= i < |b| && b[i] == t;
  }

  lemma {:induction false} CountWithout(b: seq<Template>, i: nat)
    requires i < |b|
    ensures RequestCount(b) == RequestCount(b[..i] + b[i + 1..]) + Counted(b[i])
  {
    var rest := b[..i] + b[i + 1..];
    if i == |b| - 1 {
      assert rest == b[..i];
    } else {
      var front := b[..|b| - 1];
      CountWithout(front, i);
      assert rest[..|rest| - 1] == front[..i] + front[i + 1..];
    }
  }

  function Flat(groups: seq<seq<Template>>): seq<Template> {
    if groups == [] then [] else Flat(groups[..|groups| - 1]) + groups[|groups| - 1]
  }

  lemma {:induction false} FlatContents(groups: seq<seq<Template>>)
    ensures multiset(Flat(groups)) == Contents(groups)
  {
    if groups != [] { FlatContents(groups[..|groups| - 1]); }
  }

  lemma {:induction false} CountConcat(a: seq<Template>, b: seq<Template>)
    ensures RequestCount(a + b) == RequestCount(a) + RequestCount(b)
  {
    if b == [] {
      assert a + b == a;
    } else {
      assert (a + b)[..|a + b| - 1] == a + b[..|b| - 1];
      CountConcat(a, b[..|b| - 1]);
    }
  }

  /** The requests that the large groups counted for before, and count for after. */
  function Before(groups: seq<seq<Template>>): nat {
    if groups == [] then 0
    else Before(groups[..|groups| - 1]) + var g := groups[|groups| - 1]; if |g| > 1 then RequestCount(g) else 0
  }

  function After(groups: seq<seq<Template>>): nat {
    if groups == [] then 0
    else After(groups[..|groups| - 1]) + var g := groups[|groups| - 1]; if |g| > 1 then |g[0].http| + |g[0].dns| else 0
  }

  lemma OneBecomes(g: seq<Template>, out: seq<Loaded>, hash: string -> string)
    requires Becomes(g, out, hash)
    ensures LoadedCount(out) == if |g| > 1 then |g[0].http| + |g[0].dns| else RequestCount(g)
  {
    KeptCount(g);
    if |g| > 1 {
      assert out == [out[0]] && out[..0] == [];
    }
  }

  ghost predicate Balances(groups: seq<seq<Template>>, final: seq<Loaded>) {
    LoadedCount(final) + Before(groups) == RequestCount(Flat(groups)) + After(groups)
  }

  lemma BalancesNext(front: seq<seq<Template>>, f: seq<Loaded>, g: seq<Template>, out: seq<Loaded>, hash: string -> string)
    requires Balances(front, f) && Becomes(g, out, hash)
    ensures Balances(front + [g], f + out)
  {
    var groups := front + [g];
    assert groups[..|groups| - 1] == front && groups[|groups| - 1] == g;
    OneBecomes(g, out, hash);
    LoadedConcat(f, out);
    CountConcat(Flat(front), g);
  }

  lemma LastBecomes(groups: seq<seq<Template>>, final: seq<Loaded>, hash: string -> string) returns (k: nat)
    requires groups != [] && AllBecome(groups, final, hash)
    ensures k <= |final| && AllBecome(groups[..|groups| - 1], final[..k], hash) && Becomes(groups[|groups| - 1], final[k..], hash)
  {
    k :| k <= |final| && AllBecome(groups[..|groups| - 1], final[..k], hash) && Becomes(groups[|groups| - 1], final[k..], hash);
  }

  lemma FinalNext(groups: seq<seq<Template>>, final: seq<Loaded>, k: nat, hash: string -> string)
    requires groups != [] && k <= |final|
    requires Balances(groups[..|groups| - 1], final[..k]) && Becomes(groups[|groups| - 1], final[k..], hash)
    ensures Balances(groups, final)
  {
    BalancesNext(groups[..|groups| - 1], final[..k], groups[|groups| - 1], final[k..], hash);
    assert groups == groups[..|groups| - 1] + [groups[|groups| - 1]] && final == final[..k] + final[k..];
  }

  lemma {:induction false} FinalCount(groups: seq<seq<Template>>, final: seq<Loaded>, hash: string -> string)
    requires AllBecome(groups, final, hash)
    ensures Balances(groups, final)
    decreases |groups|
  {
    if groups != [] {
      var k := LastBecomes(groups, final, hash);
      FinalCount(groups[..|groups| - 1], final[..k], hash);
      FinalNext(groups, final, k, hash);
    }
  }

  /** The number of requests changes by exactly what the large groups count for after and before. */
  lemma RequestBalance(list: seq<Template>, order: seq<Class>, groups: seq<seq<Template>>, final: seq<Loaded>, hash: string -> string)
    requires Arranged(list, order, groups) && AllBecome(groups, final, hash)
    ensures LoadedCount(final) + Before(groups) == RequestCount(list) + After(groups)
  {
    ClusterPartition(list, order, groups);
    FlatContents(groups);
    CountOfPermutation(Flat(groups), list);
    FinalCount(groups, final, hash);
  }

  /** A template that counts at least the DNS and HTTP requests it holds. */
  predicate CountsItsOwn(t: Template) {
    Counted(t) >= |t.http| + |t.dns|
  }

  lemma {:induction false} FirstCounts(g: seq<Template>)
    requires g != []
    ensures Counted(g[0]) <= RequestCount(g)
  {
    if |g| > 1 { FirstCounts(g[..|g| - 1]); }
  }

  lemma {:induction false} AfterBelowBefore(groups: seq<seq<Template>>)
    requires forall g, t | g in groups && |g| > 1 && t in g :: CountsItsOwn(t)
    ensures After(groups) <= Before(groups)
  {
    if groups != [] {
      var front, g := groups[..|groups| - 1], groups[|groups| - 1];
      AfterBelowBefore(front);
      if |g| > 1 {
        assert g in groups && g[0] in g;
        FirstCounts(g);
      }
    }
  }

  /** Clustering never increases the number of requests, if every template that can be clustered
      counts at least the requests it holds. */
  lemma ClusteringReduces(list: seq<Template>, order: seq<Class>, groups: seq<seq<Template>>, final: seq<Loaded>, hash: string -> string)
    requires Arranged(list, order, groups) && AllBecome(groups, final, hash)
    requires forall t | t in list && ClassOf(t).Some? :: CountsItsOwn(t)
    ensures LoadedCount(final) <= RequestCount(list)
  {
    RequestBalance(list, order, groups, final, hash);
    ClusterPartition(list, order, groups);
    forall g, t | g in groups && |g| > 1 && t in g ensures CountsItsOwn(t) {
      var c :| g == Members(list, c) && g != [];
      MembersAre(list, c);
    }
    AfterBelowBefore(groups);
  }
}
