/** Grouping templates that send the same request, and what that does to the numbers of templates
    and requests. */
module ClusterGroups {

  datatype Option<T> = None | Some(value: T)

  datatype Protocol = DNS | HTTP | SSL

  /** A request: whether it can be clustered, its cluster key, and the operators compiled for it. */
  datatype Request = Request(clusterable: bool, key: nat, operators: Option<nat>)

  datatype Template = Template(
    id: string, flow: string, multiProtocol: bool,
    dns: seq<Request>, http: seq<Request>, ssl: seq<Request>,
    workflows: nat, totalRequests: nat)

  datatype Class = Class(protocol: Protocol, key: nat)

  function ClassOfRequest(p: Protocol, r: Request): Option<Class> {
    if r.clusterable then Some(Class(p, r.key)) else None
  }

  /** The class of a template: its single request decides, DNS before HTTP before SSL. */
  function ClassOf(t: Template): Option<Class> {
    if t.flow != "" || t.multiProtocol then None
    else if |t.dns| == 1 then ClassOfRequest(DNS, t.dns[0])
    else if |t.http| == 1 then ClassOfRequest(HTTP, t.http[0])
    else if |t.ssl| == 1 then ClassOfRequest(SSL, t.ssl[0])
    else None
  }

  /** The templates of a class, in the order of the list. */
  function Members(list: seq<Template>, c: Class): seq<Template> {
    if list == [] then []
    else
      var last := |list| - 1;
      var front := Members(list[..last], c);
      if ClassOf(list[last]) == Some(c) then front + [list[last]] else front
  }

  function Singles(list: seq<Template>): seq<seq<Template>> {
    if list == [] then []
    else
      var last := |list| - 1;
      var front := Singles(list[..last]);
      if ClassOf(list[last]) == None then front + [[list[last]]] else front
  }

  function Groups(list: seq<Template>, order: seq<Class>): seq<seq<Template>> {
    if order == [] then [] else Groups(list, order[..|order| - 1]) + [Members(list, order[|order| - 1])]
  }

  ghost predicate NoRepeats(order: seq<Class>) {
    forall i, j | 0 <= i < j < |order| :: order[i] != order[j]
  }

  /** The groups of a list: those that cannot be clustered alone, then one per class, in some order. */
  ghost predicate Arranged(list: seq<Template>, order: seq<Class>, final: seq<seq<Template>>) {
    && final == Singles(list) + Groups(list, order)
    && NoRepeats(order)
    && forall c :: c in order <==> Members(list, c) != []
  }

  type Table = map<nat, seq<Template>>

  function Entry(m: Table, key: nat): seq<Template> {
    if key in m then m[key] else []
  }

  ghost predicate Tabulates(m: Table, list: seq<Template>, p: Protocol) {
    forall key: nat :: Entry(m, key) == Members(list, Class(p, key)) && (key in m ==> m[key] != [])
  }

  method AddTo(m: Table, key: nat, t: Template) returns (m': Table)
    ensures m' == m[key := Entry(m, key) + [t]]
  {
    m' := m;
    if key !in m' {
      m' := m'[key := []];
    }
    m' := m'[key := m'[key] + [t]];
  }

  lemma TabulatesNext(m: Table, list: seq<Template>, t: Template, p: Protocol)
    requires Tabulates(m, list, p)
    ensures Tabulates(Placed(m, t, p), list + [t], p)
  {
    assert (list + [t])[..|list|] == list;
  }

  lemma GroupsSnoc(list: seq<Template>, order: seq<Class>, c: Class)
    ensures Groups(list, order + [c]) == Groups(list, order) + [Members(list, c)]
  {
    assert (order + [c])[..|order|] == order;
  }

  lemma {:induction false} GroupsConcat(list: seq<Template>, a: seq<Class>, b: seq<Class>)
    ensures Groups(list, a + b) == Groups(list, a) + Groups(list, b)
  {
    if b == [] {
      assert a + b == a;
    } else {
      var last := |b| - 1;
      assert (a + b)[..|a + b| - 1] == a + b[..last];
      GroupsConcat(list, a, b[..last]);
    }
  }

  /** The classes of one protocol with keys of a set, each once. */
  ghost predicate Visited(classes: seq<Class>, p: Protocol, visited: set<nat>) {
    && NoRepeats(classes)
    && forall c :: c in classes <==> c.protocol == p && c.key in visited
  }

  lemma VisitNext(classes: seq<Class>, p: Protocol, visited: set<nat>, key: nat)
    requires Visited(classes, p, visited) && key !in visited
    ensures Visited(classes + [Class(p, key)], p, visited + {key})
  {
    assert Class(p, key) !in classes;
  }

  lemma NextGroup(m: Table, p: Protocol, list: seq<Template>, final: seq<seq<Template>>, final': seq<seq<Template>>, classes: seq<Class>, key: nat)
    requires Tabulates(m, list, p) && key in m
    requires final' == final + Groups(list, classes)
    ensures final' + [m[key]] == final + Groups(list, classes + [Class(p, key)])
  {
    GroupsSnoc(list, classes, Class(p, key));
    assert m[key] == Entry(m, key);
  }

  /** The loop that appends the groups of one protocol, in the order in which the range visits them. */
  method AppendGroups(m: Table, p: Protocol, ghost list: seq<Template>, final: seq<seq<Template>>)
    returns (final': seq<seq<Template>>, ghost classes: seq<Class>)
    requires Tabulates(m, list, p)
    ensures final' == final + Groups(list, classes) && Visited(classes, p, m.Keys)
  {
    final', classes := final, [];
    var todo := m.Keys;
    ghost var visited: set<nat> := {};
    while todo != {}
      invariant todo !! visited && todo + visited == m.Keys
      invariant final' == final + Groups(list, classes) && Visited(classes, p, visited)
    {
      var key :| key in todo;
      NextGroup(m, p, list, final, final', classes, key);
      VisitNext(classes, p, visited, key);
      final' := final' + [m[key]];
      classes := classes + [Class(p, key)];
      todo, visited := todo - {key}, visited + {key};
    }
  }

  function Placed(m: Table, t: Template, p: Protocol): Table {
    match ClassOf(t)
    case None => m
    case Some(c) => if c.protocol == p then m[c.key := Entry(m, c.key) + [t]] else m
  }

  /** Where one template goes. */
  method Place(t: Template, http: Table, dns: Table, ssl: Table, final: seq<seq<Template>>)
    returns (http': Table, dns': Table, ssl': Table, final': seq<seq<Template>>)
    ensures http' == Placed(http, t, HTTP) && dns' == Placed(dns, t, DNS) && ssl' == Placed(ssl, t, SSL)
    ensures final' == if ClassOf(t) == None then final + [[t]] else final
  {
    http', dns', ssl', final' := http, dns, ssl, final;
    if t.flow != "" || t.multiProtocol {
      final' := final + [[t]];
      return;
    }
    if |t.dns| == 1 {
      if t.dns[0].clusterable { dns' := AddTo(dns, t.dns[0].key, t); } else { final' := final + [[t]]; }
    } else if |t.http| == 1 {
      if t.http[0].clusterable { http' := AddTo(http, t.http[0].key, t); } else { final' := final + [[t]]; }
    } else if |t.ssl| == 1 {
      if t.ssl[0].clusterable { ssl' := AddTo(ssl, t.ssl[0].key, t); } else { final' := final + [[t]]; }
    } else {
      final' := final + [[t]];
    }
  }

  /** The loop that splits up the templates. */
  method SplitUp(list: seq<Template>) returns (http: Table, dns: Table, ssl: Table, final: seq<seq<Template>>)
    ensures final == Singles(list)
    ensures Tabulates(http, list, HTTP) && Tabulates(dns, list, DNS) && Tabulates(ssl, list, SSL)
  {
    http, dns, ssl, final := map[], map[], map[], [];
    for i := 0 to |list|
      invariant final == Singles(list[..i])
      invariant Tabulates(http, list[..i], HTTP) && Tabulates(dns, list[..i], DNS) && Tabulates(ssl, list[..i], SSL)
    {
      assert list[..i + 1] == list[..i] + [list[i]] && list[..i + 1][..i] == list[..i];
      TabulatesNext(http, list[..i], list[i], HTTP);
      TabulatesNext(dns, list[..i], list[i], DNS);
      TabulatesNext(ssl, list[..i], list[i], SSL);
      http, dns, ssl, final := Place(list[i], http, dns, ssl, final);
    }
    assert list[..|list|] == list;
  }

  method Cluster(list: seq<Template>) returns (final: seq<seq<Template>>, ghost order: seq<Class>)
    ensures Arranged(list, order, final)
    ensures exists classes :: Arranged(list, classes, final)
  {
    var http, dns, ssl;
    http, dns, ssl, final := SplitUp(list);
    ghost var a, b, c;
    final, a := AppendGroups(http, HTTP, list, final);
    final, b := AppendGroups(dns, DNS, list, final);
    final, c := AppendGroups(ssl, SSL, list, final);
    order := a + b + c;
    GroupsInTurn(list, Singles(list), a, b, c);
    AllClasses(list, http, dns, ssl, a, b, c);
  }

  lemma GroupsInTurn(list: seq<Template>, first: seq<seq<Template>>, a: seq<Class>, b: seq<Class>, c: seq<Class>)
    ensures first + Groups(list, a) + Groups(list, b) + Groups(list, c) == first + Groups(list, a + b + c)
  {
    var ga, gb, gc := Groups(list, a), Groups(list, b), Groups(list, c);
    GroupsConcat(list, a, b);
    GroupsConcat(list, a + b, c);
    assert first + ga + gb + gc == first + (ga + gb + gc);
  }

  lemma AllClasses(list: seq<Template>, http: Table, dns: Table, ssl: Table, a: seq<Class>, b: seq<Class>, c: seq<Class>)
    requires Tabulates(http, list, HTTP) && Tabulates(dns, list, DNS) && Tabulates(ssl, list, SSL)
    requires Visited(a, HTTP, http.Keys) && Visited(b, DNS, dns.Keys) && Visited(c, SSL, ssl.Keys)
    ensures NoRepeats(a + b + c)
    ensures forall x :: x in a + b + c <==> Members(list, x) != []
  {
    forall i, j | 0 <= i < j < |a + b + c| ensures (a + b + c)[i] != (a + b + c)[j] {
      assert forall x | x in a :: x.protocol == HTTP;
      assert forall x | x in b :: x.protocol == DNS;
      assert forall x | x in c :: x.protocol == SSL;
    }
    forall x ensures x in a + b + c <==> Members(list, x) != [] {
      assert x in a + b + c <==> x in a || x in b || x in c;
      match x.protocol {
        case DNS => assert Entry(dns, x.key) == Members(list, x);
        case HTTP => assert Entry(http, x.key) == Members(list, x);
        case SSL => assert Entry(ssl, x.key) == Members(list, x);
      }
    }
  }

  // ---- What the groups are ----

  lemma {:induction false} MembersAre(list: seq<Template>, c: Class)
    ensures forall t :: t in Members(list, c) <==> t in list && ClassOf(t) == Some(c)
  {
    if list != [] {
      var last := |list| - 1;
      MembersAre(list[..last], c);
      assert list == list[..last] + [list[last]];
    }
  }

  lemma {:induction false} SinglesAre(list: seq<Template>)
    ensures forall g | g in Singles(list) :: |g| == 1 && g[0] in list && ClassOf(g[0]) == None
  {
    if list != [] { SinglesAre(list[..|list| - 1]); }
  }

  lemma {:induction false} GroupsAre(list: seq<Template>, order: seq<Class>, g: seq<Template>)
    requires g in Groups(list, order)
    ensures exists c :: c in order && g == Members(list, c)
  {
    var front, c := order[..|order| - 1], order[|order| - 1];
    if g == Members(list, c) {
      assert c in order;
    } else {
      GroupsAre(list, front, g);
    }
  }

  /** The templates in a list of groups, with repetitions. */
  ghost function Contents(groups: seq<seq<Template>>): multiset<Template> {
    if groups == [] then multiset{} else Contents(groups[..|groups| - 1]) + multiset(groups[|groups| - 1])
  }

  lemma {:induction false} ContentsConcat(a: seq<seq<Template>>, b: seq<seq<Template>>)
    ensures Contents(a + b) == Contents(a) + Contents(b)
  {
    if b == [] {
      assert a + b == a;
    } else {
      var last := |b| - 1;
      assert (a + b)[..|a + b| - 1] == a + b[..last];
      ContentsConcat(a, b[..last]);
    }
  }

  lemma MembersGrow(list: seq<Template>, t: Template, c: Class)
    ensures multiset(Members(list + [t], c)) == multiset(Members(list, c)) + if ClassOf(t) == Some(c) then multiset{t} else multiset{}
  {
    assert (list + [t])[..|list|] == list;
  }

  ghost function Once(t: Template, order: seq<Class>): multiset<Template> {
    if ClassOf(t).Some? && ClassOf(t).value in order then multiset{t} else multiset{}
  }

  lemma ContentsSnoc(groups: seq<seq<Template>>, g: seq<Template>)
    ensures Contents(groups + [g]) == Contents(groups) + multiset(g)
  {
    assert (groups + [g])[..|groups|] == groups;
  }

  lemma ContentsNext(list: seq<Template>, front: seq<Class>, c: Class)
    ensures Contents(Groups(list, front + [c])) == Contents(Groups(list, front)) + multiset(Members(list, c))
  {
    GroupsSnoc(list, front, c);
    ContentsSnoc(Groups(list, front), Members(list, c));
  }

  /** One more template in the list is one more in the groups, when its class is listed once. */
  lemma {:induction false} GroupsGrow(list: seq<Template>, t: Template, order: seq<Class>)
    requires NoRepeats(order)
    ensures Contents(Groups(list + [t], order)) == Contents(Groups(list, order)) + Once(t, order)
  {
    if order != [] {
      var front, c := order[..|order| - 1], order[|order| - 1];
      GroupsGrow(list, t, front);
      assert order == front + [c];
      GrowsNext(list, t, front, c);
    }
  }

  lemma GrowsNext(list: seq<Template>, t: Template, front: seq<Class>, c: Class)
    requires NoRepeats(front + [c])
    requires Contents(Groups(list + [t], front)) == Contents(Groups(list, front)) + Once(t, front)
    ensures Contents(Groups(list + [t], front + [c])) == Contents(Groups(list, front + [c])) + Once(t, front + [c])
  {
    ContentsNext(list + [t], front, c);
    ContentsNext(list, front, c);
    MembersGrow(list, t, c);
    OnceNext(t, front, c);
  }

  lemma OnceNext(t: Template, front: seq<Class>, c: Class)
    requires NoRepeats(front + [c])
    ensures Once(t, front + [c]) == Once(t, front) + if ClassOf(t) == Some(c) then multiset{t} else multiset{}
  {
    assert forall i | 0 <= i < |front| :: (front + [c])[i] == front[i];
    assert (front + [c])[|front|] == c;
    assert c !in front;
  }

  lemma {:induction false} GroupsOfNothing(order: seq<Class>)
    ensures Contents(Groups([], order)) == multiset{}
  {
    if order != [] { GroupsOfNothing(order[..|order| - 1]); }
  }

  lemma SinglesGrow(list: seq<Template>, t: Template)
    ensures Contents(Singles(list + [t])) == Contents(Singles(list)) + if ClassOf(t) == None then multiset{t} else multiset{}
  {
    assert (list + [t])[..|list|] == list;
    var one := [t];
    assert multiset(one) == multiset{t};
    assert (Singles(list) + [one])[..|Singles(list)|] == Singles(list);
  }

  lemma {:induction false} EachOnce(list: seq<Template>, order: seq<Class>)
    requires NoRepeats(order) && forall t | t in list && ClassOf(t).Some? :: ClassOf(t).value in order
    ensures Contents(Singles(list)) + Contents(Groups(list, order)) == multiset(list)
  {
    if list == [] {
      GroupsOfNothing(order);
    } else {
      var front, t := list[..|list| - 1], list[|list| - 1];
      assert list == front + [t];
      EachOnce(front, order);
      SinglesGrow(front, t);
      GroupsGrow(front, t, order);
      assert t in list;
    }
  }

  lemma ClassesListed(list: seq<Template>, order: seq<Class>, final: seq<seq<Template>>)
    requires Arranged(list, order, final)
    ensures forall t | t in list && ClassOf(t).Some? :: ClassOf(t).value in order
  {
    forall t | t in list && ClassOf(t).Some? ensures ClassOf(t).value in order {
      MembersAre(list, ClassOf(t).value);
    }
  }

  /** A group is one template that cannot be clustered, or all the templates of one class. */
  ghost predicate IsGroup(list: seq<Template>, g: seq<Template>) {
    || (|g| == 1 && g[0] in list && ClassOf(g[0]) == None)
    || exists c :: g == Members(list, c) && g != []
  }

  lemma GroupsOf(list: seq<Template>, order: seq<Class>, final: seq<seq<Template>>, g: seq<Template>)
    requires Arranged(list, order, final) && g in final
    ensures IsGroup(list, g)
  {
    if g in Singles(list) {
      SinglesAre(list);
    } else {
      GroupsAre(list, order, g);
    }
  }

  /** The groups hold every template of the list exactly as often as the list does. A group of
      more than one template has a single class, and two templates of one class always share
      their groups. */
  lemma ClusterPartition(list: seq<Template>, order: seq<Class>, final: seq<seq<Template>>)
    requires Arranged(list, order, final)
    ensures Contents(final) == multiset(list)
    ensures forall g | g in final :: IsGroup(list, g)
    ensures forall g, t, u | g in final && t in g && u in list && ClassOf(t).Some? && ClassOf(u) == ClassOf(t) :: u in g
  {
    ClassesListed(list, order, final);
    EachOnce(list, order);
    ContentsConcat(Singles(list), Groups(list, order));
    forall g | g in final ensures IsGroup(list, g) { GroupsOf(list, order, final, g); }
    forall g, t, u | g in final && t in g && u in list && ClassOf(t).Some? && ClassOf(u) == ClassOf(t) ensures u in g {
      Together(list, g, t, u);
    }
  }

  lemma Together(list: seq<Template>, g: seq<Template>, t: Template, u: Template)
    requires IsGroup(list, g) && t in g && u in list && ClassOf(t).Some? && ClassOf(u) == ClassOf(t)
    ensures u in g
  {
    var c :| g == Members(list, c);
    MembersAre(list, c);
  }
}
