/** Single mode of a fuzzing rule, from the base alone: the keys that are visited, the request each
    leads to, what is left of its value, and where the callback ends the visits. */
module FuzzSingle {
  import opened FuzzComponent
  import opened FuzzRule
  import opened FuzzExecute

  // ---- A list of requests against the rebuild and the callback ----

  /** The requests that are offered: as long as they can be rebuilt, up to the first that is refused. */
  function Offered(rule: Rule, log: seq<Request>, requests: seq<Request>): seq<Request>
    decreases |requests|
  {
    if requests == [] || !rule.rebuilds(requests[0].contents) then []
    else if !rule.accepts(log, requests[0]) then [requests[0]]
    else [requests[0]] + Offered(rule, log + [requests[0]], requests[1..])
  }

  function Ending(rule: Rule, log: seq<Request>, requests: seq<Request>): Error
    decreases |requests|
  {
    if requests == [] then Fine
    else if !rule.rebuilds(requests[0].contents) then RebuildError
    else if !rule.accepts(log, requests[0]) then NoMoreRequests
    else Ending(rule, log + [requests[0]], requests[1..])
  }

  predicate Passes(rule: Rule, log: seq<Request>, q: Request) { rule.rebuilds(q.contents) && rule.accepts(log, q) }

  lemma OfferedNext(rule: Rule, log: seq<Request>, q: Request, later: seq<Request>)
    ensures Passes(rule, log, q) ==>
              && log + Offered(rule, log, [q] + later) == log + [q] + Offered(rule, log + [q], later)
              && Ending(rule, log, [q] + later) == Ending(rule, log + [q], later)
    ensures !Passes(rule, log, q) ==>
              && Offered(rule, log, [q] + later) == (if rule.rebuilds(q.contents) then [q] else [])
              && Ending(rule, log, [q] + later) == if rule.rebuilds(q.contents) then NoMoreRequests else RebuildError
  {
    assert ([q] + later)[1..] == later;
  }

  // ---- Values that come back ----

  /** Whatever is stored over a value, storing its text brings it back. */
  ghost predicate Restorable(rule: Rule, v: Value) {
    forall s: string :: Store(v, s).Some? ==> Store(Store(v, s).value, rule.escape(Show(v))) == Some(v)
  }

  /** The values that come back: texts that their component does not escape, flags and integers that
      are still read as themselves, lists that are empty or end in their own text, and what cannot
      be set; never a fraction or nothing at all. */
  predicate ComesBack(rule: Rule, v: Value) {
    var text := rule.escape(Show(v));
    match v
    case Text(t) => text == t
    case Flag(b) => ParseBool(text) == Some(b)
    case Number(n) => ParseInt(text) == Some(n)
    case List(items) => items == [] || text == items[|items| - 1]
    case Other(_) => true
    case _ => false
  }

  /** What storing the text of a value leaves over what was stored in its place. */
  function Left(rule: Rule, before: Value, stored: Value): Option<Value> { Store(stored, rule.escape(Show(before))) }

  /** A list comes back exactly when it ends in its own text, and keeps what is stored over it exactly
      when it ends in that. */
  lemma ListVisit(rule: Rule, items: seq<string>, s: string)
    requires items != []
    ensures Left(rule, List(items), Store(List(items), s).value) == Some(List(items))
            <==> rule.escape(Show(List(items))) == items[|items| - 1]
    ensures Store(List(items), s) == Some(List(items)) <==> s == items[|items| - 1]
  {
    var last, text := |items| - 1, rule.escape(Show(List(items)));
    assert items[last := s][last := text] == items[last := text];
    assert items[last := text][last] == text && items[last := s][last] == s;
    if text == items[last] { assert items[last := text] == items; }
    if s == items[last] { assert items[last := s] == items; }
  }

  /** Whether a value comes back does not depend on what was stored over it. */
  lemma LeftExactly(rule: Rule, v: Value, s: string)
    requires Store(v, s).Some?
    ensures Left(rule, v, Store(v, s).value) == Some(v) <==> ComesBack(rule, v)
  {
    if v.List? && v.items != [] { ListVisit(rule, v.items, s); }
  }

  lemma RestorableExactly(rule: Rule, v: Value)
    ensures Restorable(rule, v) <==> ComesBack(rule, v)
  {
    var s := if v.Flag? then "true" else "0";
    assert Store(v, s).Some? by {
      if v.Number? || v.Fraction? { ParseFormatted(0); }
    }
    forall t: string | Store(v, t).Some? ensures Left(rule, v, Store(v, t).value) == Some(v) <==> ComesBack(rule, v) {
      LeftExactly(rule, v, t);
    }
    assert Left(rule, v, Store(v, s).value) == Some(v) <==> ComesBack(rule, v);
  }

  // ---- The request of a key ----

  /** The request that a key leads to, computed from the base alone, and the URLs after it. */
  function Probe(rule: Rule, values: nat, payload: string, base: Contents, urls: Urls, key: string): (Option<Request>, Urls) {
    if key !in base || !rule.matches(key, Show(base[key])) then (None, urls)
    else
      var e := Evaluate(rule, values, Show(base[key]), payload, urls);
      match Stored(rule, base, key, e.0)
      case None => (None, e.1)
      case Some(v) => (Some(Request(base[key := v], e.1, Parameter(key, Show(base[key])))), e.1)
  }

  function Probes(rule: Rule, values: nat, payload: string, base: Contents, urls: Urls, keys: seq<string>): seq<Request>
    decreases |keys|
  {
    if keys == [] then []
    else
      var p := Probe(rule, values, payload, base, urls, keys[0]);
      (if p.0.Some? then [p.0.value] else []) + Probes(rule, values, payload, base, p.1, keys[1..])
  }

  /** What a payload does to a key: its value in the base, and what is stored over it. */
  datatype Change = Change(key: string, before: Value, after: Value)

  /** The keys that match and can be set, in the order of the visits, computed from the base alone. */
  function Changes(rule: Rule, values: nat, payload: string, base: Contents, urls: Urls, keys: seq<string>): seq<Change>
    decreases |keys|
  {
    if keys == [] then []
    else
      var p := Probe(rule, values, payload, base, urls, keys[0]);
      var later := Changes(rule, values, payload, base, p.1, keys[1..]);
      if p.0.Some? then [Change(keys[0], base[keys[0]], p.0.value.contents[keys[0]])] + later else later
  }

  ghost predicate ChangeOf(rule: Rule, base: Contents, keys: seq<string>, c: Change) {
    && c.key in keys && c.key in base && c.before == base[c.key] && rule.matches(c.key, Show(c.before))
    && exists s: string :: Store(c.before, s) == Some(c.after)
  }

  lemma {:induction false} ChangesAre(rule: Rule, values: nat, payload: string, base: Contents, urls: Urls, keys: seq<string>, i: nat)
    requires i < |Changes(rule, values, payload, base, urls, keys)|
    ensures ChangeOf(rule, base, keys, Changes(rule, values, payload, base, urls, keys)[i])
    decreases |keys|
  {
    var p := Probe(rule, values, payload, base, urls, keys[0]);
    if p.0.Some? && i == 0 {
      var e := Evaluate(rule, values, Show(base[keys[0]]), payload, urls);
      assert Store(base[keys[0]], rule.escape(e.0)) == Some(p.0.value.contents[keys[0]]);
    } else {
      ChangesAre(rule, values, payload, base, p.1, keys[1..], if p.0.Some? then i - 1 else i);
    }
  }

  ghost predicate ChangesOf(rule: Rule, base: Contents, keys: seq<string>, cs: seq<Change>) {
    forall i | 0 <= i < |cs| :: ChangeOf(rule, base, keys, cs[i])
  }

  lemma ChangesAreOf(rule: Rule, values: nat, payload: string, base: Contents, urls: Urls, keys: seq<string>)
    ensures ChangesOf(rule, base, keys, Changes(rule, values, payload, base, urls, keys))
  {
    var cs := Changes(rule, values, payload, base, urls, keys);
    forall i | 0 <= i < |cs| ensures ChangeOf(rule, base, keys, cs[i]) { ChangesAre(rule, values, payload, base, urls, keys, i); }
  }

  // ---- The visits ----

  /** A visit: its key, its request, what is left of the component after it, and whether storing the
      old text was possible. */
  datatype Visited = Visited(key: string, request: Request, after: Contents, restored: bool)

  function VisitOf(rule: Rule, m: Contents, key: string, q: Request): Visited
    requires key in m && key in q.contents
  {
    match Left(rule, m[key], q.contents[key])
    case None => Visited(key, q, q.contents, false)
    case Some(w) => Visited(key, q, m[key := w], true)
  }

  /** The visits of some keys one after the other, when every request is accepted. */
  function Trace(rule: Rule, values: nat, payload: string, m: Contents, urls: Urls, keys: seq<string>): seq<Visited>
    decreases |keys|
  {
    if keys == [] then []
    else
      var p := Probe(rule, values, payload, m, urls, keys[0]);
      if p.0 == None then Trace(rule, values, payload, m, p.1, keys[1..])
      else
        var v := VisitOf(rule, m, keys[0], p.0.value);
        if v.restored then [v] + Trace(rule, values, payload, v.after, p.1, keys[1..]) else [v]
  }

  function Requests(vs: seq<Visited>): seq<Request> {
    if vs == [] then [] else [vs[0].request] + Requests(vs[1..])
  }

  /** Where the visits end, the component then, and the error: a request that cannot be rebuilt or is
      refused leaves its value in place, and so does an old text that cannot be stored. */
  function Final(rule: Rule, log: seq<Request>, m: Contents, vs: seq<Visited>): Contents
    decreases |vs|
  {
    if vs == [] then m
    else if !Passes(rule, log, vs[0].request) then vs[0].request.contents
    else if !vs[0].restored then vs[0].after
    else Final(rule, log + [vs[0].request], vs[0].after, vs[1..])
  }

  function FinalError(rule: Rule, log: seq<Request>, vs: seq<Visited>): Error
    decreases |vs|
  {
    if vs == [] then Fine
    else if !rule.rebuilds(vs[0].request.contents) then RebuildError
    else if !rule.accepts(log, vs[0].request) then NoMoreRequests
    else if !vs[0].restored then SetValueError
    else FinalError(rule, log + [vs[0].request], vs[1..])
  }

  lemma VisitSingle(rule: Rule, values: nat, payload: string, run: Run, key: string)
    requires rule.single && run.error == Fine
    ensures var p, r := Probe(rule, values, payload, run.contents, run.urls, key), Visit(rule, values, payload, run, key);
            if p.0 == None then r == run.(urls := p.1)
            else
              var v := VisitOf(rule, run.contents, key, p.0.value);
              if !rule.rebuilds(v.request.contents) then r == Run(v.request.contents, p.1, run.log, RebuildError)
              else r == Run(if rule.accepts(run.log, v.request) then v.after else v.request.contents, p.1, run.log + [v.request],
                            if !rule.accepts(run.log, v.request) then NoMoreRequests
                            else if v.restored then Fine else SetValueError)
  {
    var p := Probe(rule, values, payload, run.contents, run.urls, key);
    if p.0.Some? {
      var q, base := p.0.value, run.contents;
      var v := VisitOf(rule, base, key, q);
      assert StoreAt(q.contents, key, rule.escape(Show(base[key]))) == Left(rule, base[key], q.contents[key]);
      if v.restored {
        var w := Left(rule, base[key], q.contents[key]).value;
        assert base[key := q.contents[key]][key := w] == base[key := w];
      }
    }
  }

  lemma TraceNext(rule: Rule, values: nat, payload: string, m: Contents, urls: Urls, keys: seq<string>)
    requires keys != []
    ensures var p, vs := Probe(rule, values, payload, m, urls, keys[0]), Trace(rule, values, payload, m, urls, keys);
            if p.0 == None then vs == Trace(rule, values, payload, m, p.1, keys[1..])
            else
              var v := VisitOf(rule, m, keys[0], p.0.value);
              vs != [] && vs[0] == v && vs[1..] == if v.restored then Trace(rule, values, payload, v.after, p.1, keys[1..]) else []
  {
  }

  ghost predicate FollowsTrace(rule: Rule, r: Run, log: seq<Request>, m: Contents, vs: seq<Visited>) {
    r.log == log + Offered(rule, log, Requests(vs)) && r.contents == Final(rule, log, m, vs) && r.error == FinalError(rule, log, vs)
  }

  lemma FollowsNext(rule: Rule, r: Run, log: seq<Request>, m: Contents, vs: seq<Visited>)
    requires vs != [] && Passes(rule, log, vs[0].request) && vs[0].restored
    requires FollowsTrace(rule, r, log + [vs[0].request], vs[0].after, vs[1..])
    ensures FollowsTrace(rule, r, log, m, vs)
  {
    OfferedNext(rule, log, vs[0].request, Requests(vs[1..]));
  }

  lemma FollowsToEnd(rule: Rule, r: Run, log: seq<Request>, m: Contents, vs: seq<Visited>)
    requires vs != [] && (!Passes(rule, log, vs[0].request) || (!vs[0].restored && vs[1..] == []))
    requires r.log == log + if rule.rebuilds(vs[0].request.contents) then [vs[0].request] else []
    requires r.contents == Final(rule, log, m, vs) && r.error == FinalError(rule, log, vs)
    ensures FollowsTrace(rule, r, log, m, vs)
  {
    OfferedNext(rule, log, vs[0].request, Requests(vs[1..]));
  }

  /** The loop of single mode in closed form, for every component, rebuild and callback: the requests
      of the trace as long as they can be rebuilt, up to the first refusal; what is left of the
      component; and the error. */
  lemma {:induction false} SingleExactly(rule: Rule, values: nat, payload: string, run: Run, keys: seq<string>)
    requires rule.single && run.error == Fine
    ensures FollowsTrace(rule, VisitAll(rule, values, payload, run, keys), run.log, run.contents,
                         Trace(rule, values, payload, run.contents, run.urls, keys))
    decreases |keys|
  {
    if keys != [] {
      var one, rest := Visit(rule, values, payload, run, keys[0]), keys[1..];
      var vs := Trace(rule, values, payload, run.contents, run.urls, keys);
      VisitSingle(rule, values, payload, run, keys[0]);
      TraceNext(rule, values, payload, run.contents, run.urls, keys);
      if one.error == Fine {
        SingleExactly(rule, values, payload, one, rest);
        if Probe(rule, values, payload, run.contents, run.urls, keys[0]).0.Some? {
          FollowsNext(rule, VisitAll(rule, values, payload, one, rest), run.log, run.contents, vs);
        }
      } else {
        FollowsToEnd(rule, one, run.log, run.contents, vs);
      }
    }
  }

  // ---- From the base ----

  /** Every visit leaves the component as it found it. */
  predicate Returns(m: Contents, vs: seq<Visited>) {
    forall i | 0 <= i < |vs| :: vs[i].restored && vs[i].after == m
  }

  lemma {:induction false} ReturningRequests(rule: Rule, values: nat, payload: string, m: Contents, urls: Urls, keys: seq<string>)
    requires Returns(m, Trace(rule, values, payload, m, urls, keys))
    ensures Requests(Trace(rule, values, payload, m, urls, keys)) == Probes(rule, values, payload, m, urls, keys)
    decreases |keys|
  {
    if keys != [] {
      var p, vs := Probe(rule, values, payload, m, urls, keys[0]), Trace(rule, values, payload, m, urls, keys);
      TraceNext(rule, values, payload, m, urls, keys);
      if p.0.Some? {
        assert vs[0].restored && vs[0].after == m;
        assert forall i | 0 <= i < |vs[1..]| :: vs[1..][i] == vs[i + 1];
      } else {
        assert [] + Probes(rule, values, payload, m, p.1, keys[1..]) == Probes(rule, values, payload, m, p.1, keys[1..]);
      }
      ReturningRequests(rule, values, payload, m, p.1, keys[1..]);
    }
  }

  lemma {:induction false} ReturningFinal(rule: Rule, log: seq<Request>, m: Contents, vs: seq<Visited>)
    requires Returns(m, vs)
    ensures FinalError(rule, log, vs) == Ending(rule, log, Requests(vs))
    ensures FinalError(rule, log, vs) == Fine ==> Final(rule, log, m, vs) == m
    decreases |vs|
  {
    if vs != [] {
      assert vs[0].restored && vs[0].after == m;
      assert forall i | 0 <= i < |vs[1..]| :: vs[1..][i] == vs[i + 1];
      OfferedNext(rule, log, vs[0].request, Requests(vs[1..]));
      ReturningFinal(rule, log + [vs[0].request], m, vs[1..]);
    }
  }

  ghost predicate AllComeBack(rule: Rule, cs: seq<Change>) { forall i | 0 <= i < |cs| :: ComesBack(rule, cs[i].before) }

  lemma VisitReturns(rule: Rule, values: nat, payload: string, m: Contents, urls: Urls, key: string)
    requires Probe(rule, values, payload, m, urls, key).0.Some?
    ensures var v := VisitOf(rule, m, key, Probe(rule, values, payload, m, urls, key).0.value);
            v.restored && v.after == m <==> ComesBack(rule, m[key])
  {
    var q := Probe(rule, values, payload, m, urls, key).0.value;
    LeftExactly(rule, m[key], rule.escape(Evaluate(rule, values, Show(m[key]), payload, urls).0));
    var w := Left(rule, m[key], q.contents[key]);
    if w.Some? { assert m[key := w.value] == m <==> w.value == m[key]; }
  }

  lemma ReturnsFirst(m: Contents, v: Visited, later: seq<Visited>)
    ensures Returns(m, [v] + later) <==> v.restored && v.after == m && Returns(m, later)
  {
    var vs := [v] + later;
    assert vs[0] == v && forall i | 0 <= i < |later| :: later[i] == vs[i + 1];
  }

  lemma FirstComesBack(rule: Rule, c: Change, later: seq<Change>)
    ensures AllComeBack(rule, [c] + later) <==> ComesBack(rule, c.before) && AllComeBack(rule, later)
  {
    var cs := [c] + later;
    assert cs[0] == c && forall i | 0 <= i < |later| :: later[i] == cs[i + 1];
  }

  /** Every visit returns exactly when every value that matches and can be set comes back. */
  lemma {:induction false} ReturnsExactly(rule: Rule, values: nat, payload: string, m: Contents, urls: Urls, keys: seq<string>)
    ensures Returns(m, Trace(rule, values, payload, m, urls, keys)) <==> AllComeBack(rule, Changes(rule, values, payload, m, urls, keys))
    decreases |keys|
  {
    if keys != [] {
      var p, vs := Probe(rule, values, payload, m, urls, keys[0]), Trace(rule, values, payload, m, urls, keys);
      TraceNext(rule, values, payload, m, urls, keys);
      ReturnsExactly(rule, values, payload, m, p.1, keys[1..]);
      if p.0.Some? {
        var c := Change(keys[0], m[keys[0]], p.0.value.contents[keys[0]]);
        VisitReturns(rule, values, payload, m, urls, keys[0]);
        ReturnsFirst(m, vs[0], vs[1..]);
        FirstComesBack(rule, c, Changes(rule, values, payload, m, p.1, keys[1..]));
        assert vs == [vs[0]] + vs[1..];
      }
    }
  }

  /** When every value that matches and can be set comes back, request number i is the base with the
      i-th such key rewritten and nothing else, up to the first refusal; and without one the component
      is the base again. */
  lemma SingleFromBase(rule: Rule, values: nat, payload: string, run: Run, keys: seq<string>)
    requires rule.single && run.error == Fine
    requires AllComeBack(rule, Changes(rule, values, payload, run.contents, run.urls, keys))
    ensures var q, r := Probes(rule, values, payload, run.contents, run.urls, keys), VisitAll(rule, values, payload, run, keys);
            && r.log == run.log + Offered(rule, run.log, q) && r.error == Ending(rule, run.log, q)
            && (r.error == Fine ==> r.contents == run.contents)
  {
    SingleExactly(rule, values, payload, run, keys);
    ReturnsExactly(rule, values, payload, run.contents, run.urls, keys);
    ReturningRequests(rule, values, payload, run.contents, run.urls, keys);
    ReturningFinal(rule, run.log, run.contents, Trace(rule, values, payload, run.contents, run.urls, keys));
  }

  // ---- The component in the end ----

  predicate Keyed(vs: seq<Visited>, k: string) { exists i | 0 <= i < |vs| :: vs[i].key == k }

  /** Visits of different keys: each changes its own key only, and goes on from what the last left. */
  predicate Chained(m: Contents, vs: seq<Visited>)
    decreases |vs|
  {
    vs == [] ||
    var v := vs[0];
    && v.key in m && v.key in v.request.contents && v.request.contents == m[v.key := v.request.contents[v.key]]
    && v.key in v.after && v.after == m[v.key := v.after[v.key]]
    && (!v.restored ==> vs[1..] == [] && v.after == v.request.contents)
    && !Keyed(vs[1..], v.key) && Chained(v.after, vs[1..])
  }

  lemma {:induction false} TraceKeys(rule: Rule, values: nat, payload: string, m: Contents, urls: Urls, keys: seq<string>, k: string)
    requires Keyed(Trace(rule, values, payload, m, urls, keys), k)
    ensures k in keys
    decreases |keys|
  {
    if keys != [] && k != keys[0] {
      var p, vs := Probe(rule, values, payload, m, urls, keys[0]), Trace(rule, values, payload, m, urls, keys);
      TraceNext(rule, values, payload, m, urls, keys);
      var i :| 0 <= i < |vs| && vs[i].key == k;
      if p.0 == None {
        TraceKeys(rule, values, payload, m, p.1, keys[1..], k);
      } else {
        assert vs[1..][i - 1].key == k;
        TraceKeys(rule, values, payload, vs[0].after, p.1, keys[1..], k);
      }
    }
  }

  lemma {:induction false} TraceChained(rule: Rule, values: nat, payload: string, m: Contents, urls: Urls, keys: seq<string>)
    requires NoRepeats(keys)
    ensures Chained(m, Trace(rule, values, payload, m, urls, keys))
    decreases |keys|
  {
    if keys != [] {
      var p, vs := Probe(rule, values, payload, m, urls, keys[0]), Trace(rule, values, payload, m, urls, keys);
      TraceNext(rule, values, payload, m, urls, keys);
      assert NoRepeats(keys[1..]) && keys[0] !in keys[1..];
      if p.0 == None {
        TraceChained(rule, values, payload, m, p.1, keys[1..]);
      } else {
        TraceChained(rule, values, payload, vs[0].after, p.1, keys[1..]);
        if Keyed(vs[1..], keys[0]) { TraceKeys(rule, values, payload, vs[0].after, p.1, keys[1..], keys[0]); }
      }
    }
  }

  /** The visits that are begun: all up to the one that ends them. */
  function Begun(rule: Rule, log: seq<Request>, vs: seq<Visited>): (n: nat)
    ensures n <= |vs| && (n == 0 <==> vs == [])
    decreases |vs|
  {
    if vs == [] then 0
    else if !Passes(rule, log, vs[0].request) || !vs[0].restored then 1
    else 1 + Begun(rule, log + [vs[0].request], vs[1..])
  }

  /** The component after a visit that is begun: the last one keeps the payload where its request was
      not rebuilt or was refused. */
  function AfterVisit(rule: Rule, log: seq<Request>, vs: seq<Visited>, i: nat): Contents
    requires i < |vs|
  {
    if i + 1 == Begun(rule, log, vs) && FinalError(rule, log, vs) in {RebuildError, NoMoreRequests} then vs[i].request.contents
    else vs[i].after
  }

  lemma {:induction false} FinalElsewhere(rule: Rule, log: seq<Request>, m: Contents, vs: seq<Visited>, k: string)
    requires Chained(m, vs) && !Keyed(vs, k)
    ensures var f := Final(rule, log, m, vs); (k in f <==> k in m) && (k in m ==> f[k] == m[k])
    decreases |vs|
  {
    if vs != [] {
      assert vs[0].key != k;
      assert forall i | 0 <= i < |vs[1..]| :: vs[1..][i] == vs[i + 1];
      FinalElsewhere(rule, log + [vs[0].request], vs[0].after, vs[1..], k);
    }
  }

  /** In the end a key that was visited has what its visit left of it. */
  lemma {:induction false} FinalAt(rule: Rule, log: seq<Request>, m: Contents, vs: seq<Visited>, i: nat)
    requires Chained(m, vs) && i < Begun(rule, log, vs)
    ensures vs[i].key in Final(rule, log, m, vs) && vs[i].key in AfterVisit(rule, log, vs, i) && vs[i].key in m
    ensures Final(rule, log, m, vs)[vs[i].key] == AfterVisit(rule, log, vs, i)[vs[i].key]
    decreases |vs|
  {
    var next := log + [vs[0].request];
    if Passes(rule, log, vs[0].request) && vs[0].restored {
      if i == 0 {
        assert Begun(rule, next, vs[1..]) == 0 ==> vs[1..] == [] && FinalError(rule, next, vs[1..]) == Fine;
        assert AfterVisit(rule, log, vs, 0) == vs[0].after;
        FinalElsewhere(rule, next, vs[0].after, vs[1..], vs[0].key);
      } else {
        FinalAt(rule, next, vs[0].after, vs[1..], i - 1);
        assert vs[i] == vs[1..][i - 1];
        assert vs[i].key != vs[0].key;
      }
    }
  }

  lemma {:induction false} FinalUnvisited(rule: Rule, log: seq<Request>, m: Contents, vs: seq<Visited>, k: string)
    requires Chained(m, vs) && forall i | 0 <= i < Begun(rule, log, vs) :: vs[i].key != k
    ensures var f := Final(rule, log, m, vs); (k in f <==> k in m) && (k in m ==> f[k] == m[k])
    decreases |vs|
  {
    if vs != [] {
      assert vs[0].key != k;
      if Passes(rule, log, vs[0].request) && vs[0].restored {
        assert forall i | 0 <= i < |vs[1..]| :: vs[1..][i] == vs[i + 1];
        FinalUnvisited(rule, log + [vs[0].request], vs[0].after, vs[1..], k);
      }
    }
  }

  // ---- Visits and changes ----

  ghost predicate AgreeOn(a: Contents, b: Contents, keys: seq<string>) {
    forall k | k in keys :: (k in a <==> k in b) && (k in a ==> a[k] == b[k])
  }

  /** What a visit leaves of a change that was accepted. */
  function LeftBy(rule: Rule, c: Change): Value {
    match Left(rule, c.before, c.after) case None => c.after case Some(w) => w
  }

  /** A visit makes the change, although other keys may no longer be as they are in the base. */
  ghost predicate Performs(rule: Rule, v: Visited, c: Change) {
    && v.key == c.key && c.key in v.request.contents && v.request.contents[c.key] == c.after
    && (v.restored <==> Left(rule, c.before, c.after).Some?) && c.key in v.after && v.after[c.key] == LeftBy(rule, c)
  }

  ghost predicate Aligned(rule: Rule, vs: seq<Visited>, cs: seq<Change>) {
    && |vs| <= |cs| && (forall i | 0 <= i < |vs| :: Performs(rule, vs[i], cs[i]))
    && (|vs| < |cs| ==> vs != [] && !vs[|vs| - 1].restored)
  }

  lemma AlignedNext(rule: Rule, v: Visited, later: seq<Visited>, c: Change, cs: seq<Change>)
    requires Performs(rule, v, c) && if v.restored then Aligned(rule, later, cs) else later == []
    ensures Aligned(rule, [v] + later, [c] + cs)
  {
    var vs := [v] + later;
    forall i | 0 <= i < |vs| ensures Performs(rule, vs[i], ([c] + cs)[i]) {
      if i > 0 { assert vs[i] == later[i - 1] && ([c] + cs)[i] == cs[i - 1]; }
    }
  }

  /** A visit of a key depends on the value of that key alone. */
  lemma ProbeAgrees(rule: Rule, values: nat, payload: string, m: Contents, base: Contents, urls: Urls, key: string)
    requires (key in m <==> key in base) && (key in m ==> m[key] == base[key])
    ensures var p, q := Probe(rule, values, payload, m, urls, key), Probe(rule, values, payload, base, urls, key);
            && p.1 == q.1 && (p.0.Some? <==> q.0.Some?)
            && (p.0.Some? ==> Performs(rule, VisitOf(rule, m, key, p.0.value), Change(key, base[key], q.0.value.contents[key])))
  {
  }

  /** Keys are different, so the visits are those of the base, up to one that cannot store the old
      text. */
  lemma {:induction false} TraceAligned(rule: Rule, values: nat, payload: string, m: Contents, base: Contents, urls: Urls, keys: seq<string>)
    requires NoRepeats(keys) && AgreeOn(m, base, keys)
    ensures Aligned(rule, Trace(rule, values, payload, m, urls, keys), Changes(rule, values, payload, base, urls, keys))
    decreases |keys|
  {
    if keys != [] {
      var key, rest := keys[0], keys[1..];
      var p, vs := Probe(rule, values, payload, m, urls, key), Trace(rule, values, payload, m, urls, keys);
      assert NoRepeats(rest) && key !in rest && key in keys && forall k | k in rest :: k in keys;
      ProbeAgrees(rule, values, payload, m, base, urls, key);
      TraceNext(rule, values, payload, m, urls, keys);
      if p.0 == None {
        TraceAligned(rule, values, payload, m, base, p.1, rest);
      } else {
        var q := Probe(rule, values, payload, base, urls, key).0.value;
        if vs[0].restored { TraceAligned(rule, values, payload, vs[0].after, base, p.1, rest); }
        AlignedNext(rule, vs[0], vs[1..], Change(key, base[key], q.contents[key]), Changes(rule, values, payload, base, p.1, rest));
        assert vs == [vs[0]] + vs[1..];
      }
    }
  }

  lemma {:induction false} BegunRestored(rule: Rule, log: seq<Request>, vs: seq<Visited>, i: nat)
    requires i < Begun(rule, log, vs)
    ensures i + 1 < Begun(rule, log, vs) || FinalError(rule, log, vs) == Fine ==> vs[i].restored
    ensures i + 1 == Begun(rule, log, vs) && FinalError(rule, log, vs) == SetValueError ==> !vs[i].restored
    decreases |vs|
  {
    var next := log + [vs[0].request];
    if Passes(rule, log, vs[0].request) && vs[0].restored {
      if i > 0 {
        BegunRestored(rule, next, vs[1..], i - 1);
      } else {
        assert Begun(rule, next, vs[1..]) == 0 ==> FinalError(rule, next, vs[1..]) == Fine;
      }
    }
  }

  /** Every visit that is begun made a request, but one that ended in a failed rebuild. */
  lemma {:induction false} BegunCount(rule: Rule, log: seq<Request>, m: Contents, vs: seq<Visited>)
    requires Chained(m, vs)
    ensures Begun(rule, log, vs) == |Offered(rule, log, Requests(vs))| + if FinalError(rule, log, vs) == RebuildError then 1 else 0
    ensures FinalError(rule, log, vs) == Fine ==> Begun(rule, log, vs) == |vs|
    decreases |vs|
  {
    if vs != [] {
      OfferedNext(rule, log, vs[0].request, Requests(vs[1..]));
      if Passes(rule, log, vs[0].request) && vs[0].restored {
        BegunCount(rule, log + [vs[0].request], vs[0].after, vs[1..]);
      }
    }
  }

  // ---- What is restored, exactly ----

  /** A change leaves no trace: where the loop ended in an error, because it stored what was there;
      otherwise because the value comes back. */
  predicate Kept(rule: Rule, c: Change, ended: bool) { if ended then c.after == c.before else ComesBack(rule, c.before) }

  lemma AfterVisitKept(rule: Rule, log: seq<Request>, base: Contents, vs: seq<Visited>, i: nat, keys: seq<string>, c: Change)
    requires i < Begun(rule, log, vs) && Performs(rule, vs[i], c) && ChangeOf(rule, base, keys, c)
    ensures vs[i].key in AfterVisit(rule, log, vs, i)
    ensures AfterVisit(rule, log, vs, i)[vs[i].key] == base[vs[i].key]
            <==> Kept(rule, c, FinalError(rule, log, vs) != Fine && i + 1 == Begun(rule, log, vs))
  {
    BegunRestored(rule, log, vs, i);
    var s: string :| Store(c.before, s) == Some(c.after);
    LeftExactly(rule, c.before, s);
  }

  /** The visits that are begun leave what they visit of some keys as it is in the base. */
  ghost predicate LeavesKeys(rule: Rule, log: seq<Request>, base: Contents, vs: seq<Visited>, some: set<string>) {
    forall i | 0 <= i < Begun(rule, log, vs) && vs[i].key in some && vs[i].key in base && vs[i].key in AfterVisit(rule, log, vs, i) ::
      AfterVisit(rule, log, vs, i)[vs[i].key] == base[vs[i].key]
  }

  /** The first n changes leave no trace in some keys; `failed` says whether the last one ended the loop. */
  ghost predicate AllKept(rule: Rule, cs: seq<Change>, n: int, failed: bool, some: set<string>) {
    forall i | 0 <= i < n && i < |cs| && cs[i].key in some :: Kept(rule, cs[i], failed && i + 1 == n)
  }

  lemma LeavesExactly(rule: Rule, log: seq<Request>, base: Contents, vs: seq<Visited>, cs: seq<Change>, keys: seq<string>, some: set<string>)
    requires Aligned(rule, vs, cs) && ChangesOf(rule, base, keys, cs)
    ensures LeavesKeys(rule, log, base, vs, some) <==> AllKept(rule, cs, Begun(rule, log, vs), FinalError(rule, log, vs) != Fine, some)
  {
    var n := Begun(rule, log, vs);
    forall i | 0 <= i < n
      ensures Performs(rule, vs[i], cs[i]) && ChangeOf(rule, base, keys, cs[i]) && vs[i].key in AfterVisit(rule, log, vs, i)
      ensures AfterVisit(rule, log, vs, i)[vs[i].key] == base[vs[i].key]
              <==> Kept(rule, cs[i], FinalError(rule, log, vs) != Fine && i + 1 == n)
    {
      AfterVisitKept(rule, log, base, vs, i, keys, cs[i]);
    }
  }

  ghost predicate SameAt(base: Contents, end: Contents, some: set<string>) {
    forall k | k in some && k in base && k in end :: end[k] == base[k]
  }

  lemma FinalOnKeys(rule: Rule, log: seq<Request>, base: Contents, vs: seq<Visited>, some: set<string>)
    requires Chained(base, vs)
    ensures SameAt(base, Final(rule, log, base, vs), some) <==> LeavesKeys(rule, log, base, vs, some)
  {
    var end := Final(rule, log, base, vs);
    forall i | 0 <= i < Begun(rule, log, vs)
      ensures vs[i].key in end && vs[i].key in AfterVisit(rule, log, vs, i) && vs[i].key in base
      ensures end[vs[i].key] == AfterVisit(rule, log, vs, i)[vs[i].key]
    {
      FinalAt(rule, log, base, vs, i);
    }
    forall k | k in some && k in base && k in end && end[k] != base[k]
      ensures exists i :: 0 <= i < Begun(rule, log, vs) && vs[i].key == k
    {
      if forall i | 0 <= i < Begun(rule, log, vs) :: vs[i].key != k { FinalUnvisited(rule, log, base, vs, k); }
    }
  }

  lemma {:induction false} FinalKeys(rule: Rule, log: seq<Request>, m: Contents, vs: seq<Visited>)
    requires Chained(m, vs)
    ensures Final(rule, log, m, vs).Keys == m.Keys
    decreases |vs|
  {
    if vs != [] { FinalKeys(rule, log + [vs[0].request], vs[0].after, vs[1..]); }
  }

  /** How many changes were tried: one for each request that was made, and one that could not be rebuilt. */
  function Tried(log: seq<Request>, r: Run): int { |r.log| - |log| + if r.error == RebuildError then 1 else 0 }

  lemma TriedExactly(rule: Rule, r: Run, log: seq<Request>, base: Contents, vs: seq<Visited>, cs: seq<Change>)
    requires FollowsTrace(rule, r, log, base, vs) && Chained(base, vs) && Aligned(rule, vs, cs)
    ensures Tried(log, r) == Begun(rule, log, vs) <= |cs| && (r.error == Fine ==> Tried(log, r) == |cs|)
  {
    BegunCount(rule, log, base, vs);
    if FinalError(rule, log, vs) == Fine && vs != [] { BegunRestored(rule, log, vs, |vs| - 1); }
  }

  lemma SameAtTrace(rule: Rule, r: Run, log: seq<Request>, base: Contents, vs: seq<Visited>, cs: seq<Change>, keys: seq<string>,
                    some: set<string>)
    requires FollowsTrace(rule, r, log, base, vs) && Chained(base, vs) && Aligned(rule, vs, cs) && ChangesOf(rule, base, keys, cs)
    ensures r.contents.Keys == base.Keys
    ensures SameAt(base, r.contents, some) <==> AllKept(rule, cs, Begun(rule, log, vs), r.error != Fine, some)
  {
    FinalKeys(rule, log, base, vs);
    FinalOnKeys(rule, log, base, vs, some);
    LeavesExactly(rule, log, base, vs, cs, keys, some);
  }

  lemma SameAtExactly(rule: Rule, values: nat, payload: string, run: Run, keys: seq<string>, some: set<string>)
    requires rule.single && run.error == Fine && NoRepeats(keys)
    ensures var cs, r := Changes(rule, values, payload, run.contents, run.urls, keys), VisitAll(rule, values, payload, run, keys);
            && 0 <= Tried(run.log, r) <= |cs| && (r.error == Fine ==> Tried(run.log, r) == |cs|)
            && r.contents.Keys == run.contents.Keys
            && (SameAt(run.contents, r.contents, some) <==> AllKept(rule, cs, Tried(run.log, r), r.error != Fine, some))
  {
    var base, log, cs := run.contents, run.log, Changes(rule, values, payload, run.contents, run.urls, keys);
    var vs, r := Trace(rule, values, payload, base, run.urls, keys), VisitAll(rule, values, payload, run, keys);
    SingleExactly(rule, values, payload, run, keys);
    TraceChained(rule, values, payload, base, run.urls, keys);
    TraceAligned(rule, values, payload, base, base, run.urls, keys);
    ChangesAreOf(rule, values, payload, base, run.urls, keys);
    TriedExactly(rule, r, log, base, vs, cs);
    SameAtTrace(rule, r, log, base, vs, cs, keys, some);
  }

  /** However the loop of single mode ends, the component is the base again if and only if every value
      that was rewritten comes back; but where the loop ended in a refusal or an error, the last one
      was rewritten to itself. Without either, it is the base again if and only if all values that
      match and can be set come back. */
  lemma SingleRestoresExactly(rule: Rule, values: nat, payload: string, run: Run, keys: seq<string>)
    requires rule.single && run.error == Fine && NoRepeats(keys)
    ensures var cs, r := Changes(rule, values, payload, run.contents, run.urls, keys), VisitAll(rule, values, payload, run, keys);
            && (r.contents == run.contents <==> AllKept(rule, cs, Tried(run.log, r), r.error != Fine, run.contents.Keys))
            && (r.error == Fine ==> (r.contents == run.contents <==> AllComeBack(rule, cs)))
  {
    var base, cs, r := run.contents, Changes(rule, values, payload, run.contents, run.urls, keys), VisitAll(rule, values, payload, run, keys);
    SameAtExactly(rule, values, payload, run, keys, base.Keys);
    SameEverywhere(base, r.contents);
    ChangesAreOf(rule, values, payload, base, run.urls, keys);
    assert forall i | 0 <= i < |cs| :: ChangeOf(rule, base, keys, cs[i]) && cs[i].key in base.Keys;
  }

  lemma SameEverywhere(base: Contents, end: Contents)
    requires end.Keys == base.Keys
    ensures SameAt(base, end, base.Keys) <==> end == base
  {
    if SameAt(base, end, base.Keys) {
      forall k | k in base ensures k in end && end[k] == base[k] { assert k in base.Keys && k in end.Keys; }
    }
  }

  // ---- The component of the caller ----

  /** A payload leaves the component of the caller as it was when the clone ends with its values under
      the keys of shared lists. */
  lemma AliasedUntouched(base: Contents, clone: Contents, shared: set<string>)
    ensures Aliased(base, clone, shared) == base <==> SameAt(base, clone, shared)
  {
    var after := Aliased(base, clone, shared);
    if after == base {
      forall k | k in shared && k in base && k in clone ensures clone[k] == base[k] { assert after[k] == clone[k]; }
    }
  }

  /** In single mode the component of the caller is untouched if and only if every shared list that was
      rewritten comes back; but where the payload ended in a refusal or an error, the last one was
      rewritten to itself. */
  lemma SingleUntouchedExactly(rule: Rule, values: nat, payload: string, shared: set<string>, run: Run)
    requires rule.single && run.error == Fine && ValidOrder(rule)
    ensures var cs, r := Changes(rule, values, payload, run.contents, run.urls, rule.order(run.contents)),
                         Part(rule, values, ValueOnly(payload), shared, run);
            && 0 <= Tried(run.log, r) <= |cs| && (r.error == Fine ==> Tried(run.log, r) == |cs|)
            && (r.contents == run.contents <==> AllKept(rule, cs, Tried(run.log, r), r.error != Fine, shared))
  {
    var keys := rule.order(run.contents);
    SameAtExactly(rule, values, payload, run, keys, shared);
    AliasedUntouched(run.contents, VisitAll(rule, values, payload, run, keys).contents, shared);
  }

  /** Whether the component of the caller is untouched by a payload that ends well can be read off the
      base: every shared list that is visited must be empty or end in its own text. */
  lemma ListsUntouchedExactly(rule: Rule, values: nat, payload: string, shared: set<string>, run: Run)
    requires rule.single && run.error == Fine && ValidOrder(rule)
    requires forall k | k in shared && k in run.contents :: run.contents[k].List?
    requires Part(rule, values, ValueOnly(payload), shared, run).error == Fine
    ensures var cs := Changes(rule, values, payload, run.contents, run.urls, rule.order(run.contents));
            Part(rule, values, ValueOnly(payload), shared, run).contents == run.contents
            <==> forall i | 0 <= i < |cs| && cs[i].key in shared && cs[i].before.List? && cs[i].before.items != [] ::
                   rule.escape(Show(cs[i].before)) == cs[i].before.items[|cs[i].before.items| - 1]
  {
    var keys := rule.order(run.contents);
    var cs := Changes(rule, values, payload, run.contents, run.urls, keys);
    SingleUntouchedExactly(rule, values, payload, shared, run);
    ChangesAreOf(rule, values, payload, run.contents, run.urls, keys);
    assert forall i | 0 <= i < |cs| :: ChangeOf(rule, run.contents, keys, cs[i]);
  }

  /** A shared list of one item that matches is left with its own text in brackets, although every
      request is accepted and the clone is thrown away. */
  lemma SharedListIsOverwritten(rule: Rule, values: nat, payload: string, key: string, item: string, run: Run)
    requires rule.single && run.error == Fine && run.contents == map[key := List([item])] && rule.order(run.contents) == [key]
    requires rule.matches(key, "[" + item + "]") && rule.escape("[" + item + "]") == "[" + item + "]"
    requires (forall m: Contents :: rule.rebuilds(m)) && forall log: seq<Request>, q: Request :: rule.accepts(log, q)
    ensures Part(rule, values, ValueOnly(payload), {key}, run).contents == map[key := List(["[" + item + "]"])] != run.contents
  {
    var base, text := run.contents, "[" + item + "]";
    assert Joined([item]) == item && Show(base[key]) == text;
    var p := Probe(rule, values, payload, base, run.urls, key);
    var v := VisitOf(rule, base, key, p.0.value);
    VisitSingle(rule, values, payload, run, key);
    assert [key][1..] == [];
    assert [item][0 := rule.escape(Evaluate(rule, values, text, payload, run.urls).0)][0 := text] == [text];
    assert v.after == base[key := List([text])] == map[key := List([text])];
    assert VisitAll(rule, values, payload, run, [key]).contents == v.after;
    assert [text][0] != [item][0];
  }

  // ---- Pairs ----

  /** What a pair leaves under its key in the clone: the payload where its request is not made, not
      accepted, or the key was not visited in the component; otherwise what restoring leaves. */
  function PairLeaves(rule: Rule, values: nat, p: Payload, run: Run): Option<Value> {
    var e := Evaluate(rule, values, "", p.value, run.urls);
    match Stored(rule, run.contents, p.key, e.0)
    case None => None
    case Some(v) =>
      var q := Request(run.contents[p.key := v], e.1, Parameter(p.key, p.value));
      if rule.single && Passes(rule, run.log, q) && p.key in run.contents && p.key in rule.order(run.contents) then
        match Left(rule, run.contents[p.key], v) case None => Some(v) case Some(w) => Some(w)
      else Some(v)
  }

  lemma PairClone(rule: Rule, values: nat, p: Payload, run: Run)
    requires p.key != "" && run.error == Fine
    ensures var left := PairLeaves(rule, values, p, run);
            OnPair(rule, values, p, run).contents == if left == None then run.contents else run.contents[p.key := left.value]
  {
  }

  /** A pair leaves the component of the caller untouched if and only if its key is not a shared list, or
      what it leaves there is what was there. */
  lemma PairUntouchedExactly(rule: Rule, values: nat, p: Payload, shared: set<string>, run: Run)
    requires p.key != "" && run.error == Fine
    ensures var left := PairLeaves(rule, values, p, run);
            Part(rule, values, p, shared, run).contents == run.contents
            <==> (p.key in shared && p.key in run.contents && left.Some? ==> left.value == run.contents[p.key])
  {
    PairClone(rule, values, p, run);
    AliasedUntouched(run.contents, OnPair(rule, values, p, run).contents, shared);
  }
}
