/** What the requests of a fuzzing rule are over all its payloads: in multiple mode there is one per
    payload; values stop at the first refusal, pairs do not. */
module FuzzMeaning {
  import opened FuzzComponent
  import opened FuzzRule
  import opened FuzzExecute
  import opened FuzzSingle

  // ---- Multiple mode ----

  /** The values that the visited keys get. */
  function Edits(rule: Rule, values: nat, payload: string, base: Contents, urls: Urls, keys: seq<string>): Contents
    decreases |keys|
  {
    if keys == [] then map[]
    else
      var p := Probe(rule, values, payload, base, urls, keys[0]);
      var later := Edits(rule, values, payload, base, p.1, keys[1..]);
      if p.0.Some? then later[keys[0] := p.0.value.contents[keys[0]]] else later
  }

  function UrlsAfter(rule: Rule, values: nat, payload: string, base: Contents, urls: Urls, keys: seq<string>): Urls
    decreases |keys|
  {
    if keys == [] then urls
    else UrlsAfter(rule, values, payload, base, Probe(rule, values, payload, base, urls, keys[0]).1, keys[1..])
  }

  predicate Touched(rule: Rule, base: Contents, keys: seq<string>, k: string) {
    k in keys && k in base && rule.matches(k, Show(base[k]))
  }

  /** Storing the payload, with some URLs, over the value of a key gives a value, or none. */
  ghost predicate Gives(rule: Rule, values: nat, payload: string, base: Contents, k: string, v: Option<Value>)
    requires k in base
  {
    exists u: Urls :: Stored(rule, base, k, Evaluate(rule, values, Show(base[k]), payload, u).0) == v
  }

  /** An edit is what storing the payload over the base value gives; a matching key without one cannot
      be set. */
  lemma {:induction false} EditsAre(rule: Rule, values: nat, payload: string, base: Contents, urls: Urls, keys: seq<string>, k: string)
    ensures var edits := Edits(rule, values, payload, base, urls, keys);
            if k in edits then Touched(rule, base, keys, k) && Gives(rule, values, payload, base, k, Some(edits[k]))
            else Touched(rule, base, keys, k) ==> Gives(rule, values, payload, base, k, None)
    decreases |keys|
  {
    if keys != [] {
      var p := Probe(rule, values, payload, base, urls, keys[0]);
      EditsAre(rule, values, payload, base, p.1, keys[1..], k);
      if k == keys[0] && k in base && rule.matches(k, Show(base[k])) {
        var e := Evaluate(rule, values, Show(base[k]), payload, urls);
        assert p.0 == None ==> Stored(rule, base, k, e.0) == None;
      }
    }
  }

  lemma VisitMultiple(rule: Rule, values: nat, payload: string, run: Run, base: Contents, key: string)
    requires !rule.single && run.error == Fine && (key in run.contents <==> key in base)
    requires key in base ==> run.contents[key] == base[key]
    ensures var p, r := Probe(rule, values, payload, base, run.urls, key), Visit(rule, values, payload, run, key);
            r == if p.0 == None then run.(urls := p.1)
                 else run.(urls := p.1, contents := run.contents[key := p.0.value.contents[key]])
  {
  }

  lemma {:induction false} VisitAllMultiple(rule: Rule, values: nat, payload: string, run: Run, base: Contents, keys: seq<string>)
    requires !rule.single && run.error == Fine && NoRepeats(keys) && AgreeOn(run.contents, base, keys)
    ensures VisitAll(rule, values, payload, run, keys)
            == run.(contents := run.contents + Edits(rule, values, payload, base, run.urls, keys),
                    urls := UrlsAfter(rule, values, payload, base, run.urls, keys))
    decreases |keys|
  {
    if keys == [] {
      assert run.contents + map[] == run.contents;
    } else {
      var key, rest := keys[0], keys[1..];
      assert key !in rest && NoRepeats(rest);
      assert key in keys && forall k | k in rest :: k in keys;
      VisitMultiple(rule, values, payload, run, base, key);
      var one := Visit(rule, values, payload, run, key);
      VisitAllMultiple(rule, values, payload, one, base, rest);
      var p := Probe(rule, values, payload, base, run.urls, key);
      var later := Edits(rule, values, payload, base, p.1, rest);
      EditsAre(rule, values, payload, base, p.1, rest, key);
      if p.0.Some? {
        var v := p.0.value.contents[key];
        assert run.contents[key := v] + later == run.contents + later[key := v];
      }
    }
  }

  /** The one request of a payload in multiple mode. */
  function Whole(rule: Rule, values: nat, payload: string, base: Contents, urls: Urls): Request {
    var keys := rule.order(base);
    Request(base + Edits(rule, values, payload, base, urls, keys), UrlsAfter(rule, values, payload, base, urls, keys), "")
  }

  function Answered(rule: Rule, log: seq<Request>, q: Request): Error {
    if !rule.rebuilds(q.contents) then RebuildError else if rule.accepts(log, q) then Fine else NoMoreRequests
  }

  /** In multiple mode a payload makes exactly one request, if it can be rebuilt: the base with every
      matching key that can be set rewritten, and all others as they were. */
  lemma MultipleExactly(rule: Rule, values: nat, payload: string, run: Run)
    requires !rule.single && ValidOrder(rule) && run.error == Fine
    ensures var q := Whole(rule, values, payload, run.contents, run.urls);
            OnValues(rule, values, payload, run)
            == Run(q.contents, q.urls, if rule.rebuilds(q.contents) then run.log + [q] else run.log, Answered(rule, run.log, q))
  {
    VisitAllMultiple(rule, values, payload, run, run.contents, rule.order(run.contents));
    assert ParseInt("") == None;
  }

  // ---- The component between payloads ----

  /** In multiple mode the component of the caller is untouched exactly when no shared list is rewritten
      to something else. */
  lemma MultipleUntouchedExactly(rule: Rule, values: nat, payload: string, shared: set<string>, run: Run)
    requires !rule.single && ValidOrder(rule) && run.error == Fine
    ensures var edits := Edits(rule, values, payload, run.contents, run.urls, rule.order(run.contents));
            Part(rule, values, ValueOnly(payload), shared, run).contents == run.contents
            <==> forall k | k in shared && k in edits && k in run.contents :: edits[k] == run.contents[k]
  {
    var edits := Edits(rule, values, payload, run.contents, run.urls, rule.order(run.contents));
    MultipleExactly(rule, values, payload, run);
    AliasedUntouched(run.contents, run.contents + edits, shared);
    forall k | k in edits ensures k in run.contents {
      EditsAre(rule, values, payload, run.contents, run.urls, rule.order(run.contents), k);
    }
  }

  /** The requests of all payloads in multiple mode, each from the base with what the payloads before
      it wrote to shared lists. */
  ghost function Wholes(rule: Rule, values: nat, base: Contents, shared: set<string>, urls: Urls, payloads: seq<Payload>): seq<Request>
    decreases |payloads|
  {
    if payloads == [] then []
    else
      var q := Whole(rule, values, payloads[0].value, base, urls);
      [q] + Wholes(rule, values, Aliased(base, q.contents, shared), shared, q.urls, payloads[1..])
  }

  lemma {:induction false} WholesLength(rule: Rule, values: nat, base: Contents, shared: set<string>, urls: Urls, payloads: seq<Payload>)
    ensures |Wholes(rule, values, base, shared, urls, payloads)| == |payloads|
    decreases |payloads|
  {
    if payloads != [] {
      var q := Whole(rule, values, payloads[0].value, base, urls);
      WholesLength(rule, values, Aliased(base, q.contents, shared), shared, q.urls, payloads[1..]);
    }
  }

  lemma NothingAliased(base: Contents, clone: Contents)
    ensures Aliased(base, clone, {}) == base
  {
  }

  /** Without shared lists all payloads start from the same base. */
  function FromSame(rule: Rule, values: nat, base: Contents, urls: Urls, payloads: seq<Payload>): seq<Request>
    decreases |payloads|
  {
    if payloads == [] then []
    else
      var q := Whole(rule, values, payloads[0].value, base, urls);
      [q] + FromSame(rule, values, base, q.urls, payloads[1..])
  }

  lemma {:induction false} UnsharedFromSame(rule: Rule, values: nat, base: Contents, urls: Urls, payloads: seq<Payload>)
    ensures Wholes(rule, values, base, {}, urls, payloads) == FromSame(rule, values, base, urls, payloads)
    decreases |payloads|
  {
    if payloads != [] {
      var q := Whole(rule, values, payloads[0].value, base, urls);
      NothingAliased(base, q.contents);
      UnsharedFromSame(rule, values, base, q.urls, payloads[1..]);
    }
  }

  lemma PayloadOnce(rule: Rule, values: nat, p: Payload, shared: set<string>, run: Run)
    requires !rule.single && ValidOrder(rule) && run.error == Fine && p.key == ""
    ensures var q := Whole(rule, values, p.value, run.contents, run.urls);
            Part(rule, values, p, shared, run)
            == Run(Aliased(run.contents, q.contents, shared), q.urls,
                   if rule.rebuilds(q.contents) then run.log + [q] else run.log, Answered(rule, run.log, q))
  {
    MultipleExactly(rule, values, p.value, run);
  }

  ghost predicate PayloadsAsked(rule: Rule, values: nat, ps: seq<Payload>, shared: set<string>, run: Run) {
    var q, r := Wholes(rule, values, run.contents, shared, run.urls, ps), Parts(rule, values, ps, shared, run);
    r.log == run.log + Offered(rule, run.log, q) && r.error == Ending(rule, run.log, q)
  }

  lemma PartsOnce(rule: Rule, values: nat, ps: seq<Payload>, shared: set<string>, run: Run)
    requires ps != []
    ensures var one := Part(rule, values, ps[0], shared, run);
            Parts(rule, values, ps, shared, run)
            == if one.error == Fine || one.error == SetValueError then Parts(rule, values, ps[1..], shared, one.(error := Fine)) else one
  {
  }

  /** In multiple mode a rule makes one request per value, each from the base and what the values before
      it left in shared lists, as long as they can be rebuilt and up to the first refusal. */
  lemma {:induction false} PayloadsExactly(rule: Rule, values: nat, ps: seq<Payload>, shared: set<string>, run: Run)
    requires !rule.single && ValidOrder(rule) && run.error == Fine
    requires forall i | 0 <= i < |ps| :: ps[i].key == ""
    ensures PayloadsAsked(rule, values, ps, shared, run)
    decreases |ps|
  {
    if ps != [] {
      var q := Whole(rule, values, ps[0].value, run.contents, run.urls);
      var after := Aliased(run.contents, q.contents, shared);
      PayloadOnce(rule, values, ps[0], shared, run);
      PartsOnce(rule, values, ps, shared, run);
      OfferedNext(rule, run.log, q, Wholes(rule, values, after, shared, q.urls, ps[1..]));
      if Answered(rule, run.log, q) == Fine { PayloadsExactly(rule, values, ps[1..], shared, Run(after, q.urls, run.log + [q], Fine)); }
    }
  }

  // ---- Refusals ----

  /** All requests made since `log` were accepted, but the last if that ended the run. */
  ghost predicate StopsWhenRefused(rule: Rule, log: seq<Request>, after: seq<Request>, refused: bool) {
    && log <= after
    && (forall i | |log| <= i < |after| - 1 :: rule.accepts(after[..i], after[i]))
    && (|after| > |log| ==> rule.accepts(after[..|after| - 1], after[|after| - 1]) == !refused)
    && (refused ==> |after| > |log|)
  }

  ghost predicate Stops(rule: Rule, log: seq<Request>, r: Run) {
    StopsWhenRefused(rule, log, r.log, r.error == NoMoreRequests)
  }

  lemma StopsNext(rule: Rule, a: seq<Request>, b: seq<Request>, c: seq<Request>, refused: bool)
    requires StopsWhenRefused(rule, a, b, false) && StopsWhenRefused(rule, b, c, refused)
    ensures StopsWhenRefused(rule, a, c, refused)
  {
    forall i | |a| <= i < |c| - 1 ensures rule.accepts(c[..i], c[i]) {
      if i < |b| { assert c[..i] == b[..i] && c[i] == b[i]; }
    }
    if |c| == |b| { assert c == b; }
  }

  lemma OfferStops(rule: Rule, run: Run, parameter: string, value: string)
    requires run.error == Fine
    ensures Stops(rule, run.log, Offer(rule, run, parameter, value))
  {
    var r := Offer(rule, run, parameter, value);
    if r.error != RebuildError { assert r.log[..|run.log|] == run.log; }
  }

  lemma VisitStops(rule: Rule, values: nat, payload: string, run: Run, key: string)
    requires run.error == Fine
    ensures Stops(rule, run.log, Visit(rule, values, payload, run, key))
  {
    if key in run.contents {
      var text := Show(run.contents[key]);
      var e := Evaluate(rule, values, text, payload, run.urls);
      var v := Stored(rule, run.contents, key, e.0);
      if v.Some? { OfferStops(rule, run.(urls := e.1, contents := run.contents[key := v.value]), key, text); }
    }
  }

  lemma {:induction false} VisitAllStops(rule: Rule, values: nat, payload: string, run: Run, keys: seq<string>)
    requires run.error == Fine
    ensures Stops(rule, run.log, VisitAll(rule, values, payload, run, keys))
    decreases |keys|
  {
    if keys != [] {
      VisitStops(rule, values, payload, run, keys[0]);
      var one := Visit(rule, values, payload, run, keys[0]);
      if one.error == Fine {
        VisitAllStops(rule, values, payload, one, keys[1..]);
        var r := VisitAll(rule, values, payload, run, keys);
        StopsNext(rule, run.log, one.log, r.log, r.error == NoMoreRequests);
      }
    }
  }

  lemma OnValuesStops(rule: Rule, values: nat, payload: string, run: Run)
    requires run.error == Fine
    ensures Stops(rule, run.log, OnValues(rule, values, payload, run))
  {
    var visited := VisitAll(rule, values, payload, run, rule.order(run.contents));
    VisitAllStops(rule, values, payload, run, rule.order(run.contents));
    if visited.error == Fine && !rule.single {
      OfferStops(rule, visited, "", "");
      var r := Offer(rule, visited, "", "");
      StopsNext(rule, run.log, visited.log, r.log, r.error == NoMoreRequests);
    }
  }

  lemma {:induction false} PartsStop(rule: Rule, values: nat, ps: seq<Payload>, shared: set<string>, run: Run)
    requires run.error == Fine && forall p | p in ps :: p.key == ""
    ensures Stops(rule, run.log, Parts(rule, values, ps, shared, run))
    decreases |ps|
  {
    if ps != [] {
      assert ps[0] in ps && forall p | p in ps[1..] :: p in ps;
      OnValuesStops(rule, values, ps[0].value, run);
      var one := Part(rule, values, ps[0], shared, run);
      if one.error == Fine || one.error == SetValueError {
        var next := one.(error := Fine);
        PartsStop(rule, values, ps[1..], shared, next);
        var r := Parts(rule, values, ps, shared, run);
        StopsNext(rule, run.log, next.log, r.log, r.error == NoMoreRequests);
      }
    }
  }

  lemma {:induction false} SetsStop(rule: Rule, fuzz: Fuzz, start: nat -> Urls, w: Work, log: seq<Request>)
    requires fuzz.value != []
    ensures var r := Sets(rule, fuzz, start, w, log); StopsWhenRefused(rule, log, r.run.log, r.outcome == Failed(NoMoreRequests))
    decreases |w.sets|
  {
    if w.sets != [] {
      var run := Run(w.contents, start(w.sets[0]), log, Fine);
      PartsStop(rule, w.sets[0], ValuesOnly(fuzz.value), w.shared, run);
      var one := RuleValues(rule, w.sets[0], fuzz, w.shared, run);
      var r := Sets(rule, fuzz, start, w, log);
      if OutcomeOf(fuzz, one.error) == Nil {
        SetsStop(rule, fuzz, start, Work(one.contents, RuleShared(rule, fuzz, w.shared, one.contents), w.sets[1..]), one.log);
        StopsNext(rule, log, one.log, r.run.log, r.outcome == Failed(NoMoreRequests));
      }
    }
  }

  /** A rule with plain values makes no request after one that was refused, over all its components,
      value sets and payloads, in both modes; and it ends early exactly because of a refusal. */
  lemma {:induction false} RefusalEndsRule(rule: Rule, fuzz: Fuzz, start: nat -> Urls, works: seq<Work>, log: seq<Request>)
    requires fuzz.value != []
    ensures var r := All(rule, fuzz, start, works, log); StopsWhenRefused(rule, log, r.0, r.1 == Failed(NoMoreRequests))
    decreases |works|
  {
    if works != [] {
      SetsStop(rule, fuzz, start, works[0], log);
      var one := Sets(rule, fuzz, start, works[0], log);
      if one.outcome == Nil {
        RefusalEndsRule(rule, fuzz, start, works[1..], one.run.log);
        var r := All(rule, fuzz, start, works, log);
        StopsNext(rule, log, one.run.log, r.0, r.1 == Failed(NoMoreRequests));
      }
    }
  }

  // ---- Pairs ----

  /** The request of one pair, if it can be set. */
  function PairRequest(rule: Rule, values: nat, base: Contents, urls: Urls, p: Payload): (seq<Request>, Urls) {
    var e := Evaluate(rule, values, "", p.value, urls);
    match Stored(rule, base, p.key, e.0)
    case None => ([], e.1)
    case Some(v) => ([Request(base[p.key := v], e.1, Parameter(p.key, p.value))], e.1)
  }

  /** The state after one pair: the URLs and the log moved, and a shared list holds what the pair left,
      which depends on the answer of the callback. */
  ghost function AfterPair(rule: Rule, values: nat, p: Payload, shared: set<string>, run: Run): Run {
    var q, left := PairRequest(rule, values, run.contents, run.urls, p), PairLeaves(rule, values, p, run);
    Run(if left == None then run.contents else Aliased(run.contents, run.contents[p.key := left.value], shared), q.1, run.log + q.0, Fine)
  }

  /** The requests of a list of pairs in single mode, each from what the pairs before it left. */
  ghost function PairRequests(rule: Rule, values: nat, ps: seq<Payload>, shared: set<string>, run: Run): seq<Request>
    decreases |ps|
  {
    if ps == [] then []
    else
      PairRequest(rule, values, run.contents, run.urls, ps[0]).0
      + PairRequests(rule, values, ps[1..], shared, AfterPair(rule, values, ps[0], shared, run))
  }

  /** Without shared lists all pairs start from the same base, whatever the callback answers. */
  function PairsFromSame(rule: Rule, values: nat, base: Contents, urls: Urls, ps: seq<Payload>): seq<Request>
    decreases |ps|
  {
    if ps == [] then []
    else
      var q := PairRequest(rule, values, base, urls, ps[0]);
      q.0 + PairsFromSame(rule, values, base, q.1, ps[1..])
  }

  lemma {:induction false} UnsharedPairsFromSame(rule: Rule, values: nat, ps: seq<Payload>, run: Run)
    ensures PairRequests(rule, values, ps, {}, run) == PairsFromSame(rule, values, run.contents, run.urls, ps)
    decreases |ps|
  {
    if ps != [] {
      var left, next := PairLeaves(rule, values, ps[0], run), AfterPair(rule, values, ps[0], {}, run);
      if left.Some? { NothingAliased(run.contents, run.contents[ps[0].key := left.value]); }
      UnsharedPairsFromSame(rule, values, ps[1..], next);
    }
  }

  /** Those before the first that cannot be rebuilt. */
  function Built(rule: Rule, requests: seq<Request>): seq<Request>
    decreases |requests|
  {
    if requests == [] || !rule.rebuilds(requests[0].contents) then [] else [requests[0]] + Built(rule, requests[1..])
  }

  lemma BuiltNext(rule: Rule, q: seq<Request>, later: seq<Request>)
    requires |q| <= 1
    ensures Built(rule, q + later) == if q == [] || rule.rebuilds(q[0].contents) then q + Built(rule, later) else []
  {
    if q == [] {
      assert q + later == later && q + Built(rule, later) == Built(rule, later);
    } else {
      assert q == [q[0]] && (q + later)[1..] == later;
    }
  }

  lemma BuiltOne(rule: Rule, q: seq<Request>)
    requires |q| <= 1
    ensures Built(rule, q) == if q == [] || rule.rebuilds(q[0].contents) then q else []
  {
    if q != [] { assert q[1..] == [] && q == [q[0]]; }
  }

  lemma PairOnce(rule: Rule, values: nat, p: Payload, shared: set<string>, run: Run)
    requires rule.single && run.error == Fine && p.key != ""
    ensures var q, r := PairRequest(rule, values, run.contents, run.urls, p), Part(rule, values, p, shared, run);
            && r.contents == AfterPair(rule, values, p, shared, run).contents && r.log == run.log + Built(rule, q.0) && r.urls == q.1
            && if Built(rule, q.0) == q.0 then r.error == Fine || r.error == SetValueError else r.error == RebuildError
  {
    BuiltOne(rule, PairRequest(rule, values, run.contents, run.urls, p).0);
    PairClone(rule, values, p, run);
    SelfAliased(run.contents, shared);
  }

  lemma SelfAliased(base: Contents, shared: set<string>)
    ensures Aliased(base, base, shared) == base
  {
  }

  lemma PartsNext(rule: Rule, values: nat, ps: seq<Payload>, shared: set<string>, run: Run)
    requires ps != [] && ps[0].key != "" && rule.single && run.error == Fine
    ensures var q := PairRequest(rule, values, run.contents, run.urls, ps[0]).0;
            Parts(rule, values, ps, shared, run)
            == if Built(rule, q) == q then Parts(rule, values, ps[1..], shared, AfterPair(rule, values, ps[0], shared, run))
               else Part(rule, values, ps[0], shared, run)
  {
    PairOnce(rule, values, ps[0], shared, run);
    PartsOnce(rule, values, ps, shared, run);
    var one := Part(rule, values, ps[0], shared, run);
    var q := PairRequest(rule, values, run.contents, run.urls, ps[0]).0;
    if Built(rule, q) == q { assert one.(error := Fine) == AfterPair(rule, values, ps[0], shared, run); }
  }

  /** Nothing but what is under some keys has changed. */
  ghost predicate ChangedOnly(before: Contents, after: Contents, some: set<string>) {
    after.Keys == before.Keys && forall k | k in before && k !in some :: after[k] == before[k]
  }

  lemma AfterPairChanges(rule: Rule, values: nat, p: Payload, shared: set<string>, run: Run)
    ensures ChangedOnly(run.contents, AfterPair(rule, values, p, shared, run).contents, shared)
  {
  }

  /** The outcome of a list of requests that ignores the callback. */
  ghost predicate Asked(rule: Rule, run: Run, q: seq<Request>, shared: set<string>, r: Run) {
    && r.log == run.log + Built(rule, q) && ChangedOnly(run.contents, r.contents, shared)
    && r.error == if Built(rule, q) == q then Fine else RebuildError
  }

  ghost predicate PairsAsked(rule: Rule, values: nat, ps: seq<Payload>, shared: set<string>, run: Run) {
    Asked(rule, run, PairRequests(rule, values, ps, shared, run), shared, Parts(rule, values, ps, shared, run))
  }

  lemma SameTail(q: seq<Request>, a: seq<Request>, b: seq<Request>)
    ensures q + a == q + b <==> a == b
  {
    assert (q + a)[|q|..] == a && (q + b)[|q|..] == b;
  }

  lemma BuiltTail(rule: Rule, q: seq<Request>, later: seq<Request>)
    requires |q| <= 1 && Built(rule, q) == q
    ensures Built(rule, q + later) == q + Built(rule, later)
    ensures Built(rule, q + later) == q + later <==> Built(rule, later) == later
  {
    BuiltNext(rule, q, later);
    BuiltOne(rule, q);
    SameTail(q, Built(rule, later), later);
  }

  lemma ChangedTwice(a: Contents, b: Contents, c: Contents, some: set<string>)
    requires ChangedOnly(a, b, some) && ChangedOnly(b, c, some)
    ensures ChangedOnly(a, c, some)
  {
    forall k | k in a && k !in some ensures c[k] == a[k] { assert k in b.Keys; }
  }

  lemma AskedNext(rule: Rule, run: Run, next: Run, q: seq<Request>, later: seq<Request>, shared: set<string>, r: Run)
    requires |q| <= 1 && Built(rule, q) == q && next.log == run.log + q && ChangedOnly(run.contents, next.contents, shared)
    requires Asked(rule, next, later, shared, r)
    ensures Asked(rule, run, q + later, shared, r)
  {
    BuiltTail(rule, q, later);
    ChangedTwice(run.contents, next.contents, r.contents, shared);
    AppendedTwice(run.log, q, Built(rule, later));
  }

  lemma AppendedTwice(log: seq<Request>, q: seq<Request>, later: seq<Request>)
    ensures log + q + later == log + (q + later)
  {
  }

  lemma AskedToEnd(rule: Rule, run: Run, q: seq<Request>, later: seq<Request>, shared: set<string>, r: Run)
    requires |q| <= 1 && Built(rule, q) != q && r.log == run.log + Built(rule, q) && r.error == RebuildError
    requires ChangedOnly(run.contents, r.contents, shared)
    ensures Asked(rule, run, q + later, shared, r)
  {
    BuiltNext(rule, q, later);
    BuiltOne(rule, q);
  }

  lemma OnePairAsked(rule: Rule, values: nat, ps: seq<Payload>, shared: set<string>, run: Run)
    requires ps != [] && ps[0].key != "" && rule.single && run.error == Fine
    requires PairsAsked(rule, values, ps[1..], shared, AfterPair(rule, values, ps[0], shared, run))
    ensures PairsAsked(rule, values, ps, shared, run)
  {
    var q, next := PairRequest(rule, values, run.contents, run.urls, ps[0]).0, AfterPair(rule, values, ps[0], shared, run);
    var later, r := PairRequests(rule, values, ps[1..], shared, next), Parts(rule, values, ps, shared, run);
    PartsNext(rule, values, ps, shared, run);
    AfterPairChanges(rule, values, ps[0], shared, run);
    if Built(rule, q) == q {
      AskedNext(rule, run, next, q, later, shared, r);
    } else {
      PairOnce(rule, values, ps[0], shared, run);
      AskedToEnd(rule, run, q, later, shared, r);
    }
  }

  /** Pairs in single mode ignore the answers of the callback: whatever it refuses, every pair that can
      be set makes its request, from what the pairs before it left in shared lists, as long as they can
      be rebuilt; no refusal is reported, and nothing but shared lists changes. */
  lemma {:induction false} PairsIgnoreRefusals(rule: Rule, values: nat, ps: seq<Payload>, shared: set<string>, run: Run)
    requires rule.single && run.error == Fine
    requires forall i | 0 <= i < |ps| :: ps[i].key != ""
    ensures PairsAsked(rule, values, ps, shared, run)
    decreases |ps|
  {
    if ps != [] {
      PairsIgnoreRefusals(rule, values, ps[1..], shared, AfterPair(rule, values, ps[0], shared, run));
      OnePairAsked(rule, values, ps, shared, run);
    }
  }

  ghost predicate EndsAtRefusal(rule: Rule, log: seq<Request>, after: seq<Request>) {
    exists refused :: StopsWhenRefused(rule, log, after, refused)
  }

  ghost predicate OnlyLastRefused(rule: Rule, log: seq<Request>, q: seq<Request>) {
    forall i | 0 <= i < |q| - 1 :: rule.accepts(log + q[..i], q[i])
  }

  lemma StopsExactly(rule: Rule, log: seq<Request>, q: seq<Request>)
    ensures EndsAtRefusal(rule, log, log + q) <==> OnlyLastRefused(rule, log, q)
  {
    var n, after := |log|, log + q;
    forall i | 0 <= i < |q| ensures after[..n + i] == log + q[..i] && after[n + i] == q[i] {}
    if forall i | 0 <= i < |q| - 1 :: rule.accepts(log + q[..i], q[i]) {
      forall j | n <= j < |after| - 1 ensures rule.accepts(after[..j], after[j]) {
        assert rule.accepts(log + q[..j - n], q[j - n]);
      }
      assert StopsWhenRefused(rule, log, after, q != [] && !rule.accepts(after[..|after| - 1], after[|after| - 1]));
    }
    if stopped :| StopsWhenRefused(rule, log, after, stopped) {
      forall i | 0 <= i < |q| - 1 ensures rule.accepts(log + q[..i], q[i]) {
        assert rule.accepts(after[..n + i], after[n + i]);
      }
    }
  }

  /** So a rule with pairs ends at a refusal exactly when none but the last of its requests is refused. */
  lemma PairsStopExactly(rule: Rule, values: nat, ps: seq<Payload>, shared: set<string>, run: Run)
    requires rule.single && run.error == Fine
    requires forall i | 0 <= i < |ps| :: ps[i].key != ""
    ensures EndsAtRefusal(rule, run.log, Parts(rule, values, ps, shared, run).log)
            <==> OnlyLastRefused(rule, run.log, Built(rule, PairRequests(rule, values, ps, shared, run)))
  {
    PairsIgnoreRefusals(rule, values, ps, shared, run);
    var q, after := Built(rule, PairRequests(rule, values, ps, shared, run)), Parts(rule, values, ps, shared, run).log;
    StopsExactly(rule, run.log, q);
    assert after == run.log + q;
  }

  /** Two pairs on an empty component are both asked for, although the callback refuses everything. */
  lemma RefusedPairsGoOn(rule: Rule, values: nat, a: Payload, b: Payload, run: Run)
    requires rule.single && run == Run(map[], run.urls, [], Fine) && a.key != "" && b.key != ""
    requires (forall m: Contents :: rule.rebuilds(m)) && forall log: seq<Request>, q: Request :: !rule.accepts(log, q)
    ensures var r := Parts(rule, values, [a, b], {}, run);
            |r.log| == 2 && r.error == Fine && !EndsAtRefusal(rule, [], r.log)
  {
    var ps, one := [a, b], PairRequest(rule, values, map[], run.urls, a);
    var two := PairRequest(rule, values, map[], one.1, b);
    assert ps[1..] == [b] && [b][1..] == [];
    assert PairsFromSame(rule, values, map[], one.1, [b]) == two.0 + [];
    assert PairsFromSame(rule, values, map[], run.urls, ps) == one.0 + two.0;
    var q := one.0 + two.0;
    UnsharedPairsFromSame(rule, values, ps, run);
    assert |one.0| == 1 && |two.0| == 1 && q[1..] == two.0 && two.0[1..] == [];
    BuiltOne(rule, two.0);
    assert Built(rule, q) == q;
    PairsIgnoreRefusals(rule, values, ps, {}, run);
    PairsStopExactly(rule, values, ps, {}, run);
    assert !rule.accepts([] + q[..0], q[0]);
  }

  /** All the pairs stored one after the other, failures skipped. */
  lemma {:induction false} StorePairsKeepLog(rule: Rule, values: nat, ps: seq<Payload>, run: Run)
    ensures StorePairs(rule, values, ps, run).log == run.log && StorePairs(rule, values, ps, run).error == run.error
    decreases |ps|
  {
    if ps != [] { StorePairsKeepLog(rule, values, ps[1..], StorePair(rule, values, ps[0], run)); }
  }

  lemma {:induction false} PairsMakeNoRequest(rule: Rule, values: nat, ps: seq<Payload>, shared: set<string>, run: Run)
    requires !rule.single && run.error == Fine && forall i | 0 <= i < |ps| :: ps[i].key != ""
    ensures var r := Parts(rule, values, ps, shared, run); r.log == run.log && r.error == Fine
    decreases |ps|
  {
    if ps != [] {
      PartsOnce(rule, values, ps, shared, run);
      PairsMakeNoRequest(rule, values, ps[1..], shared, Part(rule, values, ps[0], shared, run).(error := Fine));
    }
  }

  /** Pairs in multiple mode make exactly one request, if it can be rebuilt, with all of them stored in
      the component itself. */
  lemma PairsTogether(rule: Rule, values: nat, ps: seq<Payload>, shared: set<string>, run: Run)
    requires !rule.single && run.error == Fine && forall i | 0 <= i < |ps| :: ps[i].key != ""
    ensures var stored, r := StorePairs(rule, values, ps, Parts(rule, values, ps, shared, run)), Pairs(rule, values, ps, shared, run);
            var q := Request(stored.contents, stored.urls, "");
            && r.contents == stored.contents && r.error == Answered(rule, run.log, q)
            && r.log == if rule.rebuilds(q.contents) then run.log + [q] else run.log
  {
    PairsMakeNoRequest(rule, values, ps, shared, run);
    StorePairsKeepLog(rule, values, ps, Parts(rule, values, ps, shared, run));
    assert ParseInt("") == None;
  }
}
