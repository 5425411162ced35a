/** The filter of templates by tags, authors, severities, types, identifiers and conditions. Glob
    patterns and conditions are parameters. */
module TagFilter {
  import ClusterID

  datatype Option<T> = None | Some(value: T)

  type Severity = nat
  type Protocol = nat

  const UNDEFINED: Severity := 0
  const INVALID: Protocol := 0

  datatype Template = Template(tags: seq<string>, authors: seq<string>, severity: Severity, protocol: Protocol, id: string)

  datatype Config = Config(
    tags: seq<string>, excludeTags: seq<string>, authors: seq<string>,
    severities: seq<Severity>, excludeSeverities: seq<Severity>,
    includeTags: seq<string>, includeIds: seq<string>, excludeIds: seq<string>,
    protocols: seq<Protocol>, excludeProtocols: seq<Protocol>, conditions: seq<string>)

  /** A glob pattern against an identifier (none when the pattern is malformed), the compilation of a
      condition, and whether a compiled condition is true of a template. */
  datatype Env = Env(
    glob: (string, string) -> Option<bool>, compile: string -> Option<nat>, holds: (nat, Template) -> bool)

  datatype Verdict = Matches | NoMatch | Excluded

  // ---- The values of an option ----

  function Lower(s: string): string {
    if s == "" then "" else
      Lower(s[..|s| - 1]) + [if 'A' <= s[|s| - 1] <= 'Z' then (s[|s| - 1] as int + 32) as char else s[|s| - 1]]
  }

  predicate IsSpace(c: char) { c in [' ', '\t', '\n', '\r', 11 as char, 12 as char] }

  function TrimSpace(s: string): string {
    if s != "" && IsSpace(s[0]) then TrimSpace(s[1..])
    else if s != "" && IsSpace(s[|s| - 1]) then TrimSpace(s[..|s| - 1])
    else s
  }

  /** A value without a comma is not trimmed. */
  method SplitCommaTrim(value: string) returns (vals: seq<string>)
    ensures vals == Parts(value)
  {
    if ',' !in value { return [Lower(value)]; }
    var split := ClusterID.Split(value);
    vals := [];
    for i := 0 to |split|
      invariant vals == Normal(split[..i])
    {
      assert split[..i + 1][..i] == split[..i];
      vals := vals + [Lower(TrimSpace(split[i]))];
    }
    assert split[..|split|] == split;
  }

  function Normal(parts: seq<string>): seq<string> {
    if parts == [] then [] else Normal(parts[..|parts| - 1]) + [Lower(TrimSpace(parts[|parts| - 1]))]
  }

  function Parts(value: string): seq<string> {
    if ',' !in value then [Lower(value)] else Normal(ClusterID.Split(value))
  }

  function Members<T>(xs: seq<T>): set<T> { set x | x in xs }

  /** The values that a list of options stands for. */
  function Values(options: seq<string>): set<string> {
    if options == [] then {} else Values(options[..|options| - 1]) + Members(Parts(options[|options| - 1]))
  }

  lemma ValuesSnoc(options: seq<string>, o: string)
    ensures Values(options + [o]) == Values(options) + Members(Parts(o))
  {
    assert (options + [o])[..|options|] == options;
  }

  // ---- What a filter should say ----

  function Blocked(c: Config): set<string> { Values(c.excludeTags) - Values(c.includeTags) }

  /** Identifiers that are also blocked tags are not recorded as excluded. */
  function ExcludedIds(c: Config): set<string> { Values(c.excludeIds) - Blocked(c) - Values(c.includeIds) }

  ghost predicate IsExcluded(c: Config, t: Template) { exists tag :: tag in t.tags && tag in Blocked(c) }

  ghost predicate Listed<T(!new)>(wanted: set<T>, have: seq<T>) { wanted == {} || exists x :: x in wanted && x in have }

  predicate Chosen(included: set<nat>, excluded: set<nat>, x: nat) { (included == {} || x in included) && x !in excluded }

  ghost predicate IdAllowed(env: Env, allowed: set<string>, id: string) {
    allowed == {} || exists p :: p in allowed && env.glob(p, id) == Some(true)
  }

  ghost predicate ConditionsHold(env: Env, conditions: seq<string>, t: Template) {
    forall s | s in conditions :: env.compile(s).Some? && env.holds(env.compile(s).value, t)
  }

  /** The seven tests, stated about the configuration, but for the excluded identifiers. */
  ghost predicate PassesOthers(env: Env, c: Config, t: Template, extraTags: seq<string>) {
    && (extraTags == [] || exists x :: x in extraTags && x in t.tags)
    && Listed(Values(c.tags), t.tags)
    && Listed(Values(c.authors), t.authors)
    && (t.severity == UNDEFINED || Chosen(Members(c.severities), Members(c.excludeSeverities), t.severity))
    && (t.protocol == INVALID || Chosen(Members(c.protocols), Members(c.excludeProtocols), t.protocol))
    && IdAllowed(env, Values(c.includeIds), Lower(t.id))
    && ConditionsHold(env, c.conditions, t)
  }

  ghost predicate Passes(env: Env, c: Config, t: Template, extraTags: seq<string>) {
    PassesOthers(env, c, t, extraTags) && Lower(t.id) !in ExcludedIds(c)
  }

  ghost function VerdictOf(env: Env, c: Config, t: Template, extraTags: seq<string>): Verdict {
    if IsExcluded(c, t) then Excluded else if Passes(env, c, t, extraTags) then Matches else NoMatch
  }

  // ---- The filter ----

  class TagFilter {
    var allowedTags: set<string>
    var severities: set<Severity>
    var excludeSeverities: set<Severity>
    var authors: set<string>
    var block: set<string>
    var matchAllows: set<string>
    var types: set<Protocol>
    var excludeTypes: set<Protocol>
    var allowedIds: set<string>
    var excludeIds: set<string>
    var conditions: map<string, nat>

    /** The filter that a configuration stands for. */
    ghost predicate Represents(env: Env, c: Config)
      reads this
    {
      && RepresentsTags(c) && RepresentsKinds(c) && RepresentsIds(c) && Compiles(env, c.conditions, conditions)
    }

    ghost predicate RepresentsTags(c: Config)
      reads `allowedTags, `authors, `block, `matchAllows
    {
      && allowedTags == Values(c.tags) && authors == Values(c.authors)
      && block == Blocked(c) && matchAllows == Values(c.includeTags) && block !! matchAllows
    }

    ghost predicate RepresentsKinds(c: Config)
      reads `severities, `excludeSeverities, `types, `excludeTypes
    {
      && severities == Members(c.severities) && excludeSeverities == Members(c.excludeSeverities)
      && types == Members(c.protocols) && excludeTypes == Members(c.excludeProtocols)
    }

    ghost predicate RepresentsIds(c: Config)
      reads `allowedIds, `excludeIds
    {
      allowedIds == Values(c.includeIds) && excludeIds == ExcludedIds(c) && excludeIds !! allowedIds
    }

    method SetTags(c: Config)
      modifies `allowedTags, `authors, `block, `matchAllows
      requires matchAllows == {}
      ensures RepresentsTags(c)
    {
      block := Collect(c.excludeTags);
      authors := Collect(c.authors);
      allowedTags := Collect(c.tags);
      IncludeTags(c.includeTags);
    }

    method SetIds(c: Config)
      modifies `allowedIds, `excludeIds
      requires block == Blocked(c) && allowedIds == {} && excludeIds == {}
      ensures RepresentsIds(c)
    {
      ExcludeIds(c.excludeIds);
      IncludeIds(c.includeIds);
    }

    constructor ()
      ensures allowedTags == authors == block == matchAllows == allowedIds == excludeIds == {}
      ensures severities == excludeSeverities == types == excludeTypes == {} && conditions == map[]
    {
      allowedTags, authors, block, matchAllows, allowedIds, excludeIds := {}, {}, {}, {}, {}, {};
      severities, excludeSeverities, types, excludeTypes, conditions := {}, {}, {}, {}, map[];
    }

    /** The include tags are taken off the block list. */
    method IncludeTags(options: seq<string>)
      modifies `matchAllows, `block
      ensures matchAllows == old(matchAllows) + Values(options) && block == old(block) - Values(options)
    {
      for i := 0 to |options|
        invariant matchAllows == old(matchAllows) + Values(options[..i]) && block == old(block) - Values(options[..i])
      {
        assert options[..i + 1] == options[..i] + [options[i]];
        ValuesSnoc(options[..i], options[i]);
        var vals := SplitCommaTrim(options[i]);
        matchAllows := matchAllows + Members(vals);
        block := block - Members(vals);
      }
      assert options[..|options|] == options;
    }

    method ExcludeIds(options: seq<string>)
      modifies `excludeIds
      ensures excludeIds == old(excludeIds) + (Values(options) - block)
    {
      for i := 0 to |options|
        invariant excludeIds == old(excludeIds) + (Values(options[..i]) - block)
      {
        assert options[..i + 1] == options[..i] + [options[i]];
        ValuesSnoc(options[..i], options[i]);
        var vals := SplitCommaTrim(options[i]);
        excludeIds := excludeIds + (Members(vals) - block);
      }
      assert options[..|options|] == options;
    }

    method IncludeIds(options: seq<string>)
      modifies `allowedIds, `excludeIds
      ensures allowedIds == old(allowedIds) + Values(options) && excludeIds == old(excludeIds) - Values(options)
    {
      for i := 0 to |options|
        invariant allowedIds == old(allowedIds) + Values(options[..i]) && excludeIds == old(excludeIds) - Values(options[..i])
      {
        assert options[..i + 1] == options[..i] + [options[i]];
        ValuesSnoc(options[..i], options[i]);
        var vals := SplitCommaTrim(options[i]);
        allowedIds := allowedIds + Members(vals);
        excludeIds := excludeIds - Members(vals);
      }
      assert options[..|options|] == options;
    }

    method IncludeConditions(env: Env, list: seq<string>) returns (ok: bool)
      modifies `conditions
      requires conditions == map[]
      ensures ok <==> forall s | s in list :: env.compile(s).Some?
      ensures ok ==> Compiles(env, list, conditions)
    {
      for i := 0 to |list|
        invariant (forall s | s in list[..i] :: env.compile(s).Some?) && Compiles(env, list[..i], conditions)
      {
        assert list[..i + 1] == list[..i] + [list[i]];
        var compiled := env.compile(list[i]);
        if compiled == None {
          assert list[i] in list;
          return false;
        }
        conditions := conditions[list[i] := compiled.value];
      }
      assert list[..|list|] == list;
      return true;
    }

    method Match(env: Env, ghost c: Config, t: Template, extraTags: seq<string>) returns (verdict: Verdict)
      requires Represents(env, c)
      ensures verdict == VerdictOf(env, c, t, extraTags)
    {
      for i := 0 to |t.tags|
        invariant forall j | 0 <= j < i :: t.tags[j] !in Blocked(c)
      {
        if t.tags[i] in block && t.tags[i] !in matchAllows { return Excluded; }
      }
      assert !IsExcluded(c, t);
      var ok := IsExtraTagMatch(extraTags, t.tags);
      if !ok { return NoMatch; }
      ok := IsTagMatch(t.tags);
      if !ok { return NoMatch; }
      ok := IsAuthorMatch(t.authors);
      if !ok { return NoMatch; }
      if !IsSeverityMatch(t.severity) { return NoMatch; }
      if !IsTemplateTypeMatch(t.protocol) { return NoMatch; }
      ok := IsIdMatch(env, Lower(t.id));
      if !ok { return NoMatch; }
      ok := IsConditionMatch(env, c.conditions, t);
      if !ok { return NoMatch; }
      return Matches;
    }

    function IsSeverityMatch(severity: Severity): (r: bool)
      reads this
      ensures r <==> severity == UNDEFINED || Chosen(severities, excludeSeverities, severity)
    {
      if (|excludeSeverities| == 0 && |severities| == 0) || severity == UNDEFINED then true
      else
        var included := |severities| > 0 ==> severity in severities;
        var excluded := |excludeSeverities| > 0 && severity in excludeSeverities;
        included && !excluded
    }

    function IsTemplateTypeMatch(protocol: Protocol): (r: bool)
      reads this
      ensures r <==> protocol == INVALID || Chosen(types, excludeTypes, protocol)
    {
      if |excludeTypes| == 0 && |types| == 0 then true
      else if protocol == INVALID then true
      else
        var included := |types| > 0 ==> protocol in types;
        var excluded := |excludeTypes| > 0 && protocol in excludeTypes;
        included && !excluded
    }

    method IsTagMatch(tags: seq<string>) returns (r: bool)
      ensures r <==> Listed(allowedTags, tags)
    {
      if |allowedTags| == 0 { return true; }
      for i := 0 to |tags|
        invariant forall j | 0 <= j < i :: tags[j] !in allowedTags
      {
        if tags[i] in allowedTags { return true; }
      }
      return false;
    }

    method IsAuthorMatch(have: seq<string>) returns (r: bool)
      ensures r <==> Listed(authors, have)
    {
      if |authors| == 0 { return true; }
      var todo, owned := authors, Members(have);
      while todo != {}
        invariant todo <= authors && forall a | a in authors && a !in todo :: a !in owned
      {
        var author :| author in todo;
        if author in owned { return true; }
        todo := todo - {author};
      }
      assert forall a | a in authors :: a !in have;
      return false;
    }

    method IsIdMatch(env: Env, id: string) returns (r: bool)
      ensures r <==> IdAllowed(env, allowedIds, id) && id !in excludeIds
    {
      if |excludeIds| == 0 && |allowedIds| == 0 { return true; }
      var included, todo := |allowedIds| == 0, allowedIds;
      while todo != {} && !included
        invariant todo <= allowedIds
        invariant included ==> IdAllowed(env, allowedIds, id)
        invariant !included ==> allowedIds != {} && forall p | p in allowedIds && p !in todo :: env.glob(p, id) != Some(true)
      {
        var pattern :| pattern in todo;
        todo := todo - {pattern};
        if env.glob(pattern, id) == Some(true) { included := true; }
      }
      var excluded := |excludeIds| > 0 && id in excludeIds;
      r := included && !excluded;
    }

    method IsConditionMatch(env: Env, ghost list: seq<string>, t: Template) returns (r: bool)
      requires Compiles(env, list, conditions)
      ensures r <==> ConditionsHold(env, list, t)
    {
      var todo := conditions.Keys;
      while todo != {}
        invariant todo <= conditions.Keys && forall s | s in conditions.Keys - todo :: env.holds(conditions[s], t)
      {
        var s :| s in todo;
        if !env.holds(conditions[s], t) { return false; }
        todo := todo - {s};
      }
      return true;
    }
  }

  /** Every condition of the list is kept with its compiled form. */
  ghost predicate Compiles(env: Env, list: seq<string>, conditions: map<string, nat>) {
    && (forall s :: s in conditions <==> s in list)
    && forall s | s in conditions :: env.compile(s) == Some(conditions[s])
  }

  method IsExtraTagMatch(extraTags: seq<string>, tags: seq<string>) returns (r: bool)
    ensures r <==> extraTags == [] || exists x :: x in extraTags && x in tags
  {
    if |extraTags| == 0 { return true; }
    var owned := Members(tags);
    for i := 0 to |extraTags|
      invariant forall j | 0 <= j < i :: extraTags[j] !in tags
    {
      if extraTags[i] in owned { return true; }
    }
    return false;
  }

  /** A loop over options that collects their values. */
  method Collect(options: seq<string>) returns (vals: set<string>)
    ensures vals == Values(options)
  {
    vals := {};
    for i := 0 to |options|
      invariant vals == Values(options[..i])
    {
      assert options[..i + 1] == options[..i] + [options[i]];
      ValuesSnoc(options[..i], options[i]);
      var more := SplitCommaTrim(options[i]);
      vals := vals + Members(more);
    }
    assert options[..|options|] == options;
  }

  method NewTagFilter(env: Env, c: Config) returns (ok: bool, filter: TagFilter)
    ensures ok <==> forall s | s in c.conditions :: env.compile(s).Some?
    ensures ok ==> filter.Represents(env, c)
    ensures fresh(filter)
  {
    filter := new TagFilter();
    filter.SetTags(c);
    filter.severities, filter.excludeSeverities := Members(c.severities), Members(c.excludeSeverities);
    filter.types, filter.excludeTypes := Members(c.protocols), Members(c.excludeProtocols);
    filter.SetIds(c);
    ok := filter.IncludeConditions(env, c.conditions);
  }

  // ---- More include tags ----

  lemma Including(c: Config, tag: string)
    ensures var c' := c.(includeTags := c.includeTags + [tag]);
            && Blocked(c') == Blocked(c) - Members(Parts(tag))
            && ExcludedIds(c') == ExcludedIds(c) + ((Values(c.excludeIds) - Values(c.includeIds)) * Blocked(c) * Members(Parts(tag)))
  {
    ValuesSnoc(c.includeTags, tag);
  }

  /** One more include tag never excludes a template that was not excluded; it ends the exclusion
      exactly of the templates whose blocked tags it all names. */
  lemma IncludeTagNeverExcludes(c: Config, tag: string, t: Template)
    ensures var c' := c.(includeTags := c.includeTags + [tag]);
            && (IsExcluded(c', t) ==> IsExcluded(c, t))
            && (!IsExcluded(c', t) <==> forall x | x in t.tags && x in Blocked(c) :: x in Parts(tag))
  {
    Including(c, tag);
    var c' := c.(includeTags := c.includeTags + [tag]);
    forall x | x in t.tags && x in Blocked(c') ensures x in Blocked(c) {}
    if IsExcluded(c', t) {
      var x :| x in t.tags && x in Blocked(c');
      assert x in t.tags && x in Blocked(c);
    } else {
      forall x | x in t.tags && x in Blocked(c) ensures x in Parts(tag) { assert x !in Blocked(c'); }
    }
  }

  /** But it can lose a match: exactly that of a template whose identifier is an excluded identifier
      that was spared for being a blocked tag, and is that tag no more. */
  lemma IncludeTagLosesExactly(env: Env, c: Config, tag: string, t: Template, extraTags: seq<string>)
    requires VerdictOf(env, c, t, extraTags) == Matches
    ensures VerdictOf(env, c.(includeTags := c.includeTags + [tag]), t, extraTags) != Matches
            <==> var id := Lower(t.id); id in Values(c.excludeIds) && id !in Values(c.includeIds) && id in Blocked(c) && id in Parts(tag)
  {
    var c' := c.(includeTags := c.includeTags + [tag]);
    Including(c, tag);
    IncludeTagNeverExcludes(c, tag, t);
    assert PassesOthers(env, c', t, extraTags) by { assert PassesOthers(env, c, t, extraTags); }
  }

  lemma LowerLetter(c: char)
    requires 'a' <= c <= 'z'
    ensures Lower([c]) == [c]
  {
    assert [c][..0] == "" && Lower("") == "";
  }

  lemma OneValue(s: string)
    requires ',' !in s && Lower(s) == s
    ensures Values([s]) == {s}
  {
    ValuesSnoc([], s);
    assert [] + [s] == [s] && Members([s]) == {s};
  }

  /** A template without tags, whose identifier is excluded and is a blocked tag, matches. */
  lemma SparedMatches(env: Env, c: Config, t: Template)
    requires c == Config([], [t.id], [], [], [], [], [], [t.id], [], [], []) && t == Template([], [], UNDEFINED, INVALID, t.id)
    requires ',' !in t.id && Lower(t.id) == t.id
    ensures VerdictOf(env, c, t, []) == Matches
  {
    OneValue(t.id);
    assert Values([]) == {};
    assert Blocked(c) == {t.id} && ExcludedIds(c) == {};
    assert PassesOthers(env, c, t, []);
  }

  /** An input: the template "b" without tags matches a filter that excludes "b" as a tag and as an
      identifier, and no longer once "b" is an include tag as well. */
  lemma IncludeTagLoses(env: Env)
    ensures var c := Config([], ["b"], [], [], [], [], [], ["b"], [], [], []);
            var t := Template([], [], UNDEFINED, INVALID, "b");
            VerdictOf(env, c, t, []) == Matches && VerdictOf(env, c.(includeTags := c.includeTags + ["b"]), t, []) == NoMatch
  {
    var c := Config([], ["b"], [], [], [], [], [], ["b"], [], [], []);
    var t := Template([], [], UNDEFINED, INVALID, "b");
    LowerLetter('b');
    SparedMatches(env, c, t);
    OneValue("b");
    assert Values([]) == {} && Parts("b") == ["b"];
    IncludeTagNeverExcludes(c, "b", t);
    IncludeTagLosesExactly(env, c, "b", t, []);
  }
}
