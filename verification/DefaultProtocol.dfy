/** The match and extract functions that most protocols use: they look at a named part of the data
    only, save for DSL expressions and for key-value extraction that ignores case. */
module DefaultProtocol {
  import opened Operators
  import opened ClusterExecuter
  import opened ClusterMeaning

  /** What matchers and extractors do with a text or with the whole data. */
  datatype Library = Library(
    toText: Value -> string,
    matchText: (Matcher, string) -> (bool, seq<string>),
    matchData: (Matcher, Data) -> bool,
    extractText: (Extractor, string) -> seq<string>,
    extractData: (Extractor, Data) -> seq<string>)

  function Part(part: string): string {
    if part == "" then "response" else part
  }

  const TEXT_MATCHERS := {"size", "word", "regex", "binary", "xpath"}
  const TEXT_EXTRACTORS := {"regex", "json", "xpath"}

  /** MakeDefaultMatchFunc. */
  function DefaultMatch(lib: Library, data: Data, m: Matcher): (bool, seq<string>) {
    var part := Part(m.part);
    if part !in data && m.kind != "dsl" then (false, [])
    else if m.kind in TEXT_MATCHERS then lib.matchText(m, lib.toText(data[part]))
    else if m.kind == "dsl" then (lib.matchData(m, data), [])
    else (false, [])
  }

  /** ExtractKval: the texts of the listed keys that are present, each once. */
  function KeyValues(lib: Library, data: Data, keys: seq<string>): seq<string> {
    if keys == [] then []
    else
      var last := |keys| - 1;
      var before := KeyValues(lib, data, keys[..last]);
      if keys[last] !in data || lib.toText(data[keys[last]]) in before then before
      else before + [lib.toText(data[keys[last]])]
  }

  /** MakeDefaultExtractFunc. */
  function DefaultExtract(lib: Library, data: Data, e: Extractor): seq<string> {
    var part := Part(e.part);
    if part !in data && e.kind !in {"kval", "dsl"} then []
    else if e.kind in TEXT_EXTRACTORS then lib.extractText(e, lib.toText(data[part]))
    else if e.kind == "kval" && !e.ignoreCase then KeyValues(lib, data, e.keys)
    else if e.kind == "kval" || e.kind == "dsl" then lib.extractData(e, data)
    else []
  }

  function ExtractorKeys(e: Extractor): set<string> {
    if e.kind == "kval" then set k | k in e.keys else {Part(e.part)}
  }

  function DefaultFootprint(item: set<string>): Footprint {
    Footprint((m: Matcher) => {Part(m.part)}, (e: Extractor) => ExtractorKeys(e), item)
  }

  /** No DSL expression, and no key-value extraction that ignores case. */
  predicate Plain(ops: Operators) {
    && (forall m | m in ops.matchers :: m.kind != "dsl")
    && (forall e | e in ops.extractors :: e.kind != "dsl" && (e.kind == "kval" ==> !e.ignoreCase))
  }

  lemma {:induction false} KeyValuesLocal(lib: Library, a: Data, b: Data, keys: seq<string>)
    requires Agree(a, b, set k | k in keys)
    ensures KeyValues(lib, a, keys) == KeyValues(lib, b, keys)
  {
    if keys != [] {
      var last := |keys| - 1;
      assert keys[last] in set k | k in keys;
      KeyValuesLocal(lib, a, b, keys[..last]);
    }
  }

  /** Under the default functions plain operators read the parts and keys that they name, and no other. */
  lemma DefaultIsLocal(lib: Library, p: Protocol, item: set<string>, ops: Operators)
    requires forall d, m :: p.env.matching(d, m) == DefaultMatch(lib, d, m)
    requires forall d, e :: p.env.extracting(d, e) == DefaultExtract(lib, d, e)
    requires Plain(ops)
    ensures Local(p, DefaultFootprint(item), ops)
  {
    var f := DefaultFootprint(item);
    forall a, b, m | m in ops.matchers && Agree(a, b, f.matcher(m)) ensures p.env.matching(a, m) == p.env.matching(b, m) {
      assert Part(m.part) in f.matcher(m);
    }
    forall a, b, e | e in ops.extractors && Agree(a, b, f.extractor(e)) ensures p.env.extracting(a, e) == p.env.extracting(b, e) {
      if e.kind == "kval" {
        KeyValuesLocal(lib, a, b, e.keys);
      } else {
        assert Part(e.part) in f.extractor(e);
      }
    }
  }
}
