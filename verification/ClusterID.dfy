/** The name of a cluster before it is hashed: the sorted identifiers of its templates, joined by
    commas. Resume records are kept under that name, so it must depend on the templates alone. */
module ClusterID {

  // ---- The order of strings ----

  predicate AtMost(a: string, b: string) {
    if a == "" then true
    else if b == "" then false
    else a[0] < b[0] || (a[0] == b[0] && AtMost(a[1..], b[1..]))
  }

  lemma {:induction false} AtMostTotal(a: string, b: string)
    ensures AtMost(a, b) || AtMost(b, a)
    ensures AtMost(a, b) && AtMost(b, a) ==> a == b
  {
    if a != "" && b != "" {
      AtMostTotal(a[1..], b[1..]);
      assert a == [a[0]] + a[1..] && b == [b[0]] + b[1..];
    }
  }

  lemma {:induction false} AtMostTransitive(a: string, b: string, c: string)
    requires AtMost(a, b) && AtMost(b, c)
    ensures AtMost(a, c)
  {
    if a != "" && b[0] == a[0] && c[0] == a[0] { AtMostTransitive(a[1..], b[1..], c[1..]); }
  }

  // ---- Sorting ----

  ghost predicate Sorted(s: seq<string>) {
    forall i, j | 0 <= i < j < |s| :: AtMost(s[i], s[j])
  }

  function Insert(s: seq<string>, x: string): seq<string> {
    if s == [] || AtMost(s[|s| - 1], x) then s + [x]
    else Insert(s[..|s| - 1], x) + [s[|s| - 1]]
  }

  function Sort(s: seq<string>): seq<string> {
    if s == [] then [] else Insert(Sort(s[..|s| - 1]), s[|s| - 1])
  }

  lemma {:induction false} InsertKeeps(s: seq<string>, x: string)
    ensures multiset(Insert(s, x)) == multiset(s) + multiset{x}
  {
    if s != [] && !AtMost(s[|s| - 1], x) {
      InsertKeeps(s[..|s| - 1], x);
      assert s == s[..|s| - 1] + [s[|s| - 1]];
    }
  }

  lemma SortedSnoc(s: seq<string>, x: string)
    requires Sorted(s) && forall y | y in s :: AtMost(y, x)
    ensures Sorted(s + [x])
  {
  }

  lemma InsertedMembers(s: seq<string>, x: string, y: string)
    requires y in Insert(s, x)
    ensures y in s || y == x
  {
    InsertKeeps(s, x);
    assert y in multiset(Insert(s, x));
  }

  lemma AllAtMostLast(s: seq<string>, x: string)
    requires Sorted(s) && s != [] && AtMost(s[|s| - 1], x)
    ensures forall y | y in s :: AtMost(y, x)
  {
    forall i | 0 <= i < |s| ensures AtMost(s[i], x) {
      if i < |s| - 1 { AtMostTransitive(s[i], s[|s| - 1], x); }
    }
  }

  lemma {:induction false} InsertSorted(s: seq<string>, x: string)
    requires Sorted(s)
    ensures Sorted(Insert(s, x))
  {
    if s == [] {
    } else if AtMost(s[|s| - 1], x) {
      AllAtMostLast(s, x);
      SortedSnoc(s, x);
    } else {
      var front, last := s[..|s| - 1], s[|s| - 1];
      InsertSorted(front, x);
      AtMostTotal(last, x);
      forall y | y in Insert(front, x) ensures AtMost(y, last) { InsertedMembers(front, x, y); }
      SortedSnoc(Insert(front, x), last);
    }
  }

  /** What a sort promises: the same strings, in order. */
  ghost predicate IsSortOf(sorted: seq<string>, s: seq<string>) {
    Sorted(sorted) && multiset(sorted) == multiset(s)
  }

  lemma SortsNext(front: seq<string>, x: string)
    requires IsSortOf(Sort(front), front)
    ensures IsSortOf(Sort(front + [x]), front + [x])
  {
    assert (front + [x])[..|front|] == front;
    InsertSorted(Sort(front), x);
    InsertKeeps(Sort(front), x);
  }

  lemma {:induction false} SortSorts(s: seq<string>)
    ensures IsSortOf(Sort(s), s)
  {
    if s != [] {
      var front, x := s[..|s| - 1], s[|s| - 1];
      SortSorts(front);
      SortsNext(front, x);
      assert s == front + [x];
    }
  }

  lemma FirstIsLeast(s: seq<string>, x: string)
    requires Sorted(s) && x in multiset(s)
    ensures AtMost(s[0], x)
  {
    AtMostTotal(x, x);
  }

  lemma SameFirst(a: seq<string>, b: seq<string>)
    requires Sorted(a) && Sorted(b) && multiset(a) == multiset(b) && a != [] && b != []
    ensures a[0] == b[0] && multiset(a[1..]) == multiset(b[1..])
  {
    var x, y := a[0], b[0];
    assert x in multiset(a) && y in multiset(b);
    FirstIsLeast(a, y);
    FirstIsLeast(b, x);
    AtMostTotal(x, y);
    WithoutFirst(a);
    WithoutFirst(b);
  }

  lemma WithoutFirst(s: seq<string>)
    requires s != []
    ensures multiset(s[1..]) == multiset(s) - multiset{s[0]}
  {
    assert s == [s[0]] + s[1..];
  }

  /** Two sorted lists of the same strings are the same list, whatever algorithm sorted them. */
  lemma {:induction false} SortedUnique(a: seq<string>, b: seq<string>)
    requires Sorted(a) && Sorted(b) && multiset(a) == multiset(b)
    ensures a == b
  {
    assert |a| == |multiset(a)| && |b| == |multiset(b)|;
    if a != [] {
      SameFirst(a, b);
      SortedUnique(a[1..], b[1..]);
      assert a == [a[0]] + a[1..] && b == [b[0]] + b[1..];
    }
  }

  // ---- Joining and splitting ----

  function Join(ids: seq<string>): string {
    if ids == [] then "" else if |ids| == 1 then ids[0] else ids[0] + "," + Join(ids[1..])
  }

  /** The part of a string before its first comma. */
  function Head(s: string): string {
    if s == "" || s[0] == ',' then "" else [s[0]] + Head(s[1..])
  }

  lemma {:induction false} HeadIsPrefix(s: string)
    ensures Head(s) <= s
  {
    if s != "" && s[0] != ',' { HeadIsPrefix(s[1..]); }
  }

  lemma {:induction false} HeadOf(id: string, rest: string)
    requires ',' !in id && (rest == "" || rest[0] == ',')
    ensures Head(id + rest) == id
  {
    if id == "" {
      assert id + rest == rest;
    } else {
      HeadOf(id[1..], rest);
      assert (id + rest)[1..] == id[1..] + rest;
    }
  }

  function Split(s: string): seq<string>
    decreases |s|
  {
    HeadIsPrefix(s);
    var h := Head(s);
    if |h| == |s| then [h] else [h] + Split(s[|h| + 1..])
  }

  lemma SplitLast(id: string)
    requires ',' !in id
    ensures Split(id) == [id]
  {
    HeadOf(id, "");
    assert id + "" == id;
  }

  lemma SplitFirst(id: string, rest: string)
    requires ',' !in id
    ensures Split(id + "," + rest) == [id] + Split(rest)
  {
    var s := id + "," + rest;
    assert s == id + ("," + rest);
    HeadOf(id, "," + rest);
    assert s[|id| + 1..] == rest;
  }

  lemma {:induction false} SplitJoin(ids: seq<string>)
    requires ids != [] && forall id | id in ids :: ',' !in id
    ensures Split(Join(ids)) == ids
  {
    if |ids| == 1 {
      SplitLast(ids[0]);
    } else {
      SplitFirst(ids[0], Join(ids[1..]));
      SplitJoin(ids[1..]);
      assert ids == [ids[0]] + ids[1..];
    }
  }

  // ---- Valid identifiers ----

  predicate IsAlphanumeric(c: char) { 'a' <= c <= 'z' || 'A' <= c <= 'Z' || '0' <= c <= '9' }

  predicate IsSeparator(c: char) { c == '-' || c == '_' }

  predicate IsWord(s: string) { s != "" && forall c | c in s :: IsAlphanumeric(c) }

  /** The language of the regular expression for identifiers: words, each but the last followed by
      one separator. */
  ghost predicate ValidID(s: string)
    decreases |s|
  {
    IsWord(s) || exists i | 0 <= i < |s| :: IsWord(s[..i]) && IsSeparator(s[i]) && ValidID(s[i + 1..])
  }

  /** An identifier is valid exactly when it starts and ends with a letter or digit, holds nothing
      but letters, digits and separators, and never has two separators in a row. */
  ghost predicate WellFormed(s: string) {
    && s != "" && IsAlphanumeric(s[0]) && IsAlphanumeric(s[|s| - 1])
    && (forall c | c in s :: IsAlphanumeric(c) || IsSeparator(c))
    && forall i | 0 <= i < |s| - 1 :: IsAlphanumeric(s[i]) || IsAlphanumeric(s[i + 1])
  }

  /** The length of the first word of a string. */
  function WordLength(s: string): (n: nat) {
    if s == "" || !IsAlphanumeric(s[0]) then 0 else 1 + WordLength(s[1..])
  }

  lemma {:induction false} FirstWord(s: string)
    ensures WordLength(s) <= |s|
    ensures forall i | 0 <= i < WordLength(s) :: IsAlphanumeric(s[i])
    ensures WordLength(s) < |s| ==> !IsAlphanumeric(s[WordLength(s)])
  {
    if s != "" && IsAlphanumeric(s[0]) {
      FirstWord(s[1..]);
      assert forall i | 1 <= i < |s| :: s[i] == s[1..][i - 1];
    }
  }

  lemma {:induction false} ValidIDExactly(s: string)
    ensures ValidID(s) <==> WellFormed(s)
    decreases |s|
  {
    if WellFormed(s) { WellFormedIsValid(s); }
    if ValidID(s) && !IsWord(s) {
      var i :| 0 <= i < |s| && IsWord(s[..i]) && IsSeparator(s[i]) && ValidID(s[i + 1..]);
      ValidIDExactly(s[i + 1..]);
      TwoParts(s, i);
    }
  }

  lemma TwoParts(s: string, i: nat)
    requires i < |s| && IsWord(s[..i]) && IsSeparator(s[i]) && WellFormed(s[i + 1..])
    ensures WellFormed(s)
  {
    var a, b := s[..i], s[i + 1..];
    forall k | 0 <= k < |s| ensures IsAlphanumeric(s[k]) || (k >= i && IsSeparator(s[k])) {
      if k < i { assert s[k] == a[k]; } else if k > i { assert s[k] == b[k - i - 1]; }
    }
    forall k | 0 <= k < |s| - 1 ensures IsAlphanumeric(s[k]) || IsAlphanumeric(s[k + 1]) {
      if k == i { assert s[k + 1] == b[0]; }
      if k > i { assert s[k] == b[k - i - 1] && s[k + 1] == b[k - i]; }
    }
    assert s[0] == a[0] && s[|s| - 1] == b[|b| - 1];
  }

  lemma {:induction false} WellFormedIsValid(s: string)
    requires WellFormed(s)
    ensures ValidID(s)
    decreases |s|
  {
    FirstWord(s);
    var i := WordLength(s);
    if i < |s| {
      var b := s[i + 1..];
      assert IsSeparator(s[i]) by { assert s[i] in s; }
      assert IsWord(s[..i]);
      assert forall k | 0 <= k < |b| :: b[k] == s[i + 1 + k];
      assert b != "" && IsAlphanumeric(s[i + 1]);
      assert WellFormed(b);
      WellFormedIsValid(b);
    }
  }

  lemma ValidIDHasNoComma(s: string)
    requires ValidID(s)
    ensures s != "" && ',' !in s
  {
    ValidIDExactly(s);
  }

  // ---- The name of a cluster ----

  /** The joined identifiers, as the loop, the sort and the join compute them. */
  method JoinedIDs(ids: seq<string>) returns (joined: string)
    ensures joined == Join(Sort(ids))
  {
    var all: seq<string> := [];
    for i := 0 to |ids|
      invariant all == ids[..i]
    {
      all := all + [ids[i]];
    }
    assert ids[..|ids|] == ids;
    joined := Join(Sort(all));
  }

  /** No list of valid identifiers but the empty one joins to nothing. */
  lemma JoinedNothing(ids: seq<string>)
    requires forall id | id in ids :: id != ""
    ensures Join(ids) == "" <==> ids == []
  {
    assert ids != [] ==> ids[0] in ids;
  }

  lemma SortedApart(a: seq<string>, b: seq<string>)
    requires (forall id | id in a :: ValidID(id)) && forall id | id in b :: ValidID(id)
    requires Join(a) == Join(b)
    ensures a == b
  {
    forall id | id in a ensures id != "" && ',' !in id { ValidIDHasNoComma(id); }
    forall id | id in b ensures id != "" && ',' !in id { ValidIDHasNoComma(id); }
    JoinedNothing(a);
    JoinedNothing(b);
    if a != [] {
      SplitJoin(a);
      SplitJoin(b);
    }
  }

  /** For valid identifiers, two clusters have the same name exactly when they have the same
      templates with the same multiplicities, in whatever order. */
  lemma NameExactly(a: seq<string>, b: seq<string>)
    requires (forall id | id in a :: ValidID(id)) && forall id | id in b :: ValidID(id)
    ensures Join(Sort(a)) == Join(Sort(b)) <==> multiset(a) == multiset(b)
  {
    SortSorts(a);
    SortSorts(b);
    if multiset(a) == multiset(b) { SortedUnique(Sort(a), Sort(b)); }
    if Join(Sort(a)) == Join(Sort(b)) {
      forall id | id in Sort(a) ensures ValidID(id) { assert id in multiset(Sort(a)); }
      forall id | id in Sort(b) ensures ValidID(id) { assert id in multiset(Sort(b)); }
      SortedApart(Sort(a), Sort(b));
    }
  }

  lemma SortOne(x: string)
    ensures Sort([x]) == [x]
  {
    assert [x][..0] == [];
  }

  lemma SortTwo(x: string, y: string)
    ensures Sort([x, y]) == if AtMost(x, y) then [x, y] else [y, x]
  {
    SortOne(x);
    assert [x, y][..1] == [x] && [x][..0] == [];
    assert Insert([], y) == [y];
    assert Sort([x, y]) == Insert([x], y);
    assert Insert([x], y) == if AtMost(x, y) then [x] + [y] else [y] + [x];
  }

  lemma JoinTwo(x: string, y: string)
    ensures Join([x, y]) == x + "," + y
  {
    assert [x, y][1..] == [y];
    assert Join([y]) == y;
  }

  /** Without the check of the identifiers, an identifier of two parts and a comma shares its name with
      the cluster of its parts exactly when the parts are in order, or their order makes no
      difference. */
  lemma CommaCollidesExactly(x: string, y: string)
    ensures !ValidID(x + "," + y)
    ensures Join(Sort([x + "," + y])) == Join(Sort([x, y])) <==> AtMost(x, y) || x + "," + y == y + "," + x
  {
    var xy := x + "," + y;
    assert xy[|x|] == ',';
    if ValidID(xy) { ValidIDHasNoComma(xy); }
    SortOne(xy);
    SortTwo(x, y);
    JoinTwo(x, y);
    JoinTwo(y, x);
  }

  /** For parts without commas: exactly when they are in order. */
  lemma CommaCollides(x: string, y: string)
    requires ',' !in x && ',' !in y
    ensures Join(Sort([x + "," + y])) == Join(Sort([x, y])) <==> AtMost(x, y)
  {
    CommaCollidesExactly(x, y);
    if x + "," + y == y + "," + x {
      SplitJoin([x, y]);
      SplitJoin([y, x]);
      JoinTwo(x, y);
      JoinTwo(y, x);
      assert [x, y][0] == [y, x][0];
      AtMostTotal(x, y);
    }
  }
}
