/** The values of a request component that is fuzzed: how a string is stored over a value of each
    kind, when storing the old text restores the old value, and the component as an object whose
    clone shares its lists. */
module FuzzComponent {

  datatype Option<T> = None | Some(value: T)

  /** A value as it is encoded. `Fraction` is a number that is not an integer, `Other` any value of a
      kind that cannot be set. */
  datatype Value =
    | Text(text: string) | Number(number: int) | Fraction(digits: string) | Flag(flag: bool) | Null
    | List(items: seq<string>) | Other(shown: string)

  type Contents = map<string, Value>

  // ---- Numbers in decimal ----

  const MIN_INT64 := -0x8000_0000_0000_0000
  const MAX_INT64 := 0x7fff_ffff_ffff_ffff

  function Digit(n: nat): char
    requires n < 10
  {
    '0' + n as char
  }

  predicate AllDigits(s: string) { forall i | 0 <= i < |s| :: '0' <= s[i] <= '9' }

  predicate IsDigits(s: string) { s != "" && AllDigits(s) }

  function DigitsOf(n: nat): string {
    if n < 10 then [Digit(n)] else DigitsOf(n / 10) + [Digit(n % 10)]
  }

  function NatOf(s: string): nat
    requires AllDigits(s)
  {
    if s == "" then 0 else 10 * NatOf(s[..|s| - 1]) + (s[|s| - 1] - '0') as nat
  }

  lemma {:induction false} DigitsRoundTrip(n: nat)
    ensures IsDigits(DigitsOf(n)) && NatOf(DigitsOf(n)) == n
  {
    if n >= 10 {
      DigitsRoundTrip(n / 10);
      assert DigitsOf(n)[..|DigitsOf(n)| - 1] == DigitsOf(n / 10);
    } else {
      assert DigitsOf(n)[..0] == "";
    }
  }

  function FormatInt(n: int): string { if n < 0 then "-" + DigitsOf(-n) else DigitsOf(n) }

  /** Base ten, an optional sign, 64 bits. */
  function ParseInt(s: string): Option<int> {
    var digits := if s != "" && (s[0] == '-' || s[0] == '+') then s[1..] else s;
    if !IsDigits(digits) then None
    else
      var n := if s[0] == '-' then 0 - NatOf(digits) else NatOf(digits);
      if MIN_INT64 <= n <= MAX_INT64 then Some(n) else None
  }

  lemma ParseFormatted(n: int)
    ensures ParseInt(FormatInt(n)) == if MIN_INT64 <= n <= MAX_INT64 then Some(n) else None
  {
    if n < 0 {
      DigitsRoundTrip(-n);
      assert FormatInt(n)[1..] == DigitsOf(-n);
    } else {
      DigitsRoundTrip(n);
      assert '0' <= DigitsOf(n)[0] <= '9';
    }
  }

  function ParseBool(s: string): Option<bool> {
    if s in ["1", "t", "T", "TRUE", "true", "True"] then Some(true)
    else if s in ["0", "f", "F", "FALSE", "false", "False"] then Some(false)
    else None
  }

  function FormatBool(b: bool): string { if b then "true" else "false" }

  // ---- Storing a string over a value ----

  function Joined(items: seq<string>): string {
    if items == [] then "" else if |items| == 1 then items[0] else Joined(items[..|items| - 1]) + " " + items[|items| - 1]
  }

  /** The text of a value, as the rules see it. */
  function Show(v: Value): string {
    match v
    case Text(s) => s
    case Number(n) => FormatInt(n)
    case Fraction(d) => d
    case Flag(b) => FormatBool(b)
    case Null => ""
    case List(items) => "[" + Joined(items) + "]"
    case Other(s) => s
  }

  /** A value keeps its kind; a list gets a new last item; the store may be impossible. */
  function Store(v: Value, s: string): Option<Value> {
    match v
    case Text(_) => Some(Text(s))
    case Null => Some(Text(s))
    case Number(_) => StoreNumber(s)
    case Fraction(_) => StoreNumber(s)
    case Flag(_) => if ParseBool(s).Some? then Some(Flag(ParseBool(s).value)) else None
    case List(items) => Some(List(if items == [] then [] else items[|items| - 1 := s]))
    case Other(_) => Some(v)
  }

  function StoreNumber(s: string): Option<Value> {
    if ParseInt(s).Some? then Some(Number(ParseInt(s).value)) else None
  }

  function StoreAt(m: Contents, key: string, s: string): Option<Value> {
    if key in m then Store(m[key], s) else Some(Text(s))
  }

  /** Storing the shown text of a value over what was stored in its place gives the value back. */
  predicate Restores(v: Value, s: string) {
    Store(v, s).Some? && Store(Store(v, s).value, Show(v)) == Some(v)
  }

  /** A fraction is shown with a decimal point, or as a word for infinity or for no number. */
  predicate WellShown(v: Value) {
    v.Fraction? ==> ParseInt(v.digits) == None
  }

  lemma {:induction false} JoinedIsLonger(items: seq<string>)
    requires items != []
    ensures |Joined(items)| >= |items[|items| - 1]|
  {
  }

  /** Which values come back: texts, flags, what cannot be set, 64-bit integers and empty lists. */
  lemma RestoresExactly(v: Value, s: string)
    requires WellShown(v) && Store(v, s).Some?
    ensures Restores(v, s) <==> v.Text? || v.Flag? || v.Other? || (v.Number? && MIN_INT64 <= v.number <= MAX_INT64) || v == List([])
  {
    match v {
      case Number(n) => ParseFormatted(n);
      case List(items) =>
        if items != [] {
          JoinedIsLonger(items);
          var last := |items| - 1;
          assert items[last := s][last := Show(v)][last] == Show(v) != items[last];
        }
      case _ =>
    }
  }

  // ---- The component as an object ----

  /** A value in memory. A decoded list lives in an array of its own; a typed slice is copied into
      one when it is set. */
  datatype Cell = Plain(value: Value) | Slice(items: seq<string>) | Shared(cells: array<string>)

  function ValueOf(cell: Cell): Value
    reads if cell.Shared? then {cell.cells} else {}
  {
    match cell
    case Plain(v) => v
    case Slice(items) => List(items)
    case Shared(cells) => List(cells[..])
  }

  method LastReplaced(items: seq<string>, s: string) returns (cells: array<string>)
    ensures fresh(cells) && List(cells[..]) == Store(List(items), s).value
  {
    cells := new string[|items|](i requires 0 <= i < |items| => items[i]);
    assert cells[..] == items;
    if cells.Length > 0 { cells[cells.Length - 1] := s; }
  }

  method StorePlain(v: Value, s: string) returns (stored: Option<Value>)
    requires !v.List?
    ensures stored == Store(v, s) && (stored.Some? ==> !stored.value.List?)
  {
    match v {
      case Text(_) => return Some(Text(s));
      case Null => return Some(Text(s));
      case Number(_) => var n := ParseInt(s); return if n == None then None else Some(Number(n.value));
      case Fraction(_) => var n := ParseInt(s); return if n == None then None else Some(Number(n.value));
      case Flag(_) => var b := ParseBool(s); return if b == None then None else Some(Flag(b.value));
      case _ => return Some(v);
    }
  }

  /** The lists of before are where they were. */
  ghost predicate InPlace(before: map<string, Cell>, d: Component)
    reads d
  {
    forall k | k in before && before[k].Shared? :: k in d.values && d.values[k] == before[k]
  }

  class Component {
    var values: map<string, Cell>

    ghost function Arrays(): set<object>
      reads this
    {
      set k | k in values && values[k].Shared? :: values[k].cells as object
    }

    /** No two keys hold the same array, and lists are held in arrays or slices. */
    ghost predicate Valid()
      reads this
    {
      && (forall k | k in values && values[k].Plain? :: !values[k].value.List?)
      && forall j, k | j in values && k in values && values[j].Shared? && values[k].Shared? && j != k :: values[j].cells != values[k].cells
    }

    function Contents(): Contents
      reads this, Arrays()
    {
      map k | k in values :: ValueOf(values[k])
    }

    constructor (values: map<string, Cell>)
      ensures this.values == values
    {
      this.values := values;
    }

    method Replace(key: string, cell: Cell)
      requires Valid() && (key in values ==> !values[key].Shared?)
      requires cell.Shared? ==> cell.cells as object !in Arrays()
      requires cell.Plain? ==> !cell.value.List?
      modifies this
      ensures Valid() && values == old(values)[key := cell] && Contents() == old(Contents())[key := ValueOf(cell)]
    {
      values := values[key := cell];
    }

    method WriteLast(key: string, s: string)
      requires Valid() && key in values && values[key].Shared?
      modifies values[key].cells
      ensures Contents() == old(Contents())[key := Store(old(Contents())[key], s).value]
    {
      var cells := values[key].cells;
      if cells.Length > 0 { cells[cells.Length - 1] := s; }
      assert forall k | k in values && k != key :: ValueOf(values[k]) == old(ValueOf(values[k]));
    }

    method SetValue(key: string, s: string) returns (ok: bool)
      requires Valid()
      modifies this, Arrays()
      ensures Valid() && InPlace(old(values), this) && fresh(Arrays() - old(Arrays()))
      ensures ok == StoreAt(old(Contents()), key, s).Some?
      ensures Contents() == if ok then old(Contents())[key := StoreAt(old(Contents()), key, s).value] else old(Contents())
      ensures SharedKeys(this) == old(SharedKeys(this)) + if key in Contents() && Contents()[key].List? then {key} else {}
    {
      if key !in values {
        Replace(key, Plain(Text(s)));
        return true;
      }
      match values[key] {
        case Shared(cells) =>
          WriteLast(key, s);
          return true;
        case Slice(items) =>
          var cells := LastReplaced(items, s);
          Replace(key, Shared(cells));
          return true;
        case Plain(v) =>
          var stored := StorePlain(v, s);
          if stored == None { return false; }
          Replace(key, Plain(stored.value));
          return true;
      }
    }

    method Delete(key: string) returns (ok: bool)
      modifies this
      ensures ok == (key in old(values)) && values == old(values) - {key}
      ensures Contents() == old(Contents()) - {key}
    {
      ok := key in values;
      values := values - {key};
    }

    method Clone() returns (d: Component)
      ensures fresh(d) && d.values == values && d.Contents() == Contents()
    {
      d := new Component(values);
    }
  }

  /** The keys whose lists a clone shares. */
  ghost function SharedKeys(c: Component): set<string>
    reads c
  {
    set k | k in c.values && c.values[k].Shared?
  }

  /** What a component holds once its clone was changed: its own values, except for shared lists. */
  ghost function Aliased(base: Contents, clone: Contents, shared: set<string>): Contents {
    map k | k in base :: if k in shared && k in clone then clone[k] else base[k]
  }
}
