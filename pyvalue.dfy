/** Python values as they come out of a JSON decoder, and the dict records the
    ingestors build from them. */
module PyValue {
  import opened Wrappers
  import opened Text

  /** A decoded value. A float carries the text Python's repr gives it, so that
      str() of a float is known without modelling floating point. The entries
      of a Dict are in insertion order. */
  datatype Value =
    | Null
    | Bool(b: bool)
    | Int(i: int)
    | Float(repr: string, r: real)
    | Str(s: string)
    | List(items: seq<Value>)
    | Dict(entries: seq<(string, Value)>)

  /** d.get(key) for the entries of a dict: the first entry with that key. */
  function Lookup(entries: seq<(string, Value)>, key: string): (r: Option<Value>)
    ensures r.Some? <==> exists i :: 0 <= i < |entries| && entries[i].0 == key
  {
    if entries == [] then None
    else if entries[0].0 == key then Some(entries[0].1)
    else
      var r := Lookup(entries[1..], key);
      assert forall i :: 1 <= i < |entries| ==> entries[1..][i - 1] == entries[i];
      r
  }

  /** The first entry with the key is the one found. */
  lemma {:induction false} LookupFirst(entries: seq<(string, Value)>, key: string, i: nat)
    requires i < |entries| && entries[i].0 == key
    requires forall j :: 0 <= j < i ==> entries[j].0 != key
    ensures Lookup(entries, key) == Some(entries[i].1)
  {
    if i > 0 {
      assert forall j :: 0 <= j < i - 1 ==> entries[1..][j] == entries[j + 1];
      LookupFirst(entries[1..], key, i - 1);
    }
  }

  /** `key in d` for the entries of a dict. */
  predicate Has(entries: seq<(string, Value)>, key: string) {
    Lookup(entries, key).Some?
  }

  /** d.get(key, default). */
  function GetOr(entries: seq<(string, Value)>, key: string, default: Value): Value {
    Lookup(entries, key).GetOr(default)
  }

  /** Python truthiness: None, False, 0, 0.0, "", [] and {} are false. */
  predicate Truthy(v: Value) {
    match v
    case Null => false
    case Bool(b) => b
    case Int(i) => i != 0
    case Float(_, r) => r != 0.0
    case Str(s) => s != ""
    case List(items) => items != []
    case Dict(entries) => entries != []
  }

  /** repr(v). Strings are shown in single quotes; the escaping of quotes and
      control characters inside them is not modelled. */
  function Repr(v: Value): string
    decreases v
  {
    match v
    case Null => "None"
    case Bool(b) => if b then "True" else "False"
    case Int(i) => IntToString(i)
    case Float(repr, _) => repr
    case Str(s) => "'" + s + "'"
    case List(items) =>
      "[" + Join(seq(|items|, i requires 0 <= i < |items| => Repr(items[i])), ", ") + "]"
    case Dict(entries) =>
      "{" + Join(seq(|entries|, i requires 0 <= i < |entries| =>
                   assert entries[i] in entries;
                   "'" + entries[i].0 + "': " + Repr(entries[i].1)), ", ") + "}"
  }

  /** str(v): a string is itself, everything else its repr. */
  function PyStr(v: Value): (r: string)
    ensures v.Str? ==> r == v.s
  {
    if v.Str? then v.s else Repr(v)
  }

  /** True when every element of a list is a dict (so `.get` works on each). */
  predicate AllDicts(items: seq<Value>) {
    forall i :: 0 <= i < |items| ==> items[i].Dict?
  }
}
