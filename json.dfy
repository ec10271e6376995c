/** JSON values as the JavaScript code handles them after `JSON.parse`, with the
    language's truthiness, property reads and string conversion. */
module Json {
  import opened Wrappers
  import opened Text

  /** A value `JSON.parse` can produce. Numbers are modelled as integers. */
  datatype Value =
    | Null
    | Bool(b: bool)
    | Num(n: int)
    | Str(s: string)
    | Arr(items: seq<Value>)
    | Obj(fields: map<string, Value>)

  /** JavaScript truthiness: `null`, `false`, `0` and `""` are falsy; arrays and objects,
      even empty ones, are truthy. */
  predicate Truthy(v: Value)
  {
    match v
    case Null => false
    case Bool(b) => b
    case Num(n) => n != 0
    case Str(s) => s != ""
    case Arr(_) => true
    case Obj(_) => true
  }

  /** Reading property `key` of `v`: `None` is `undefined`. Only objects carry the
      properties this program reads; on `null` the read throws, which callers handle. */
  function Get(v: Value, key: string): (r: Option<Value>)
    ensures r.Some? <==> v.Obj? && key in v.fields
    ensures r.Some? ==> r.value == v.fields[key]
  {
    if v.Obj? && key in v.fields then Some(v.fields[key]) else None
  }

  /** Truthiness of a property read, where `undefined` is falsy. */
  predicate Present(o: Option<Value>)
  {
    o.Some? && Truthy(o.value)
  }

  /** `String(v)` does not throw. It throws for an object with its own `toString` property:
      that property is not a function, and the inherited `valueOf` gives back the object, so
      no primitive is found. An array is converted by joining its elements, so it converts
      exactly when they all do. */
  predicate Convertible(v: Value)
  {
    match v
    case Arr(xs) => forall i :: 0 <= i < |xs| ==> Convertible(xs[i])
    case Obj(fields) => "toString" !in fields
    case _ => true
  }

  /** The text of a property read converts: `undefined` does, and so does any value that is
      `Convertible`. */
  predicate Converts(o: Option<Value>)
  {
    o.None? || Convertible(o.value)
  }

  /** `String(v)`, as template literals, `new Error(v)` and `Array.prototype.join` use it, for
      a value it does not throw on. */
  function ToText(v: Value): string
    requires Convertible(v)
    decreases v, 1
  {
    match v
    case Null => "null"
    case Bool(b) => if b then "true" else "false"
    case Num(n) => IntText(n)
    case Str(s) => s
    case Arr(xs) => Join(ElementTexts(xs), ",")
    case Obj(_) => "[object Object]"
  }

  /** The text `Array.prototype.join` uses for each element: `null` becomes empty. */
  function ElementTexts(xs: seq<Value>): (r: seq<string>)
    requires forall i :: 0 <= i < |xs| ==> Convertible(xs[i])
    ensures |r| == |xs|
    ensures forall i :: 0 <= i < |xs| ==> r[i] == (if xs[i].Null? then "" else ToText(xs[i]))
    decreases Arr(xs), 0
  {
    seq(|xs|, i requires 0 <= i < |xs| => if xs[i].Null? then "" else ToText(xs[i]))
  }

  /** `xs.join(sep)` on an array of JSON values. */
  function JoinValues(xs: seq<Value>, sep: string): string
    requires forall i :: 0 <= i < |xs| ==> Convertible(xs[i])
  {
    Join(ElementTexts(xs), sep)
  }

  /** A JSON array of strings. */
  function Strings(xs: seq<string>): (r: seq<Value>)
    ensures |r| == |xs| && forall i :: 0 <= i < |xs| ==> r[i] == Str(xs[i])
  {
    seq(|xs|, i requires 0 <= i < |xs| => Str(xs[i]))
  }

  /** Joining string values is joining the strings themselves. */
  lemma JoinStrings(xs: seq<string>, sep: string)
    ensures JoinValues(Strings(xs), sep) == Join(xs, sep)
  {
    assert ElementTexts(Strings(xs)) == xs;
  }
}
