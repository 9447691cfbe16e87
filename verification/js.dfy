/**
 The JavaScript values that the configuration plugins read and write.

 A configuration object, a person record or a bibliography entry is a
 plain JavaScript object: it is modelled as a map from property names to
 values, and a property that is absent from the map is an absent own
 property (reading it yields `undefined`). Numbers are integers: no
 plugin modelled here does arithmetic on configuration numbers.
 */
module Js {

  datatype Value =
    | Undefined
    | Null
    | Bool(b: bool)
    | Num(n: int)
    | Str(s: string)
    | Arr(items: seq<Value>)
    | Obj(fields: map<string, Value>)

  /** A plain object: its own enumerable properties. */
  type Object = map<string, Value>

  /** JavaScript truthiness (`if (v)`, `!v`, `v ? … : …`). */
  predicate Truthy(v: Value) {
    match v
    case Undefined => false
    case Null => false
    case Bool(b) => b
    case Num(n) => n != 0
    case Str(s) => s != ""
    case Arr(_) => true
    case Obj(_) => true
  }

  /** `null` or `undefined`: the values whose property access throws. */
  predicate Nullish(v: Value) {
    v.Undefined? || v.Null?
  }

  /** How far `items.forEach(f)` gets when `f` reads a property of its
      argument: the index of the first null or undefined item, or the
      length when there is none. */
  function FirstNullish(items: seq<Value>): (n: nat)
    ensures n <= |items|
    ensures forall i :: 0 <= i < n ==> !Nullish(items[i])
    ensures n < |items| ==> Nullish(items[n])
  {
    if |items| == 0 || Nullish(items[0]) then 0 else 1 + FirstNullish(items[1..])
  }

  /** `o.k` on a plain object. */
  function Get(o: Object, k: string): (r: Value)
    ensures k !in o ==> r == Undefined
    ensures k in o ==> r == o[k]
  {
    if k in o then o[k] else Undefined
  }

  /** `v.k` on a value that is not null or undefined: objects have their
      own properties, strings and arrays a `length`, nothing else has any
      property the plugins ask for. */
  function Prop(v: Value, k: string): Value
  {
    match v
    case Obj(fields) => Get(fields, k)
    case Arr(items) => if k == "length" then Num(|items|) else Undefined
    case Str(s) => if k == "length" then Num(|s|) else Undefined
    case _ => Undefined
  }

  /** `Array.isArray(v)`. */
  predicate IsArray(v: Value) {
    v.Arr?
  }

  /** `table.includes(v)` for a table of strings: `includes` compares with
      SameValueZero, so only a string value can be found. */
  predicate IsOneOf(v: Value, table: seq<string>) {
    v.Str? && v.s in table
  }

  /** The decimal numeral of a natural number. */
  function NatToString(n: nat): (r: string)
    ensures |r| >= 1
    ensures forall i :: 0 <= i < |r| ==> '0' <= r[i] <= '9'
    decreases n
  {
    if n < 10 then [DigitChar(n)] else NatToString(n / 10) + [DigitChar(n % 10)]
  }

  function DigitChar(d: nat): (c: char)
    requires d < 10
    ensures '0' <= c <= '9'
    ensures c as int - '0' as int == d
  {
    ('0' as int + d) as char
  }

  /** `String(n)` for an integer. */
  function IntToString(n: int): string {
    if n < 0 then "-" + NatToString(-n) else NatToString(n)
  }

  /** `String(v)`: the string a template literal, `concat` or a property
      key lookup makes of a value. An array is joined with commas, its
      null and undefined elements written as empty strings. */
  function ToString(v: Value): string
    decreases v, 1
  {
    match v
    case Undefined => "undefined"
    case Null => "null"
    case Bool(b) => if b then "true" else "false"
    case Num(n) => IntToString(n)
    case Str(s) => s
    case Arr(items) => JoinElements(items)
    case Obj(_) => "[object Object]"
  }

  function JoinElements(items: seq<Value>): string
    decreases items, 0
  {
    if |items| == 0 then ""
    else
      var first := if Nullish(items[0]) then "" else ToString(items[0]);
      if |items| == 1 then first else first + "," + JoinElements(items[1..])
  }

  /** `table[v]` on a constant object whose values are strings: the key is
      `String(v)`; a missing key reads `undefined`. */
  function Lookup(table: map<string, string>, v: Value): (r: Value)
    ensures r == Undefined || r.Str?
    ensures r.Str? <==> ToString(v) in table
  {
    var key := ToString(v);
    if key in table then Str(table[key]) else Undefined
  }
}
