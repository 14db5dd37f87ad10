/** The JSON values the status API answers with, and the few pieces of Python
    behaviour on them that the bot relies on: type names in error messages,
    truthiness, `in`, and `str()` as used by an f-string. */
module Json {

  /** A decoded JSON document. Object keys are always strings. */
  datatype Value =
    | Obj(fields: map<string, Value>)
    | Arr(items: seq<Value>)
    | Str(s: string)
    | Int(i: int)
    | Null

  /** The name Python gives the type of a decoded value in its error messages. */
  function TypeName(v: Value): (name: string)
    ensures name in {"dict", "list", "str", "int", "NoneType"}
    ensures name == "dict" <==> v.Obj?
    ensures name == "NoneType" <==> v.Null?
  {
    match v
    case Obj(_) => "dict"
    case Arr(_) => "list"
    case Str(_) => "str"
    case Int(_) => "int"
    case Null => "NoneType"
  }

  /** Python truthiness: None, 0 and empty containers are false. */
  predicate Truthy(v: Value) {
    match v
    case Obj(m) => |m| != 0
    case Arr(xs) => xs != []
    case Str(s) => s != ""
    case Int(i) => i != 0
    case Null => false
  }

  /** The values on which Python's `key in v` is defined (the others raise). */
  predicate Iterable(v: Value) {
    v.Obj? || v.Arr? || v.Str?
  }

  /** Python's `key in v` for a string key: a key of a dict, an element of a
      list, a substring of a str. */
  predicate Contains(v: Value, key: string)
    requires Iterable(v)
  {
    match v
    case Obj(m) => key in m
    case Arr(xs) => Str(key) in xs
    case Str(s) => IsSubstring(key, s)
  }

  /** `p` occurs in `s` at some position. */
  predicate IsSubstring(p: string, s: string)
    decreases |s|
  {
    (|p| <= |s| && s[..|p|] == p) || (|s| > 0 && IsSubstring(p, s[1..]))
  }

  /** The number a string of decimal digits denotes, read most significant
      digit first. */
  function DigitsValue(s: string): int
    decreases |s|
  {
    if s == [] then 0
    else DigitsValue(s[..|s| - 1]) * 10 + (s[|s| - 1] as int - '0' as int)
  }

  /** The number `str()` of an int denotes: an optional minus sign, then the
      digits. */
  function IntValue(s: string): int {
    if s != [] && s[0] == '-' then -DigitsValue(s[1..]) else DigitsValue(s)
  }

  /** The decimal digits of a natural number, as Python's `str()` writes them. */
  function NatToString(n: nat): (r: string)
    ensures |r| > 0
    ensures forall k :: 0 <= k < |r| ==> '0' <= r[k] <= '9'
    ensures |r| > 1 ==> r[0] != '0'
    ensures DigitsValue(r) == n
    decreases n
  {
    if n < 10 then
      var r := [DigitChar(n)];
      assert r[..0] == [];
      r
    else
      var p := NatToString(n / 10);
      var r := p + [DigitChar(n % 10)];
      assert r[..|r| - 1] == p;
      r
  }

  function DigitChar(d: nat): (c: char)
    requires d < 10
    ensures '0' <= c <= '9'
    ensures c as int - '0' as int == d
  {
    ('0' as int + d) as char
  }

  /** Python's `str()` of an int: an optional minus sign and the digits. */
  function IntToString(i: int): (r: string)
    ensures |r| > 0
    ensures (r[0] == '-') <==> i < 0
    ensures forall k :: 0 < k < |r| ==> '0' <= r[k] <= '9'
    ensures IntValue(r) == i
  {
    if i < 0 then
      var r := "-" + NatToString(-i);
      assert r[1..] == NatToString(-i);
      r
    else NatToString(i)
  }

  /** Python's `str()` of a value, as an f-string inserts it. Exact for str,
      int and None; a list or an object is shown only as its brackets. */
  function Show(v: Value): (r: string)
    ensures v.Str? ==> r == v.s
    ensures v.Null? ==> r == "None"
    ensures v.Int? ==> |r| > 0 && (r[0] == '-' <==> v.i < 0) && forall k :: 0 < k < |r| ==> '0' <= r[k] <= '9'
    ensures v.Int? ==> IntValue(r) == v.i
  {
    match v
    case Str(s) => s
    case Int(i) => IntToString(i)
    case Null => "None"
    case Arr(_) => "[...]"
    case Obj(_) => "{...}"
  }
}
