/** Values produced by the command-line parser: the JSON data model, as the
    parser's callers see it after `JSON.parse` or the string fallback. */
module Values {

  datatype Option<+T> = None | Some(value: T)

  /** A parsed argument value.  Integer JSON numbers are `Num`; a JSON number
      written with a fraction or an exponent is kept as its lexeme in `Dec`,
      because IEEE double arithmetic is not modelled.  Objects map keys to
      values (JavaScript's key order is not observable through deep equality). */
  datatype Value =
    | Bool(b: bool)
    | Num(n: int)
    | Dec(lexeme: string)
    | Str(s: string)
    | Null
    | Arr(items: seq<Value>)
    | Obj(fields: map<string, Value>)

  /** What a value adds to an array it is concatenated onto: `Array.prototype.concat`
      spreads an array argument one level and appends anything else as one element. */
  function Contribution(v: Value): seq<Value>
  {
    if v.Arr? then v.items else [v]
  }

  /** The contributions of several values, in order. */
  function Contributions(vs: seq<Value>): seq<Value>
  {
    if vs == [] then [] else Contributions(vs[..|vs| - 1]) + Contribution(vs[|vs| - 1])
  }

  /** Strings as an array of string values (the shape of the positional list). */
  function StrArray(ss: seq<string>): (r: Value)
    ensures r.Arr? && |r.items| == |ss|
    ensures forall k :: 0 <= k < |ss| ==> r.items[k] == Str(ss[k])
  {
    Arr(seq(|ss|, k requires 0 <= k < |ss| => Str(ss[k])))
  }
}
