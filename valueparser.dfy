/** `_parse_value`: how one argument value, as written on the command line, is
    turned into a value.  JSON is tried first; object and array literals are
    also tried as relaxed JavaScript; whatever parses as neither stays a string. */
module ValueParser {
  import opened Values
  import opened Text
  import Json
  import Relaxed

  /** `s.startsWith(open) && s.endsWith(close)`. */
  predicate Wrapped(s: string, open: char, close: char)
  {
    StartsWith(s, open) && EndsWith(s, close)
  }

  /** Text that looks like an object or array literal: `{...}` or `[...]`. */
  predicate LooksLikeLiteral(s: string)
  {
    Wrapped(s, '{', '}') || Wrapped(s, '[', ']')
  }

  /** `s.slice(1, -1)`: the text between the first and the last character, and
      the empty string when there is nothing between them. */
  function Inner(s: string): (r: string)
    ensures |s| >= 2 ==> s == [s[0]] + r + [s[|s| - 1]]
    ensures |s| < 2 ==> r == []
  {
    if |s| >= 2 then s[1..|s| - 1] else []
  }

  /** `try { return JSON.parse(first) } catch { ... }` chained with the relaxed
      reading of `second`, then `fallback`. */
  function JsonOrRelaxed(first: string, second: string, fallback: string): Value
  {
    match Json.Parse(first)
    case Some(v) => v
    case None =>
      match Relaxed.ParseRelaxedJs(second)
      case Some(v) => v
      case None => Str(fallback)
  }

  /** `try { return JSON.parse(text) } catch { return fallback }`. */
  function JsonOr(text: string, fallback: string): Value
  {
    match Json.Parse(text)
    case Some(v) => v
    case None => Str(fallback)
  }

  /** `_parse_value(valueStr)`. */
  function ParseValue(token: string): Value
  {
    if token == [] then Str([])
    else if Wrapped(token, '"', '"') then
      var inner := Inner(token);
      if LooksLikeLiteral(inner) then JsonOrRelaxed(inner, inner, inner)
      else JsonOr(token, inner)
    else if LooksLikeLiteral(token) then JsonOrRelaxed(token, token, token)
    else JsonOr(token, token)
  }

  // ----- Properties -----

  /** Text that is not wrapped in double quotes and is valid JSON gives its JSON value. */
  lemma ParseValueJsonFirst(token: string, v: Value)
    requires !Wrapped(token, '"', '"') && Json.Parse(token) == Some(v)
    ensures ParseValue(token) == v
  {
    assert token != [] by { assert Json.Parse([]).None?; }
  }

  /** Text that is neither quoted nor valid JSON, and is not a relaxed object or
      array, stays the string it is. */
  lemma ParseValueStringFallback(token: string)
    requires !Wrapped(token, '"', '"') && Json.Parse(token).None?
    requires !LooksLikeLiteral(token) || Relaxed.ParseRelaxedJs(token).None?
    ensures ParseValue(token) == Str(token)
  {
  }

  /** Double quotes around an object or array literal change nothing: the literal
      inside is read exactly as it is read without them. */
  lemma ParseValueQuotedLiteral(s: string)
    requires LooksLikeLiteral(s)
    ensures ParseValue("\"" + s + "\"") == ParseValue(s)
  {
    var t := "\"" + s + "\"";
    assert Inner(t) == s;
    assert !Wrapped(s, '"', '"');
  }

  /** Double quotes around plain text that is not a literal are removed: the
      value is the text between them, spaces included. */
  lemma ParseValueQuotedText(w: string)
    requires Json.IsPlainText(w) && !LooksLikeLiteral(w)
    ensures ParseValue("\"" + w + "\"") == Str(w)
  {
    var t := "\"" + w + "\"";
    assert Inner(t) == w;
    Json.ParsePlainString(w);
  }

  /** Quoted text that is not valid JSON loses its quotes and is kept as it is. */
  lemma ParseValueQuotedInvalid(t: string)
    requires Wrapped(t, '"', '"') && !LooksLikeLiteral(Inner(t)) && Json.Parse(t).None?
    ensures ParseValue(t) == Str(Inner(t))
  {
  }

  /** The written form of an integer reads back as that integer. */
  lemma ParseValueInt(n: int)
    ensures ParseValue(Json.IntText(n)) == Num(n)
  {
    var t := Json.IntText(n);
    Json.ParseIntText(n);
    var m: nat := if n < 0 then -n else n;
    assert t[0] == '-' || Json.IsDigit(t[0]) by {
      if n < 0 { assert t[0] == '-'; } else { assert t == Json.NatText(m); }
    }
    ParseValueJsonFirst(t, Num(n));
  }

  /** A word that starts with a letter and has no whitespace is a string,
      unless it is one of the literals `true`, `false` and `null`. */
  lemma ParseValueBareWord(w: string)
    requires w != [] && ('a' <= w[0] <= 'z' || 'A' <= w[0] <= 'Z')
    requires forall k :: 0 <= k < |w| ==> !Json.IsJsonSpace(w[k])
    requires w != "true" && w != "false" && w != "null"
    ensures ParseValue(w) == Str(w)
  {
    assert Json.SkipSpace(w, 0) == 0;
    match Json.ValueAt(w, 0)
    case None =>
    case Some((v, j)) =>
      assert Json.SkipSpace(w, j) == j;
  }

  /** The JSON literals `true`, `false` and `null`. */
  lemma ParseValueLiterals()
    ensures ParseValue("true") == Bool(true)
    ensures ParseValue("false") == Bool(false)
    ensures ParseValue("null") == Null
  {
    assert Json.SkipSpace("true", 0) == 0 && "true"[0..4] == "true";
    assert Json.ValueAt("true", 0) == Some((Bool(true), 4));
    assert Json.SkipSpace("false", 0) == 0 && "false"[0..5] == "false";
    assert Json.ValueAt("false", 0) == Some((Bool(false), 5));
    assert Json.SkipSpace("null", 0) == 0 && "null"[0..4] == "null";
    assert Json.ValueAt("null", 0) == Some((Null, 4));
  }

  /** `{id:qwq}`: an object literal with one unquoted key `id` and the value `w`
      between quotes `q`. */
  function RelaxedObjectText(id: string, q: char, w: string): string
  {
    "{" + id + ":" + [q] + w + [q] + "}"
  }

  /** A relaxed object with one unquoted key and a quoted plain value, written
      with or without surrounding double quotes, reads as that one-entry object
      (`{xyz:'123'}` and `"{xyz:'123'}"`). */
  lemma ParseValueRelaxedObject(id: string, q: char, w: string)
    requires q == '\'' || q == '"'
    requires Relaxed.IsName(id) && Relaxed.IsPlainWord(w)
    ensures ParseValue(RelaxedObjectText(id, q, w)) == Obj(map[id := Str(w)])
    ensures ParseValue("\"" + RelaxedObjectText(id, q, w) + "\"") == Obj(map[id := Str(w)])
  {
    var s := RelaxedObjectText(id, q, w);
    RelaxedObjectUnquoted(s, id, q, w);
    ParseValueQuotedLiteral(s);
  }

  lemma RelaxedObjectUnquoted(s: string, id: string, q: char, w: string)
    requires q == '\'' || q == '"'
    requires Relaxed.IsName(id) && Relaxed.IsPlainWord(w)
    requires s == RelaxedObjectText(id, q, w)
    ensures LooksLikeLiteral(s) && ParseValue(s) == Obj(map[id := Str(w)])
  {
    assert s[0] == '{' && s[|s| - 1] == '}';
    Relaxed.ParseRelaxedJsOneMember(id, q, w);
    assert s[1] == id[0] && Relaxed.IsNameStart(id[0]);
    JsonRejectsBareKey(s);
  }

  /** JSON refuses an object whose first key is not a double-quoted string. */
  lemma JsonRejectsBareKey(s: string)
    requires |s| >= 2 && s[0] == '{' && s[1] != '"' && s[1] != '}' && !Json.IsJsonSpace(s[1])
    ensures Json.Parse(s).None?
  {
    assert Json.SkipSpace(s, 0) == 0;
    assert Json.SkipSpace(s, 1) == 1;
    assert Json.MembersAt(s, 1, map[], true).None?;
    assert Json.ValueAt(s, 0).None?;
  }
}
