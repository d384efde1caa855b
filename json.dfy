/** The JSON text parser the command-line parser calls (`JSON.parse`, the
    grammar of ECMA-404 / RFC 8259), as a total function that answers `None`
    where `JSON.parse` throws a SyntaxError. */
module Json {
  import opened Values

  /** JSON insignificant whitespace (RFC 8259, section 2). */
  predicate IsJsonSpace(c: char)
  {
    c == ' ' || c == '\t' || c == '\n' || c == '\r'
  }

  predicate IsDigit(c: char)
  {
    '0' <= c <= '9'
  }

  predicate IsHexDigit(c: char)
  {
    IsDigit(c) || 'a' <= c <= 'f' || 'A' <= c <= 'F'
  }

  function DigitValue(c: char): (d: nat)
    requires IsDigit(c)
    ensures d < 10
  {
    c as int - '0' as int
  }

  function HexValue(c: char): (d: nat)
    requires IsHexDigit(c)
    ensures d < 16
  {
    if IsDigit(c) then DigitValue(c)
    else if 'a' <= c <= 'f' then c as int - 'a' as int + 10
    else c as int - 'A' as int + 10
  }

  predicate AllDigits(d: string)
  {
    forall k :: 0 <= k < |d| ==> IsDigit(d[k])
  }

  /** The number a string of decimal digits denotes. */
  function DigitsValue(d: string): nat
    requires AllDigits(d)
  {
    if d == [] then 0 else DigitsValue(d[..|d| - 1]) * 10 + DigitValue(d[|d| - 1])
  }

  /** The first index at or after `i` that does not hold whitespace. */
  function SkipSpace(s: string, i: nat): (j: nat)
    requires i <= |s|
    ensures i <= j <= |s|
    ensures j == |s| || !IsJsonSpace(s[j])
    decreases |s| - i
  {
    if i < |s| && IsJsonSpace(s[i]) then SkipSpace(s, i + 1) else i
  }

  /** The first index at or after `i` that does not hold a decimal digit. */
  function DigitsEnd(s: string, i: nat): (j: nat)
    requires i <= |s|
    ensures i <= j <= |s|
    ensures j == |s| || !IsDigit(s[j])
    ensures AllDigits(s[i..j])
    decreases |s| - i
  {
    if i < |s| && IsDigit(s[i]) then DigitsEnd(s, i + 1) else i
  }

  /** A number token starting at `i`: `-`? (`0` | [1-9][0-9]*) fraction? exponent?.
      Without fraction and exponent it denotes an integer. */
  function NumberAt(s: string, i: nat): (r: Option<(Value, nat)>)
    requires i < |s|
    ensures r.Some? ==> i < r.value.1 <= |s|
  {
    var p := if s[i] == '-' then i + 1 else i;
    if p == |s| || !IsDigit(s[p]) then None
    else
      var q := if s[p] == '0' then p + 1 else DigitsEnd(s, p);
      assert AllDigits(s[p..q]) by { if s[p] == '0' { assert s[p..q] == [s[p]]; } }
      var hasFrac := q < |s| && s[q] == '.';
      var f := if hasFrac then DigitsEnd(s, q + 1) else q;
      if hasFrac && f == q + 1 then None
      else
        var hasExp := f < |s| && (s[f] == 'e' || s[f] == 'E');
        var x := if hasExp && f + 1 < |s| && (s[f + 1] == '+' || s[f + 1] == '-') then f + 2 else f + 1;
        var e := if hasExp then DigitsEnd(s, x) else f;
        if hasExp && e == x then None
        else if !hasFrac && !hasExp then
          var magnitude: int := DigitsValue(s[p..q]);
          Some((Num(if s[i] == '-' then -magnitude else magnitude), q))
        else Some((Dec(s[i..e]), e))
  }

  /** The character an escape sequence starting after a backslash at `i - 1`
      denotes.  A `\u` escape naming a UTF-16 surrogate is refused (see README). */
  function EscapeAt(s: string, i: nat): (r: Option<(char, nat)>)
    requires i < |s|
    ensures r.Some? ==> i < r.value.1 <= |s|
  {
    match s[i]
    case '"' => Some(('"', i + 1))
    case '\\' => Some(('\\', i + 1))
    case '/' => Some(('/', i + 1))
    case 'b' => Some(('\U{8}', i + 1))
    case 'f' => Some(('\U{C}', i + 1))
    case 'n' => Some(('\n', i + 1))
    case 'r' => Some(('\r', i + 1))
    case 't' => Some(('\t', i + 1))
    case 'u' =>
      if i + 4 < |s| && IsHexDigit(s[i + 1]) && IsHexDigit(s[i + 2])
         && IsHexDigit(s[i + 3]) && IsHexDigit(s[i + 4])
      then
        var code := ((HexValue(s[i + 1]) * 16 + HexValue(s[i + 2])) * 16
                     + HexValue(s[i + 3])) * 16 + HexValue(s[i + 4]);
        if code < 0xD800 || 0xE000 <= code then Some((code as char, i + 5)) else None
      else None
    case _ => None
  }

  /** The rest of a string token whose opening quote is at `i - 1`; `acc` holds
      the characters decoded so far. */
  function StringAt(s: string, i: nat, acc: string): (r: Option<(string, nat)>)
    requires i <= |s|
    ensures r.Some? ==> i < r.value.1 <= |s|
    decreases |s| - i
  {
    if i == |s| then None
    else if s[i] == '"' then Some((acc, i + 1))
    else if s[i] == '\\' then
      if i + 1 == |s| then None
      else
        match EscapeAt(s, i + 1)
        case None => None
        case Some((c, j)) => StringAt(s, j, acc + [c])
    else if s[i] < ' ' then None
    else StringAt(s, i + 1, acc + [s[i]])
  }

  /** A JSON value starting exactly at `i` (no leading whitespace), and the index after it. */
  function ValueAt(s: string, i: nat): (r: Option<(Value, nat)>)
    requires i <= |s|
    ensures r.Some? ==> i < r.value.1 <= |s|
    decreases |s| - i, 0
  {
    if i == |s| then None
    else if s[i] == '{' then MembersAt(s, SkipSpace(s, i + 1), map[], true)
    else if s[i] == '[' then ItemsAt(s, SkipSpace(s, i + 1), [], true)
    else if s[i] == '"' then
      match StringAt(s, i + 1, [])
      case None => None
      case Some((t, j)) => Some((Str(t), j))
    else if i + 4 <= |s| && s[i..i + 4] == "true" then Some((Bool(true), i + 4))
    else if i + 5 <= |s| && s[i..i + 5] == "false" then Some((Bool(false), i + 5))
    else if i + 4 <= |s| && s[i..i + 4] == "null" then Some((Null, i + 4))
    else if s[i] == '-' || IsDigit(s[i]) then NumberAt(s, i)
    else None
  }

  /** The elements of an array after `[`, starting at `i` past whitespace;
      `first` is true until the first element has been read. */
  function ItemsAt(s: string, i: nat, acc: seq<Value>, first: bool): (r: Option<(Value, nat)>)
    requires i <= |s|
    ensures r.Some? ==> i < r.value.1 <= |s|
    decreases |s| - i, 1
  {
    if first && i < |s| && s[i] == ']' then Some((Arr(acc), i + 1))
    else
      match ValueAt(s, i)
      case None => None
      case Some((v, j)) =>
        var k := SkipSpace(s, j);
        if k < |s| && s[k] == ',' then ItemsAt(s, SkipSpace(s, k + 1), acc + [v], false)
        else if k < |s| && s[k] == ']' then Some((Arr(acc + [v]), k + 1))
        else None
  }

  /** The members of an object after `{`, starting at `i` past whitespace.  A
      repeated key keeps the last value, as `JSON.parse` does. */
  function MembersAt(s: string, i: nat, acc: map<string, Value>, first: bool): (r: Option<(Value, nat)>)
    requires i <= |s|
    ensures r.Some? ==> i < r.value.1 <= |s|
    decreases |s| - i, 1
  {
    if first && i < |s| && s[i] == '}' then Some((Obj(acc), i + 1))
    else if i == |s| || s[i] != '"' then None
    else
      match StringAt(s, i + 1, [])
      case None => None
      case Some((key, j)) =>
        var c := SkipSpace(s, j);
        if c == |s| || s[c] != ':' then None
        else
          match ValueAt(s, SkipSpace(s, c + 1))
          case None => None
          case Some((v, e)) =>
            var k := SkipSpace(s, e);
            if k < |s| && s[k] == ',' then MembersAt(s, SkipSpace(s, k + 1), acc[key := v], false)
            else if k < |s| && s[k] == '}' then Some((Obj(acc[key := v]), k + 1))
            else None
  }

  /** `JSON.parse(text)`: one value surrounded by optional whitespace and nothing else. */
  function Parse(text: string): Option<Value>
  {
    var i := SkipSpace(text, 0);
    match ValueAt(text, i)
    case None => None
    case Some((v, j)) => if SkipSpace(text, j) == |text| then Some(v) else None
  }

  // ----- Scalars written back as text -----

  function DigitChar(d: nat): (c: char)
    requires d < 10
    ensures IsDigit(c) && DigitValue(c) == d
  {
    ('0' as int + d) as char
  }

  /** The decimal text of a natural number, as `String(n)` writes it. */
  function NatText(n: nat): (t: string)
    ensures |t| > 0 && AllDigits(t)
    ensures t[0] == '0' ==> n == 0
  {
    if n < 10 then [DigitChar(n)] else NatText(n / 10) + [DigitChar(n % 10)]
  }

  /** The decimal text of an integer, as `String(n)` and `JSON.stringify(n)` write it. */
  function IntText(n: int): string
  {
    if n < 0 then "-" + NatText(-n) else NatText(n)
  }

  lemma {:induction false} NatTextValue(n: nat)
    ensures DigitsValue(NatText(n)) == n
  {
    if n >= 10 {
      var t := NatText(n);
      assert t[..|t| - 1] == NatText(n / 10);
      NatTextValue(n / 10);
    }
  }

  lemma {:induction false} DigitsEndAll(s: string, i: nat)
    requires i <= |s| && AllDigits(s[i..])
    ensures DigitsEnd(s, i) == |s|
    decreases |s| - i
  {
    if i < |s| {
      assert s[i..][0] == s[i];
      assert s[i + 1..] == s[i..][1..];
      DigitsEndAll(s, i + 1);
    }
  }

  /** A number token that runs to the end of the text: an optional minus sign,
      then a lone `0` or digits that do not start with `0`. */
  lemma NumberAtInteger(s: string, p: nat)
    requires p < |s| && (p == 1 <==> s[0] == '-') && p <= 1
    requires AllDigits(s[p..]) && (s[p] == '0' ==> |s| == p + 1)
    ensures NumberAt(s, 0)
            == Some((Num(if p == 1 then -(DigitsValue(s[p..]) as int) else DigitsValue(s[p..])), |s|))
  {
    assert IsDigit(s[p]);
    DigitsEndAll(s, p);
    assert s[p..|s|] == s[p..];
  }

  /** Parsing the text of an integer gives back that integer: re-parsing the
      written form of a number value yields the same value. */
  lemma ParseIntText(n: int)
    ensures Parse(IntText(n)) == Some(Num(n))
  {
    var t := IntText(n);
    var m: nat := if n < 0 then -n else n;
    var p := if n < 0 then 1 else 0;
    assert t[p..] == NatText(m);
    NatTextValue(m);
    NumberAtInteger(t, p);
    assert t[0] == '-' || IsDigit(t[0]);
    assert SkipSpace(t, 0) == 0;
    assert ValueAt(t, 0) == NumberAt(t, 0);
  }

  /** A character that a JSON string may hold without an escape. */
  predicate IsPlainStringChar(c: char)
  {
    c != '"' && c != '\\' && !(c < ' ')
  }

  lemma {:induction false} StringAtPlain(s: string, i: nat, j: nat, acc: string)
    requires i <= j < |s| && s[j] == '"'
    requires forall k :: i <= k < j ==> IsPlainStringChar(s[k])
    ensures StringAt(s, i, acc) == Some((acc + s[i..j], j + 1))
    decreases j - i
  {
    if i < j {
      assert IsPlainStringChar(s[i]);
      StringAtPlain(s, i + 1, j, acc + [s[i]]);
      assert acc + [s[i]] + s[i + 1..j] == acc + s[i..j];
    } else {
      assert acc + s[i..j] == acc;
    }
  }

  /** A double-quoted string without quotes, backslashes or control characters
      parses to its inner text. */
  lemma ParsePlainString(w: string)
    requires IsPlainText(w)
    ensures Parse("\"" + w + "\"") == Some(Str(w))
  {
    var t := "\"" + w + "\"";
    assert t[0] == '"' && t[|t| - 1] == '"';
    assert SkipSpace(t, 0) == 0;
    forall k | 1 <= k < |t| - 1 ensures IsPlainStringChar(t[k]) {
      assert t[k] == w[k - 1];
    }
    StringAtPlain(t, 1, |t| - 1, []);
    assert t[1..|t| - 1] == w;
    assert StringAt(t, 1, []) == Some((w, |t|)) by { assert [] + t[1..|t| - 1] == w; }
    assert ValueAt(t, 0) == Some((Str(w), |t|));
  }

  predicate IsPlainText(w: string)
  {
    forall k :: 0 <= k < |w| ==> IsPlainStringChar(w[k])
  }

  lemma PlainStringAt(t: string, i: nat, j: nat)
    requires i <= j < |t| && t[j] == '"'
    requires forall k :: i <= k < j ==> IsPlainStringChar(t[k])
    ensures StringAt(t, i, []) == Some((t[i..j], j + 1))
  {
    StringAtPlain(t, i, j, []);
    assert [] + t[i..j] == t[i..j];
  }

  lemma ParseOneMemberAt(t: string, a: nat, e: nat)
    requires 2 <= a && a + 3 <= e && e + 2 == |t|
    requires t[0] == '{' && t[1] == '"' && t[a] == '"' && t[a + 1] == ':' && t[a + 2] == '"'
    requires t[e] == '"' && t[e + 1] == '}'
    requires forall k :: 2 <= k < a ==> IsPlainStringChar(t[k])
    requires forall k :: a + 3 <= k < e ==> IsPlainStringChar(t[k])
    ensures Parse(t) == Some(Obj(map[t[2..a] := Str(t[a + 3..e])]))
  {
    PlainStringAt(t, 2, a);
    PlainStringAt(t, a + 3, e);
    assert SkipSpace(t, a + 1) == a + 1;
    assert SkipSpace(t, a + 2) == a + 2;
    assert ValueAt(t, a + 2) == Some((Str(t[a + 3..e]), e + 1));
    assert SkipSpace(t, e + 1) == e + 1;
    assert map[][t[2..a] := Str(t[a + 3..e])] == map[t[2..a] := Str(t[a + 3..e])];
    assert MembersAt(t, 1, map[], true) == Some((Obj(map[t[2..a] := Str(t[a + 3..e])]), |t|));
    assert SkipSpace(t, 1) == 1 && SkipSpace(t, 0) == 0;
  }

  /** An object with one member whose key and value are plain strings parses to
      the one-entry map from that key to that string. */
  lemma ParseOneMember(key: string, w: string)
    requires IsPlainText(key) && IsPlainText(w)
    ensures Parse("{\"" + key + "\":\"" + w + "\"}") == Some(Obj(map[key := Str(w)]))
  {
    var t := "{\"" + key + "\":\"" + w + "\"}";
    var a := 2 + |key|;
    var e := a + 3 + |w|;
    assert t[2..a] == key && t[a + 3..e] == w;
    forall k | 2 <= k < a ensures IsPlainStringChar(t[k]) {
      assert t[k] == key[k - 2];
    }
    forall k | a + 3 <= k < e ensures IsPlainStringChar(t[k]) {
      assert t[k] == w[k - a - 3];
    }
    ParseOneMemberAt(t, a, e);
  }

  // ----- Arrays of numbers -----

  /** The elements `ns` written as `JSON.stringify` writes them, separated by commas. */
  function NatList(ns: seq<nat>): string
    requires ns != []
    decreases |ns|
  {
    if |ns| == 1 then NatText(ns[0]) else NatText(ns[0]) + "," + NatList(ns[1..])
  }

  /** Such a text holds only digits and commas. */
  lemma {:induction false} NatListChars(ns: seq<nat>)
    requires ns != []
    ensures forall k :: 0 <= k < |NatList(ns)| ==> IsDigit(NatList(ns)[k]) || NatList(ns)[k] == ','
    decreases |ns|
  {
    if |ns| > 1 {
      NatListChars(ns[1..]);
      var t := NatText(ns[0]);
      forall k | |t| + 1 <= k < |NatList(ns)|
        ensures NatList(ns)[k] == NatList(ns[1..])[k - |t| - 1]
      {
      }
    }
  }

  /** The number values of `ns`, in order. */
  function Nums(ns: seq<nat>): seq<Value>
  {
    seq(|ns|, k requires 0 <= k < |ns| => Num(ns[k]))
  }

  lemma {:induction false} DigitsEndAt(s: string, i: nat, j: nat)
    requires i <= j < |s| && AllDigits(s[i..j]) && !IsDigit(s[j])
    ensures DigitsEnd(s, i) == j
    decreases j - i
  {
    if i < j {
      assert s[i..j][0] == s[i];
      assert s[i + 1..j] == s[i..j][1..];
      DigitsEndAt(s, i + 1, j);
    }
  }

  /** The text of a natural number followed by a comma or a closing bracket is
      read as that number, and reading stops before the delimiter. */
  lemma NumberAtNat(s: string, i: nat, n: nat)
    requires i + |NatText(n)| < |s| && s[i..i + |NatText(n)|] == NatText(n)
    requires s[i + |NatText(n)|] == ',' || s[i + |NatText(n)|] == ']'
    ensures NumberAt(s, i) == Some((Num(n), i + |NatText(n)|))
  {
    var t := NatText(n);
    var j := i + |t|;
    assert s[i] == t[0];
    NatTextValue(n);
    if s[i] == '0' {
      assert n == 0 && t == "0";
      assert s[i..i + 1] == t;
    } else {
      DigitsEndAt(s, i, j);
    }
  }

  /** A value that starts with a digit is a number. */
  lemma DigitStartsNumber(s: string, i: nat)
    requires i < |s| && IsDigit(s[i])
    ensures ValueAt(s, i) == NumberAt(s, i)
  {
    if i + 4 <= |s| { assert s[i..i + 4][0] == s[i]; }
    if i + 5 <= |s| { assert s[i..i + 5][0] == s[i]; }
  }

  /** `s` holds the text `t` from index `i` on, character by character. */
  predicate TextAt(s: string, i: nat, t: string)
    decreases |t|
  {
    i + |t| <= |s| && (t == [] || (s[i] == t[0] && TextAt(s, i + 1, t[1..])))
  }

  lemma {:induction false} TextAtSlice(s: string, i: nat, t: string)
    requires i + |t| <= |s| && s[i..i + |t|] == t
    ensures TextAt(s, i, t)
    decreases |t|
  {
    if t != [] {
      assert s[i] == s[i..i + |t|][0];
      assert s[i + 1..i + |t|] == s[i..i + |t|][1..];
      TextAtSlice(s, i + 1, t[1..]);
    }
  }

  lemma {:induction false} SliceOfTextAt(s: string, i: nat, t: string)
    requires TextAt(s, i, t)
    ensures i + |t| <= |s| && s[i..i + |t|] == t
    decreases |t|
  {
    if t != [] {
      SliceOfTextAt(s, i + 1, t[1..]);
      assert s[i..i + |t|] == [s[i]] + s[i + 1..i + |t|];
    }
  }

  /** `s` holds, from `i` on, the texts of the numbers `ns` separated by single
      commas, and then the closing bracket that ends the text. */
  predicate NatsAt(s: string, i: nat, ns: seq<nat>)
    decreases |ns|
  {
    && ns != [] && i + |NatText(ns[0])| < |s|
    && TextAt(s, i, NatText(ns[0]))
    && if |ns| == 1 then s[i + |NatText(ns[0])|] == ']' && i + |NatText(ns[0])| + 1 == |s|
       else s[i + |NatText(ns[0])|] == ',' && NatsAt(s, i + |NatText(ns[0])| + 1, ns[1..])
  }

  /** The first element of such a text reads as its number. */
  lemma NatsAtHead(s: string, i: nat, ns: seq<nat>)
    requires NatsAt(s, i, ns)
    ensures IsDigit(s[i]) && NumberAt(s, i) == Some((Num(ns[0]), i + |NatText(ns[0])|))
  {
    SliceOfTextAt(s, i, NatText(ns[0]));
    NumberAtNat(s, i, ns[0]);
  }

  /** `s` holds, from `i` on, numbers that read as `ns`, separated by single
      commas, and then the closing bracket that ends the text. */
  predicate NumbersAt(s: string, i: nat, ns: seq<nat>)
    decreases |ns|
  {
    && ns != [] && i < |s| && IsDigit(s[i])
    && NumberAt(s, i).Some? && NumberAt(s, i).value.0 == Num(ns[0])
    && var j := NumberAt(s, i).value.1;
       && j < |s|
       && if |ns| == 1 then s[j] == ']' && j + 1 == |s|
          else j + 1 < |s| && s[j] == ',' && NumbersAt(s, j + 1, ns[1..])
  }

  lemma {:induction false} NatsAreNumbers(s: string, i: nat, ns: seq<nat>)
    requires NatsAt(s, i, ns)
    ensures NumbersAt(s, i, ns)
    decreases |ns|
  {
    NatsAtHead(s, i, ns);
    if |ns| > 1 {
      NatsAreNumbers(s, i + |NatText(ns[0])| + 1, ns[1..]);
    }
  }

  /** The elements of an array of numbers, up to and including the closing
      bracket, are read as those numbers, in order. */
  lemma {:induction false} ItemsAtNumbers(s: string, i: nat, acc: seq<Value>, first: bool, ns: seq<nat>)
    requires NumbersAt(s, i, ns)
    ensures ItemsAt(s, i, acc, first) == Some((Arr(acc + Nums(ns)), |s|))
    decreases |ns|
  {
    if |ns| == 1 {
      ItemsAtLastNumber(s, i, acc, first, ns);
    } else {
      ItemsAtNumbers(s, NumberAt(s, i).value.1 + 1, acc + [Num(ns[0])], false, ns[1..]);
      ItemsAtNextNumbers(s, i, acc, first, ns);
    }
  }

  lemma ItemsAtNextNumbers(s: string, i: nat, acc: seq<Value>, first: bool, ns: seq<nat>)
    requires NumbersAt(s, i, ns) && |ns| > 1
    requires ItemsAt(s, NumberAt(s, i).value.1 + 1, acc + [Num(ns[0])], false)
             == Some((Arr(acc + [Num(ns[0])] + Nums(ns[1..])), |s|))
    ensures ItemsAt(s, i, acc, first) == Some((Arr(acc + Nums(ns)), |s|))
  {
    ItemsAtNextNumber(s, i, acc, first, ns[0], NumberAt(s, i).value.1, acc + [Num(ns[0])] + Nums(ns[1..]));
    NumsCons(acc, ns);
  }

  lemma NumsCons(acc: seq<Value>, ns: seq<nat>)
    requires ns != []
    ensures acc + [Num(ns[0])] + Nums(ns[1..]) == acc + Nums(ns)
  {
  }

  lemma ItemsAtNextNumber(s: string, i: nat, acc: seq<Value>, first: bool, n: nat, j: nat, vs: seq<Value>)
    requires i < |s| && IsDigit(s[i]) && NumberAt(s, i) == Some((Num(n), j))
    requires j + 1 < |s| && s[j] == ',' && IsDigit(s[j + 1])
    requires ItemsAt(s, j + 1, acc + [Num(n)], false) == Some((Arr(vs), |s|))
    ensures ItemsAt(s, i, acc, first) == Some((Arr(vs), |s|))
  {
    DigitStartsNumber(s, i);
    ItemsAtNext(s, i, acc, first, Num(n), j);
  }

  lemma ItemsAtLastNumber(s: string, i: nat, acc: seq<Value>, first: bool, ns: seq<nat>)
    requires NumbersAt(s, i, ns) && |ns| == 1
    ensures ItemsAt(s, i, acc, first) == Some((Arr(acc + Nums(ns)), |s|))
  {
    DigitStartsNumber(s, i);
    ItemsAtLast(s, i, acc, first, Num(ns[0]), NumberAt(s, i).value.1);
    assert Nums(ns) == [Num(ns[0])];
  }

  /** After any prefix, the text of `ns` and a closing bracket form such a text. */
  lemma {:induction false} NatListAt(pre: string, ns: seq<nat>)
    requires ns != []
    ensures NatsAt(pre + NatList(ns) + "]", |pre|, ns)
    decreases |ns|
  {
    var s := pre + NatList(ns) + "]";
    var t := NatText(ns[0]);
    if |ns| == 1 {
      assert s == pre + t + "]";
    } else {
      assert s == (pre + t + ",") + NatList(ns[1..]) + "]";
      NatListAt(pre + t + ",", ns[1..]);
    }
    assert s[|pre|..|pre| + |t|] == t;
    TextAtSlice(s, |pre|, t);
  }

  lemma ItemsAtNext(s: string, i: nat, acc: seq<Value>, first: bool, v: Value, j: nat)
    requires i < |s| && s[i] != ']' && ValueAt(s, i) == Some((v, j))
    requires j + 1 < |s| && s[j] == ',' && !IsJsonSpace(s[j + 1])
    ensures ItemsAt(s, i, acc, first) == ItemsAt(s, j + 1, acc + [v], false)
  {
    NoSpaceAt(s, j);
    NoSpaceAt(s, j + 1);
  }

  lemma NoSpaceAt(s: string, i: nat)
    requires i < |s| && !IsJsonSpace(s[i])
    ensures SkipSpace(s, i) == i
  {
  }

  lemma ItemsAtLast(s: string, i: nat, acc: seq<Value>, first: bool, v: Value, j: nat)
    requires i < |s| && s[i] != ']' && ValueAt(s, i) == Some((v, j))
    requires j < |s| && s[j] == ']'
    ensures ItemsAt(s, i, acc, first) == Some((Arr(acc + [v]), j + 1))
  {
    assert SkipSpace(s, j) == j;
  }

  /** `[1,2,3]`: an array of natural numbers parses to the array of those numbers. */
  lemma ParseNatArray(ns: seq<nat>)
    requires ns != []
    ensures Parse("[" + NatList(ns) + "]") == Some(Arr(Nums(ns)))
  {
    var t := "[" + NatList(ns) + "]";
    NatListAt("[", ns);
    NatsAreNumbers(t, 1, ns);
    ItemsAtNumbers(t, 1, [], true, ns);
    assert [] + Nums(ns) == Nums(ns);
    assert t[0] == '[' && IsDigit(t[1]);
    ParseArray(t, Arr(Nums(ns)));
  }

  /** A text that opens with `[` and whose elements run to its end is that array. */
  lemma ParseArray(t: string, v: Value)
    requires 1 < |t| && t[0] == '[' && !IsJsonSpace(t[1])
    requires ItemsAt(t, 1, [], true) == Some((v, |t|))
    ensures Parse(t) == Some(v)
  {
    assert SkipSpace(t, 0) == 0 && SkipSpace(t, 1) == 1;
  }
}
