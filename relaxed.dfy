/** `_parse_relaxed_js` and its two passes: `_normalize_quotes`, which turns
    single-quoted strings into double-quoted ones, and `_quote_identifiers`,
    which puts double quotes around unquoted object keys. */
module Relaxed {
  import opened Values
  import opened Text
  import Json

  // ----- _normalize_quotes -----

  /** The flags of the quote scan: `in_single_quote`, `in_double_quote`, `escape_next`. */
  datatype QuoteState = QuoteState(inSingle: bool, inDouble: bool, escapeNext: bool)

  const Unquoted := QuoteState(false, false, false)

  /** The character written for input character `c` in state `st`: a single
      quote that is neither escaped nor inside a double-quoted run becomes a
      double quote; everything else is copied. */
  function Emitted(st: QuoteState, c: char): char
  {
    if !st.escapeNext && c == '\'' && !st.inDouble then '"' else c
  }

  /** The flags after reading `c` in state `st`. */
  function Advance(st: QuoteState, c: char): QuoteState
  {
    if st.escapeNext then st.(escapeNext := false)
    else if c == '\\' then st.(escapeNext := true)
    else if c == '\'' && !st.inDouble then st.(inSingle := !st.inSingle)
    else if c == '"' && !st.inSingle then st.(inDouble := !st.inDouble)
    else st
  }

  /** The flags after reading all of `s` from `st`. */
  function AdvanceAll(st: QuoteState, s: string): QuoteState
    decreases |s|
  {
    if s == [] then st else AdvanceAll(Advance(st, s[0]), s[1..])
  }

  /** The text the quote scan writes for `s` when it starts in state `st`. */
  function NormalizedFrom(st: QuoteState, s: string): string
    decreases |s|
  {
    if s == [] then [] else [Emitted(st, s[0])] + NormalizedFrom(Advance(st, s[0]), s[1..])
  }

  /** What `_normalize_quotes` returns for `s`. */
  function QuotesNormalized(s: string): string
  {
    NormalizedFrom(Unquoted, s)
  }

  /** The loop of `_normalize_quotes`. */
  method NormalizeQuotes(str: string) returns (result: string)
    ensures result == QuotesNormalized(str)
  {
    result := [];
    var inSingle, inDouble, escapeNext := false, false, false;
    for i := 0 to |str|
      invariant result + NormalizedFrom(QuoteState(inSingle, inDouble, escapeNext), str[i..])
                == QuotesNormalized(str)
    {
      var c := str[i];
      ghost var st := QuoteState(inSingle, inDouble, escapeNext);
      assert str[i..][0] == c && str[i..][1..] == str[i + 1..];
      assert result + NormalizedFrom(st, str[i..])
             == (result + [Emitted(st, c)]) + NormalizedFrom(Advance(st, c), str[i + 1..]);
      if escapeNext {
        result := result + [c];
        escapeNext := false;
        continue;
      }
      if c == '\\' {
        escapeNext := true;
        result := result + [c];
        continue;
      }
      if c == '\'' && !inDouble {
        inSingle := !inSingle;
        result := result + ['"'];
      } else if c == '"' && !inSingle {
        inDouble := !inDouble;
        result := result + [c];
      } else {
        result := result + [c];
      }
    }
  }

  lemma {:induction false} AdvanceAllAppend(st: QuoteState, s: string, c: char)
    ensures AdvanceAll(st, s + [c]) == Advance(AdvanceAll(st, s), c)
    decreases |s|
  {
    if s != [] {
      assert (s + [c])[0] == s[0] && (s + [c])[1..] == s[1..] + [c];
      AdvanceAllAppend(Advance(st, s[0]), s[1..], c);
    }
  }

  lemma {:induction false} NormalizedFromAt(st: QuoteState, s: string, k: nat)
    requires k < |s|
    ensures |NormalizedFrom(st, s)| == |s|
    ensures NormalizedFrom(st, s)[k] == Emitted(AdvanceAll(st, s[..k]), s[k])
    decreases |s|
  {
    if k == 0 {
      NormalizedLength(st, s);
    } else {
      NormalizedFromAt(Advance(st, s[0]), s[1..], k - 1);
      assert s[1..][..k - 1] == s[..k][1..];
      assert s[..k][0] == s[0];
    }
  }

  lemma {:induction false} NormalizedLength(st: QuoteState, s: string)
    ensures |NormalizedFrom(st, s)| == |s|
    decreases |s|
  {
    if s != [] {
      NormalizedLength(Advance(st, s[0]), s[1..]);
    }
  }

  /** The scan is position-wise: the output is as long as the input and
      differs from it only where the input holds a single quote that is
      neither escaped by the preceding backslash nor inside a double-quoted run;
      there the output holds a double quote. */
  lemma QuotesNormalizedAt(s: string, k: nat)
    requires k < |s|
    ensures |QuotesNormalized(s)| == |s|
    ensures var st := AdvanceAll(Unquoted, s[..k]);
            QuotesNormalized(s)[k]
            == if s[k] == '\'' && !st.escapeNext && !st.inDouble then '"' else s[k]
  {
    NormalizedFromAt(Unquoted, s, k);
  }

  lemma {:induction false} AdvanceAllPlain(s: string)
    requires forall k :: 0 <= k < |s| ==> s[k] != '\\' && s[k] != '"'
    ensures !AdvanceAll(Unquoted, s).escapeNext && !AdvanceAll(Unquoted, s).inDouble
    decreases |s|
  {
    if s != [] {
      var p := s[..|s| - 1];
      AdvanceAllPlain(p);
      assert p + [s[|s| - 1]] == s;
      AdvanceAllAppend(Unquoted, p, s[|s| - 1]);
    }
  }

  /** Without backslashes and double quotes, every single quote becomes a
      double quote and nothing else changes. */
  lemma QuotesNormalizedPlain(s: string)
    requires forall k :: 0 <= k < |s| ==> s[k] != '\\' && s[k] != '"'
    ensures QuotesNormalized(s) == seq(|s|, k requires 0 <= k < |s| => if s[k] == '\'' then '"' else s[k])
  {
    NormalizedLength(Unquoted, s);
    forall k | 0 <= k < |s|
      ensures QuotesNormalized(s)[k] == if s[k] == '\'' then '"' else s[k]
    {
      QuotesNormalizedAt(s, k);
      AdvanceAllPlain(s[..k]);
    }
  }

  /** Text without single quotes passes through unchanged. */
  lemma QuotesNormalizedNoSingle(s: string)
    requires forall k :: 0 <= k < |s| ==> s[k] != '\''
    ensures QuotesNormalized(s) == s
  {
    NormalizedLength(Unquoted, s);
    forall k | 0 <= k < |s| ensures QuotesNormalized(s)[k] == s[k] {
      QuotesNormalizedAt(s, k);
    }
  }

  // ----- _quote_identifiers -----

  /** `[a-zA-Z_$]`: a character that may start an identifier. */
  predicate IsNameStart(c: char)
  {
    'a' <= c <= 'z' || 'A' <= c <= 'Z' || c == '_' || c == '$'
  }

  /** `[a-zA-Z0-9_$]`: a character that may continue an identifier. */
  predicate IsNamePart(c: char)
  {
    IsNameStart(c) || '0' <= c <= '9'
  }

  predicate IsName(id: string)
  {
    |id| > 0 && IsNameStart(id[0]) && forall k :: 0 < k < |id| ==> IsNamePart(id[k])
  }

  /** The end of the run of whitespace (`\s*`) that starts at `i`. */
  function SpacesEnd(u: string, i: nat): (j: nat)
    requires i <= |u|
    ensures i <= j <= |u|
    decreases |u| - i
  {
    if i < |u| && IsSpace(u[i]) then SpacesEnd(u, i + 1) else i
  }

  /** The end of the run of identifier characters that starts at `i`. */
  function NameEnd(u: string, i: nat): (j: nat)
    requires i <= |u|
    ensures i <= j <= |u|
    decreases |u| - i
  {
    if i < |u| && IsNamePart(u[i]) then NameEnd(u, i + 1) else i
  }

  lemma {:induction false} SpacesEndShape(u: string, i: nat)
    requires i <= |u|
    ensures forall k :: i <= k < SpacesEnd(u, i) ==> IsSpace(u[k])
    ensures SpacesEnd(u, i) == |u| || !IsSpace(u[SpacesEnd(u, i)])
    decreases |u| - i
  {
    if i < |u| && IsSpace(u[i]) {
      SpacesEndShape(u, i + 1);
    }
  }

  lemma {:induction false} NameEndShape(u: string, i: nat)
    requires i <= |u|
    ensures forall k :: i <= k < NameEnd(u, i) ==> IsNamePart(u[k])
    ensures NameEnd(u, i) == |u| || !IsNamePart(u[NameEnd(u, i)])
    decreases |u| - i
  {
    if i < |u| && IsNamePart(u[i]) {
      NameEndShape(u, i + 1);
    }
  }

  lemma {:induction false} SpacesEndIs(u: string, i: nat, j: nat)
    requires i <= j <= |u|
    requires forall k :: i <= k < j ==> IsSpace(u[k])
    requires j == |u| || !IsSpace(u[j])
    ensures SpacesEnd(u, i) == j
    decreases j - i
  {
    if i < j {
      SpacesEndIs(u, i + 1, j);
    }
  }

  lemma {:induction false} NameEndIs(u: string, i: nat, j: nat)
    requires i <= j <= |u|
    requires forall k :: i <= k < j ==> IsNamePart(u[k])
    requires j == |u| || !IsNamePart(u[j])
    ensures NameEnd(u, i) == j
    decreases j - i
  {
    if i < j {
      NameEndIs(u, i + 1, j);
    }
  }

  /** Where a key match begins at `u[0]`: the identifier is `u[nameStart..nameEnd]`
      and the colon is at `colon`. */
  datatype KeyMatch = KeyMatch(nameStart: nat, nameEnd: nat, colon: nat)

  /** Whether the pattern `([{,]\s*)([a-zA-Z_$][a-zA-Z0-9_$]*)\s*:` matches at the
      start of `u`.  Whitespace and identifier characters are disjoint, so the
      greedy runs are the only way the pattern can match. */
  function KeyAt(u: string): (r: Option<KeyMatch>)
    ensures r.Some? ==> IsKeyMatch(u, r.value)
  {
    if u == [] || (u[0] != '{' && u[0] != ',') then None
    else
      var a := SpacesEnd(u, 1);
      if a == |u| || !IsNameStart(u[a]) then None
      else
        var b := NameEnd(u, a + 1);
        var c := SpacesEnd(u, b);
        if c == |u| || u[c] != ':' then None
        else
          SpacesEndShape(u, 1);
          NameEndShape(u, a + 1);
          SpacesEndShape(u, b);
          Some(KeyMatch(a, b, c))
  }

  /** The pattern matches at the start of `u` as `m` says: an opener `{` or `,`,
      whitespace, the identifier `u[m.nameStart..m.nameEnd]`, whitespace, and
      the colon at `m.colon`. */
  predicate IsKeyMatch(u: string, m: KeyMatch)
  {
    && 0 < m.nameStart < m.nameEnd <= m.colon < |u|
    && (u[0] == '{' || u[0] == ',')
    && (forall k :: 1 <= k < m.nameStart ==> IsSpace(u[k]))
    && IsName(u[m.nameStart..m.nameEnd])
    && (forall k :: m.nameEnd <= k < m.colon ==> IsSpace(u[k]))
    && u[m.colon] == ':'
  }

  /** Every way the pattern can match at the start of `u` is the match `KeyAt`
      finds: it finds one whenever there is one, and the match is unique. */
  lemma KeyAtComplete(u: string, m: KeyMatch)
    requires IsKeyMatch(u, m)
    ensures KeyAt(u) == Some(m)
  {
    var name := u[m.nameStart..m.nameEnd];
    assert IsNameStart(name[0]);
    SpacesEndIs(u, 1, m.nameStart);
    forall k | m.nameStart + 1 <= k < m.nameEnd ensures IsNamePart(u[k]) {
      assert u[k] == name[k - m.nameStart];
    }
    NameEndIs(u, m.nameStart + 1, m.nameEnd);
    SpacesEndIs(u, m.nameEnd, m.colon);
  }

  /** `$1"$2":` for the match `m` at the start of `u`: the opener and the whitespace
      after it, the identifier in double quotes, and a colon. */
  function Replacement(u: string, m: KeyMatch): string
    requires 0 < m.nameStart <= m.nameEnd <= |u|
  {
    u[..m.nameStart] + "\"" + u[m.nameStart..m.nameEnd] + "\":"
  }

  /** What `_quote_identifiers` returns: every match, scanning left to right
      without overlap, is replaced by `$1"$2":`. */
  function QuoteIdentifiers(u: string): string
    decreases |u|, 1
  {
    if u == [] then [] else QuoteFrom(u, KeyAt(u))
  }

  /** The rest of the scan from the start of `u`, given what the pattern
      matches there: the replacement and the scan after the colon, or the first
      character and the scan after it. */
  function QuoteFrom(u: string, k: Option<KeyMatch>): string
    requires u != []
    requires k.Some? ==> 0 < k.value.nameStart <= k.value.nameEnd <= k.value.colon < |u|
    decreases |u|, 0
  {
    match k
    case Some(m) => Replacement(u, m) + QuoteIdentifiers(u[m.colon + 1..])
    case None => [u[0]] + QuoteIdentifiers(u[1..])
  }

  /** Neither `{` nor `,`: no match can start in such text. */
  predicate NoOpener(x: string)
  {
    forall k :: 0 <= k < |x| ==> x[k] != '{' && x[k] != ','
  }

  lemma KeyAtNeedsOpener(u: string)
    requires u != [] && u[0] != '{' && u[0] != ','
    ensures KeyAt(u).None?
  {
  }

  lemma QuoteIdentifiersSkip(u: string)
    requires u != [] && KeyAt(u).None?
    ensures QuoteIdentifiers(u) == [u[0]] + QuoteIdentifiers(u[1..])
  {
  }

  /** Text in which no match can start is copied unchanged. */
  lemma {:induction false} QuoteIdentifiersCopies(x: string, y: string)
    requires NoOpener(x)
    ensures QuoteIdentifiers(x + y) == x + QuoteIdentifiers(y)
    decreases |x|
  {
    if x != [] {
      var u := x + y;
      assert u[0] == x[0] && u[1..] == x[1..] + y;
      KeyAtNeedsOpener(u);
      QuoteIdentifiersSkip(u);
      QuoteIdentifiersCopies(x[1..], y);
      HeadTail(x, QuoteIdentifiers(y));
    } else {
      assert x + y == y;
    }
  }

  lemma QuoteIdentifiersHead(u: string)
    requires u != []
    ensures QuoteIdentifiers(u) != [] && QuoteIdentifiers(u)[0] == u[0]
  {
  }

  /** The replacement rule: `{` or `,`, whitespace, an identifier, whitespace and
      a colon become the opener, the first whitespace, the quoted identifier and
      the colon; the whitespace before the colon is dropped. */
  lemma QuoteIdentifiersKey(c: char, w1: string, id: string, w2: string, rest: string)
    requires c == '{' || c == ','
    requires IsBlank(w1) && IsName(id) && IsBlank(w2)
    ensures QuoteIdentifiers([c] + w1 + id + w2 + ":" + rest)
            == [c] + w1 + "\"" + id + "\":" + QuoteIdentifiers(rest)
  {
    var u := [c] + w1 + id + w2 + ":" + rest;
    var a := 1 + |w1|;
    var b := a + |id|;
    var e := b + |w2|;
    KeyOfParts(c, w1, id, w2, rest);
    ReplacementOfParts(c, w1, id, w2, rest);
    QuoteIdentifiersAtKey(u, KeyMatch(a, b, e));
  }

  lemma ReplacementOfParts(c: char, w1: string, id: string, w2: string, rest: string)
    ensures var u := [c] + w1 + id + w2 + ":" + rest;
            var a := 1 + |w1|;
            var m := KeyMatch(a, a + |id|, a + |id| + |w2|);
            && Replacement(u, m) == [c] + w1 + "\"" + id + "\":"
            && u[m.colon + 1..] == rest
  {
    var u := [c] + w1 + id + w2 + ":" + rest;
    var a := 1 + |w1|;
    var b := a + |id|;
    var e := b + |w2|;
    assert u[..a] == [c] + w1 && u[a..b] == id && u[e + 1..] == rest;
  }

  lemma KeyOfParts(c: char, w1: string, id: string, w2: string, rest: string)
    requires c == '{' || c == ','
    requires IsBlank(w1) && IsName(id) && IsBlank(w2)
    ensures var a := 1 + |w1|;
            KeyAt([c] + w1 + id + w2 + ":" + rest) == Some(KeyMatch(a, a + |id|, a + |id| + |w2|))
  {
    var u := [c] + w1 + id + w2 + ":" + rest;
    var a := 1 + |w1|;
    var b := a + |id|;
    var e := b + |w2|;
    assert u[1..a] == w1 && u[a..b] == id && u[b..e] == w2 && u[e] == ':';
    assert u[a] == id[0];
    KeyAtIs(u, a, b, e);
  }

  /** The pattern matches at the start of `u` with the given runs. */
  lemma KeyAtIs(u: string, a: nat, b: nat, e: nat)
    requires 1 <= a < b <= e < |u| && (u[0] == '{' || u[0] == ',')
    requires forall k :: 1 <= k < a ==> IsSpace(u[k])
    requires !IsSpace(u[a]) && IsNameStart(u[a])
    requires forall k :: a < k < b ==> IsNamePart(u[k])
    requires !IsNamePart(u[b])
    requires forall k :: b <= k < e ==> IsSpace(u[k])
    requires u[e] == ':'
    ensures KeyAt(u) == Some(KeyMatch(a, b, e))
  {
    SpacesEndIs(u, 1, a);
    NameEndIs(u, a + 1, b);
    SpacesEndIs(u, b, e);
  }

  /** Text without a colon contains no key and is returned unchanged. */
  lemma {:induction false} QuoteIdentifiersNoColon(u: string)
    requires forall k :: 0 <= k < |u| ==> u[k] != ':'
    ensures QuoteIdentifiers(u) == u
    decreases |u|
  {
    if u != [] {
      assert KeyAt(u).None?;
      QuoteIdentifiersNoColon(u[1..]);
    }
  }

  /** Where no key starts at `u[0]`, none starts there after the rest of `u`
      has been rewritten either: a rewrite never turns a failed match into one. */
  lemma KeyAtStaysAbsent(u: string)
    requires u != [] && KeyAt(u).None?
    ensures KeyAt([u[0]] + QuoteIdentifiers(u[1..])).None?
  {
    if u[0] == '{' || u[0] == ',' {
      var a := SpacesEnd(u, 1);
      SpacesEndShape(u, 1);
      if a == |u| {
        QuoteIdentifiersCopies(u[1..], []);
        assert u[1..] + [] == u[1..];
        assert [u[0]] + u[1..] == u;
      } else if !IsNameStart(u[a]) {
        NoNameAfterOpener(u, a);
      } else {
        NoColonAfterName(u, a, NameEnd(u, a + 1), SpacesEnd(u, NameEnd(u, a + 1)));
      }
    }
  }

  lemma KeyAtFailsAtName(v: string, a: nat)
    requires 1 <= a < |v| && !IsSpace(v[a]) && !IsNameStart(v[a])
    requires forall k :: 1 <= k < a ==> IsSpace(v[k])
    ensures KeyAt(v).None?
  {
    SpacesEndIs(v, 1, a);
  }

  lemma KeyAtFailsAtColon(v: string, a: nat, b: nat, e: nat)
    requires 1 <= a < b <= e <= |v| && IsNameStart(v[a])
    requires forall k :: 1 <= k < a ==> IsSpace(v[k])
    requires forall k :: a < k < b ==> IsNamePart(v[k])
    requires b == |v| || !IsNamePart(v[b])
    requires forall k :: b <= k < e ==> IsSpace(v[k])
    requires e == |v| || (!IsSpace(v[e]) && v[e] != ':')
    ensures KeyAt(v).None?
  {
    SpacesEndIs(v, 1, a);
    NameEndIs(v, a + 1, b);
    SpacesEndIs(v, b, e);
  }

  lemma NoNameAfterOpener(u: string, a: nat)
    requires u != [] && 1 <= a < |u| && a == SpacesEnd(u, 1) && !IsNameStart(u[a])
    ensures KeyAt([u[0]] + QuoteIdentifiers(u[1..])).None?
  {
    SpacesEndShape(u, 1);
    assert NoOpener(u[1..a]);
    RewriteAfterOpener(u, a);
    FailsAtNameAfterRewrite(u, a);
  }

  lemma FailsAtNameAfterRewrite(u: string, a: nat)
    requires 1 <= a < |u| && !IsSpace(u[a]) && !IsNameStart(u[a])
    requires forall k :: 1 <= k < a ==> IsSpace(u[k])
    ensures KeyAt([u[0]] + u[1..a] + QuoteIdentifiers(u[a..])).None?
  {
    var q := QuoteIdentifiers(u[a..]);
    var out := [u[0]] + u[1..a] + q;
    QuoteIdentifiersHead(u[a..]);
    assert forall k :: 1 <= k < a ==> out[k] == u[k];
    assert out[a] == u[a];
    KeyAtFailsAtName(out, a);
  }

  /** Rewriting after an opener whose following text holds no opener up to `e`
      leaves that text in place. */
  lemma RewriteAfterOpener(u: string, e: nat)
    requires 1 <= e <= |u| && NoOpener(u[1..e])
    ensures [u[0]] + QuoteIdentifiers(u[1..]) == [u[0]] + u[1..e] + QuoteIdentifiers(u[e..])
  {
    assert u[1..e] + u[e..] == u[1..];
    QuoteIdentifiersCopies(u[1..e], u[e..]);
  }

  lemma NoColonAfterName(u: string, a: nat, b: nat, e: nat)
    requires u != [] && 1 <= a < |u| && a == SpacesEnd(u, 1) && IsNameStart(u[a])
    requires b == NameEnd(u, a + 1) && e == SpacesEnd(u, b) && (e == |u| || u[e] != ':')
    ensures KeyAt([u[0]] + QuoteIdentifiers(u[1..])).None?
  {
    SpacesEndShape(u, 1);
    NameEndShape(u, a + 1);
    SpacesEndShape(u, b);
    assert NoOpener(u[1..e]);
    RewriteAfterOpener(u, e);
    FailsAfterRewrite(u, a, b, e);
  }

  lemma FailsAfterRewrite(u: string, a: nat, b: nat, e: nat)
    requires 1 <= a < b <= e <= |u| && IsNameStart(u[a])
    requires forall k :: 1 <= k < a ==> IsSpace(u[k])
    requires forall k :: a < k < b ==> IsNamePart(u[k])
    requires b == |u| || !IsNamePart(u[b])
    requires forall k :: b <= k < e ==> IsSpace(u[k])
    requires e == |u| || (!IsSpace(u[e]) && u[e] != ':')
    ensures KeyAt([u[0]] + u[1..e] + QuoteIdentifiers(u[e..])).None?
  {
    var q := QuoteIdentifiers(u[e..]);
    var out := [u[0]] + u[1..e] + q;
    assert forall k :: 1 <= k < e ==> out[k] == u[k];
    if e < |u| {
      QuoteIdentifiersHead(u[e..]);
      assert out[e] == u[e];
    }
    KeyAtFailsAtColon(out, a, b, e);
  }

  lemma ReplacementShape(u: string, m: KeyMatch)
    requires u != [] && KeyAt(u) == Some(m)
    ensures m.nameStart < |Replacement(u, m)| && Replacement(u, m)[0] == u[0]
    ensures NoOpener(Replacement(u, m)[1..])
    ensures forall k :: 1 <= k < m.nameStart ==> IsSpace(Replacement(u, m)[k])
    ensures Replacement(u, m)[m.nameStart] == '"'
  {
    SpacesEndShape(u, 1);
    NameEndShape(u, m.nameStart + 1);
    var rep := Replacement(u, m);
    assert rep[1..] == u[1..m.nameStart] + "\"" + u[m.nameStart..m.nameEnd] + "\":";
    assert NoOpener(u[1..m.nameStart]);
    assert NoOpener(u[m.nameStart..m.nameEnd]);
  }

  /** A key the scan has just quoted is not matched again: the replacement text
      is copied through a second pass unchanged. */
  lemma ReplacementStays(u: string, m: KeyMatch, q: string)
    requires u != [] && KeyAt(u) == Some(m)
    ensures QuoteIdentifiers(Replacement(u, m) + q) == Replacement(u, m) + QuoteIdentifiers(q)
  {
    ReplacementNoKey(u, m, q);
    CopiedAfterHead(Replacement(u, m), q);
  }

  lemma CopiedAfterHead(rep: string, q: string)
    requires rep != [] && KeyAt(rep + q).None? && NoOpener(rep[1..])
    requires (rep + q)[0] == rep[0] && (rep + q)[1..] == rep[1..] + q
    ensures QuoteIdentifiers(rep + q) == rep + QuoteIdentifiers(q)
  {
    QuoteIdentifiersSkip(rep + q);
    QuoteIdentifiersCopies(rep[1..], q);
    HeadTail(rep, QuoteIdentifiers(q));
  }

  lemma HeadTail(x: string, t: string)
    requires x != []
    ensures [x[0]] + (x[1..] + t) == x + t
  {
    assert [x[0]] + x[1..] == x;
  }

  lemma ReplacementNoKey(u: string, m: KeyMatch, q: string)
    requires u != [] && KeyAt(u) == Some(m)
    ensures var rep := Replacement(u, m);
            && rep != [] && KeyAt(rep + q).None? && NoOpener(rep[1..])
            && (rep + q)[0] == rep[0] && (rep + q)[1..] == rep[1..] + q
  {
    var rep := Replacement(u, m);
    ReplacementShape(u, m);
    var out := rep + q;
    assert forall k :: 0 <= k <= m.nameStart ==> out[k] == rep[k];
    KeyAtFailsAtName(out, m.nameStart);
    assert out[1..] == rep[1..] + q;
  }

  /** Quoting keys twice is the same as quoting them once: keys already quoted
      are left alone. */
  lemma {:induction false} QuoteIdentifiersIdempotent(u: string)
    ensures QuoteIdentifiers(QuoteIdentifiers(u)) == QuoteIdentifiers(u)
    decreases |u|
  {
    if u != [] {
      match KeyAt(u)
      case Some(m) =>
        QuoteIdentifiersIdempotent(u[m.colon + 1..]);
        IdempotentAtKey(u, m);
      case None =>
        QuoteIdentifiersIdempotent(u[1..]);
        IdempotentNoKey(u);
    }
  }

  lemma IdempotentAtKey(u: string, m: KeyMatch)
    requires u != [] && KeyAt(u) == Some(m)
    requires var r := QuoteIdentifiers(u[m.colon + 1..]); QuoteIdentifiers(r) == r
    ensures QuoteIdentifiers(QuoteIdentifiers(u)) == QuoteIdentifiers(u)
  {
    QuoteIdentifiersAtKey(u, m);
    ReplacementStays(u, m, QuoteIdentifiers(u[m.colon + 1..]));
  }

  lemma IdempotentNoKey(u: string)
    requires u != [] && KeyAt(u).None?
    requires var r := QuoteIdentifiers(u[1..]); QuoteIdentifiers(r) == r
    ensures QuoteIdentifiers(QuoteIdentifiers(u)) == QuoteIdentifiers(u)
  {
    var out := [u[0]] + QuoteIdentifiers(u[1..]);
    QuoteIdentifiersSkip(u);
    KeyAtStaysAbsent(u);
    assert out[1..] == QuoteIdentifiers(u[1..]);
  }


  // ----- _parse_relaxed_js -----

  /** `_parse_relaxed_js`: normalise the quotes, quote the keys, then `JSON.parse`;
      `None` where that throws. */
  function ParseRelaxedJs(str: string): Option<Value>
  {
    Json.Parse(QuoteIdentifiers(QuotesNormalized(str)))
  }

  /** Plain text for a one-member object: no quotes, backslashes, control
      characters, openers or colons. */
  predicate IsPlainWord(w: string)
  {
    Json.IsPlainText(w) && NoOpener(w) && forall k :: 0 <= k < |w| ==> w[k] != '\'' && w[k] != ':'
  }

  lemma QuoteIdentifiersOneMember(id: string, w: string)
    requires IsName(id) && IsPlainWord(w)
    ensures QuoteIdentifiers("{" + id + ":" + ("\"" + w + "\"}")) == "{\"" + id + "\":" + ("\"" + w + "\"}")
  {
    QuotedValueUnchanged(w);
    QuoteIdentifiersBareKey(id, "\"" + w + "\"}");
  }

  lemma QuotedValueUnchanged(w: string)
    requires IsPlainWord(w)
    ensures QuoteIdentifiers("\"" + w + "\"}") == "\"" + w + "\"}"
  {
    var rest := "\"" + w + "\"}";
    forall k | 0 <= k < |rest| ensures rest[k] != ':' {
      if 0 < k < |rest| - 2 { assert rest[k] == w[k - 1]; }
    }
    QuoteIdentifiersNoColon(rest);
  }

  lemma QuoteIdentifiersBareKey(id: string, rest: string)
    requires IsName(id)
    ensures QuoteIdentifiers("{" + id + ":" + rest) == "{\"" + id + "\":" + QuoteIdentifiers(rest)
  {
    var u := "{" + id + ":" + rest;
    var b := 1 + |id|;
    assert u[1..b] == id && u[b] == ':' && u[b + 1..] == rest;
    assert u[1] == id[0];
    SpacesEndIs(u, 1, 1);
    NameEndIs(u, 2, b);
    SpacesEndIs(u, b, b);
    var m := KeyMatch(1, b, b);
    assert KeyAt(u) == Some(m);
    assert Replacement(u, m) == "{\"" + id + "\":";
    QuoteIdentifiersAtKey(u, m);
  }

  lemma QuoteIdentifiersAtKey(u: string, m: KeyMatch)
    requires KeyAt(u) == Some(m)
    ensures QuoteIdentifiers(u) == Replacement(u, m) + QuoteIdentifiers(u[m.colon + 1..])
  {
    assert u != [];
  }

  /** A relaxed object with one unquoted key and a single- or double-quoted
      plain string value parses to the one-entry object. */
  lemma ParseRelaxedJsOneMember(id: string, q: char, w: string)
    requires q == '\'' || q == '"'
    requires IsName(id) && IsPlainWord(w)
    ensures ParseRelaxedJs("{" + id + ":" + [q] + w + [q] + "}") == Some(Obj(map[id := Str(w)]))
  {
    NormalizedOneMember(id, q, w);
    QuoteIdentifiersOneMember(id, w);
    ParseQuotedOneMember(id, w);
  }

  lemma NormalizedOneMember(id: string, q: char, w: string)
    requires q == '\'' || q == '"'
    requires IsName(id) && IsPlainWord(w)
    ensures QuotesNormalized("{" + id + ":" + [q] + w + [q] + "}") == "{" + id + ":" + ("\"" + w + "\"}")
  {
    var s := "{" + id + ":" + [q] + w + [q] + "}";
    var n := "{" + id + ":" + ("\"" + w + "\"}");
    assert |s| == |n|;
    forall k | 0 <= k < |s| ensures s[k] != '\\' && (s[k] == '\'' || s[k] == '"' <==> k == |id| + 2 || k == |s| - 2) {
      if 1 <= k <= |id| { assert s[k] == id[k - 1]; }
      else if |id| + 3 <= k < |s| - 2 { assert s[k] == w[k - |id| - 3]; }
    }
    if q == '\'' {
      QuotesNormalizedPlain(s);
      forall k | 0 <= k < |s| ensures QuotesNormalized(s)[k] == n[k] {
        if 1 <= k <= |id| { assert s[k] == id[k - 1] && n[k] == id[k - 1]; }
        else if |id| + 3 <= k < |s| - 2 { assert s[k] == w[k - |id| - 3] && n[k] == w[k - |id| - 3]; }
      }
    } else {
      assert s == n;
      QuotesNormalizedNoSingle(s);
    }
  }

  lemma ParseQuotedOneMember(id: string, w: string)
    requires IsName(id) && IsPlainWord(w)
    ensures Json.Parse("{\"" + id + "\":" + ("\"" + w + "\"}")) == Some(Obj(map[id := Str(w)]))
  {
    assert Json.IsPlainText(id) by {
      forall k | 0 <= k < |id| ensures Json.IsPlainStringChar(id[k]) {
        assert IsNamePart(id[k]);
      }
    }
    Json.ParseOneMember(id, w);
    assert "{\"" + id + "\":" + ("\"" + w + "\"}") == "{\"" + id + "\":\"" + w + "\"}";
  }
}
