/** The usage documented for `ParseCommandLine`, stated for every argument name
    and every plain word rather than for one sample line: each lemma gives the
    object the parser returns for one shape of command line. */
module Scenarios {
  import opened Values
  import opened Text
  import opened Tokenizer
  import opened ValueParser
  import opened Arguments
  import opened CommandLine
  import Json

  /** An argument name as the documentation writes them: no dash, colon,
      whitespace, quote, brace or bracket. */
  predicate IsArgName(n: string)
  {
    && n != [] && Ungrouped(n)
    && forall k :: 0 <= k < |n| ==> n[k] != '-' && n[k] != ':' && !IsSpace(n[k])
  }

  /** A plain word value such as `on` or `off`: it starts with a letter, holds
      no dash, whitespace, quote, brace or bracket, and is not a JSON literal. */
  predicate IsPlainValue(w: string)
  {
    && w != [] && ('a' <= w[0] <= 'z' || 'A' <= w[0] <= 'Z') && Ungrouped(w)
    && (forall k :: 0 <= k < |w| ==> w[k] != '-' && !IsSpace(w[k]))
    && w != "true" && w != "false" && w != "null"
  }

  /** A flag as the documentation writes them: `-` followed by an argument name. */
  predicate IsSimpleFlag(w: string)
  {
    w != [] && w[0] == '-' && IsArgName(w[1..])
  }

  /** A word of the documented examples: a simple flag or a plain value. */
  predicate IsSimpleWord(w: string)
  {
    IsSimpleFlag(w) || IsPlainValue(w)
  }

  /** No two dashes in a row. */
  predicate NoDashPair(s: string)
  {
    forall k :: 0 <= k < |s| - 1 ==> s[k] != '-' || s[k + 1] != '-'
  }

  /** Text that may follow the colon of a flag in the documented examples: no
      dash, whitespace, quote, brace or bracket (possibly empty). */
  predicate IsAttachedText(x: string)
  {
    Ungrouped(x) && forall k :: 0 <= k < |x| ==> x[k] != '-' && !IsSpace(x[k])
  }

  // ----- Building blocks -----

  /** A line made of words separated by single spaces, with no `---`: the
      parser reads the words as its tokens. */
  lemma LineOfWords(line: string, ws: seq<string>)
    requires ws != [] && line == JoinWords(ws)
    requires forall k :: 0 <= k < |ws| ==> IsWord(ws[k])
    requires line != [] && !IsSpace(line[0]) && IndexOf(line, "---").None?
    ensures ParsedCommandLine(line)
            == (var m := Accumulate(map[], Calls(ws));
                if LeadingBare(ws) == [] then m else m["_" := StrArray(LeadingBare(ws))])
  {
    TrimShape(line);
    ParsedUnfold(line);
    TokensOfWords(ws);
  }

  lemma NoDashPairJoin(a: string, b: string)
    requires NoDashPair(a) && NoDashPair(b)
    ensures NoDashPair(a + " " + b)
  {
    var s := a + " " + b;
    forall k | 0 <= k < |s| - 1 ensures s[k] != '-' || s[k + 1] != '-' {
      if k + 1 < |a| {
        assert s[k] == a[k] && s[k + 1] == a[k + 1];
      } else if k > |a| {
        assert s[k] == b[k - |a| - 1] && s[k + 1] == b[k - |a|];
      }
    }
  }

  lemma {:induction false} JoinNoDashPair(ws: seq<string>)
    requires ws != [] && forall k :: 0 <= k < |ws| ==> NoDashPair(ws[k])
    ensures NoDashPair(JoinWords(ws))
    decreases |ws|
  {
    if |ws| > 1 {
      JoinNoDashPair(ws[1..]);
      NoDashPairJoin(ws[0], JoinWords(ws[1..]));
    }
  }

  /** Text without two dashes in a row holds no `---`. */
  lemma NoTripleDash(s: string)
    requires NoDashPair(s)
    ensures IndexOf(s, "---").None?
  {
    forall k: nat | k + 3 <= |s| ensures !OccursAt(s, "---", k) {
      assert s[k..k + 3][0] == s[k] && s[k..k + 3][1] == s[k + 1];
    }
  }

  lemma JoinHead(ws: seq<string>)
    requires ws != [] && ws[0] != []
    ensures JoinWords(ws) != [] && JoinWords(ws)[0] == ws[0][0]
  {
    if |ws| > 1 {
      assert JoinWords(ws) == ws[0] + (" " + JoinWords(ws[1..]));
    }
  }

  lemma JoinTwo(a: string, b: string)
    ensures JoinWords([a, b]) == a + " " + b
  {
    assert [a, b][1..] == [b];
  }

  lemma JoinThree(a: string, b: string, c: string)
    ensures JoinWords([a, b, c]) == a + " " + b + " " + c
  {
    assert [a, b, c][1..] == [b, c];
    JoinTwo(b, c);
  }

  lemma NameWord(n: string)
    requires IsArgName(n)
    ensures IsWord(n) && IsWord("-" + n) && NoDashPair("-" + n)
    ensures StripDashes("-" + n) == n && IndexOf(n, ":").None?
  {
    PlainWord(n);
    var f := "-" + n;
    assert forall k :: 1 <= k < |f| ==> f[k] == n[k - 1];
    PlainWord(f);
    NameFacts(n);
  }

  lemma NameFacts(n: string)
    requires IsArgName(n)
    ensures StripDashes("-" + n) == n && IndexOf(n, ":").None?
  {
    var f := "-" + n;
    assert f[0] == '-' && f[1..] == n && n[0] != '-';
    assert StripDashes(f) == StripDashes(n) == n;
    NameHasNoColon(n);
  }

  lemma NameHasNoColon(n: string)
    requires IsArgName(n)
    ensures IndexOf(n, ":").None?
  {
    forall k: nat | k + 1 <= |n| ensures !OccursAt(n, ":", k) {
      assert n[k..k + 1][0] == n[k];
    }
  }

  lemma ValueWord(w: string)
    requires IsPlainValue(w)
    ensures IsWord(w) && !IsFlag(w) && NoDashPair(w) && ParseValue(w) == Str(w)
  {
    PlainWord(w);
    ParseValueBareWord(w);
  }

  lemma SimpleWordFacts(w: string)
    requires IsSimpleWord(w)
    ensures w != [] && !IsSpace(w[0]) && IsWord(w) && NoDashPair(w)
  {
    if IsSimpleFlag(w) {
      FlagWordFacts(w);
    } else {
      ValueWord(w);
    }
  }

  lemma FlagWordFacts(w: string)
    requires IsSimpleFlag(w)
    ensures IsWord(w) && NoDashPair(w)
  {
    NameWord(w[1..]);
    assert "-" + w[1..] == w;
  }

  /** Plain values are not flags. */
  lemma PlainNotFlags(ws: seq<string>)
    requires forall k :: 0 <= k < |ws| ==> IsPlainValue(ws[k])
    ensures forall k :: 0 <= k < |ws| ==> !IsFlag(ws[k])
  {
    forall k | 0 <= k < |ws| ensures !IsFlag(ws[k]) {
      ValueWord(ws[k]);
    }
  }

  /** A line of simple words separated by single spaces is read as those words:
      the positional arguments are the words before the first flag, and the
      named arguments are the calls those words make, in order. */
  lemma SimpleLine(ws: seq<string>)
    requires ws != [] && forall k :: 0 <= k < |ws| ==> IsSimpleWord(ws[k])
    ensures ParsedCommandLine(JoinWords(ws))
            == (var m := Accumulate(map[], Calls(ws));
                if LeadingBare(ws) == [] then m else m["_" := StrArray(LeadingBare(ws))])
  {
    forall k | 0 <= k < |ws| ensures ws[k] != [] && !IsSpace(ws[k][0]) && IsWord(ws[k]) && NoDashPair(ws[k]) {
      SimpleWordFacts(ws[k]);
    }
    WordsLine(ws);
  }

  /** A flag followed by its values makes one addition. */
  lemma FlagAdditions(n: string, vs: seq<string>)
    requires IsArgName(n) && forall k :: 0 <= k < |vs| ==> !IsFlag(vs[k])
    ensures Additions(["-" + n] + vs) == [(n, Following(vs))]
  {
    NameFacts(n);
    FlagTokenAdditions("-" + n, n, vs);
  }

  lemma FlagTokenAdditions(f: string, name: string, vs: seq<string>)
    requires IsFlag(f) && StripDashes(f) == name && IndexOf(name, ":").None?
    requires forall k :: 0 <= k < |vs| ==> !IsFlag(vs[k])
    ensures Additions([f] + vs) == [(name, Following(vs))]
  {
    var ts := [f] + vs;
    assert ts[0] == f && ts[1..] == vs && ts[1..1 + |vs|] == vs && ts[1 + |vs|..] == [];
    ValueCountIs(vs, |vs|);
    AdditionsNoColon(ts, |vs|);
  }

  /** The calls made for a flag followed by its values. */
  lemma FlagCalls(n: string, vs: seq<string>)
    requires IsArgName(n) && forall k :: 0 <= k < |vs| ==> !IsFlag(vs[k])
    ensures Calls(["-" + n] + vs) == [(n, Collected(ValuesOf(vs)))]
  {
    FlagAdditions(n, vs);
    CallsSingle(["-" + n] + vs, n, Following(vs));
  }

  /** Tokens without a flag make no call. */
  lemma NoFlagNoCalls(ts: seq<string>)
    requires forall k :: 0 <= k < |ts| ==> !IsFlag(ts[k])
    ensures Calls(ts) == [] && LeadingBare(ts) == ts
  {
    FlagCountAfterValues(ts, |ts|);
    OneAdditionPerFlag(ts);
  }

  lemma FlagLineWords(n: string, vs: seq<string>)
    requires IsArgName(n) && forall k :: 0 <= k < |vs| ==> IsPlainValue(vs[k])
    ensures forall k :: 0 <= k < |vs| ==> !IsFlag(vs[k])
    ensures var ws := ["-" + n] + vs;
            forall k :: 0 <= k < |ws| ==> IsSimpleWord(ws[k])
  {
    var ws := ["-" + n] + vs;
    assert ws[0][1..] == n;
    assert forall k :: 1 <= k < |ws| ==> ws[k] == vs[k - 1];
    PlainNotFlags(vs);
  }

  /** A flag followed by plain values, all separated by single spaces, gives the
      object with that flag alone, holding the values collected. */
  lemma FlagLine(n: string, vs: seq<string>)
    requires IsArgName(n) && forall k :: 0 <= k < |vs| ==> IsPlainValue(vs[k])
    ensures ParsedCommandLine(JoinWords(["-" + n] + vs)) == map[n := Collected(ValuesOf(vs))]
  {
    var ws := ["-" + n] + vs;
    FlagLineWords(n, vs);
    SimpleLine(ws);
    FlagCalls(n, vs);
    assert LeadingBare(ws) == [];
  }

  // ----- Named arguments -----

  /** `-flag` gives `{ flag: true }`. */
  lemma FlagAlone(n: string)
    requires IsArgName(n)
    ensures ParsedCommandLine("-" + n) == map[n := Bool(true)]
  {
    FlagLine(n, []);
    assert ["-" + n] + [] == ["-" + n];
  }

  /** `-flag on` gives `{ flag: 'on' }`. */
  lemma FlagWithValue(n: string, x: string)
    requires IsArgName(n) && IsPlainValue(x)
    ensures ParsedCommandLine("-" + n + " " + x) == map[n := Str(x)]
  {
    FlagLine(n, [x]);
    JoinTwo("-" + n, x);
    assert ["-" + n] + [x] == ["-" + n, x];
    ValueWord(x);
  }

  /** `-flag on off` gives `{ flag: ['on', 'off'] }`. */
  lemma FlagWithTwoValues(n: string, x: string, y: string)
    requires IsArgName(n) && IsPlainValue(x) && IsPlainValue(y)
    ensures ParsedCommandLine("-" + n + " " + x + " " + y) == map[n := Arr([Str(x), Str(y)])]
  {
    FlagLine(n, [x, y]);
    JoinThree("-" + n, x, y);
    assert ["-" + n] + [x, y] == ["-" + n, x, y];
    TwoValues(x, y);
  }

  lemma TwoValues(x: string, y: string)
    requires IsPlainValue(x) && IsPlainValue(y)
    ensures ValuesOf([x, y]) == [Str(x), Str(y)]
  {
    ValueWord(x);
    ValueWord(y);
  }

  /** `-flag on -flag off` gives `{ flag: ['on', 'off'] }`: a repeated flag
      collects its values in order. */
  lemma RepeatedFlag(n: string, x: string, y: string)
    requires IsArgName(n) && IsPlainValue(x) && IsPlainValue(y)
    ensures ParsedCommandLine(JoinWords(["-" + n, x, "-" + n, y])) == map[n := Arr([Str(x), Str(y)])]
  {
    var ws := ["-" + n, x, "-" + n, y];
    RepeatedFlagWords(n, x, y);
    SimpleLine(ws);
    RepeatedFlagCalls(n, x, y);
    TwoAdditions(n, Str(x), Str(y));
  }

  lemma RepeatedFlagCalls(n: string, x: string, y: string)
    requires IsArgName(n) && IsPlainValue(x) && IsPlainValue(y)
    ensures var ws := ["-" + n, x, "-" + n, y];
            Calls(ws) == [(n, Str(x)), (n, Str(y))] && LeadingBare(ws) == []
  {
    OneValue(x);
    OneValue(y);
    TwoFlagCalls(n, [x], n, [y]);
    assert ["-" + n, x, "-" + n, y] == (["-" + n] + [x]) + (["-" + n] + [y]);
  }

  /** Two values given for one name make an array of both. */
  lemma TwoAdditions(n: string, x: Value, y: Value)
    requires !x.Arr? && !y.Arr?
    ensures Accumulate(map[], [(n, x), (n, y)]) == map[n := Arr([x, y])]
  {
    assert [(n, x), (n, y)] == [(n, x)] + [(n, y)] && [(n, y)] == [(n, y)] + [];
    AccumulateStep(map[], n, x, [(n, y)]);
    AccumulateStep(map[n := x], n, y, []);
    assert Contribution(x) + Contribution(y) == [x, y];
  }

  lemma RepeatedFlagWords(n: string, x: string, y: string)
    requires IsArgName(n) && IsPlainValue(x) && IsPlainValue(y)
    ensures var ws := ["-" + n, x, "-" + n, y];
            forall k :: 0 <= k < |ws| ==> IsSimpleWord(ws[k])
  {
    assert ("-" + n)[1..] == n;
  }

  lemma OneValue(x: string)
    requires IsPlainValue(x)
    ensures !IsFlag(x) && Collected(ValuesOf([x])) == Str(x)
  {
    ValueWord(x);
  }

  /** Two flags, each followed by its values, make two calls in order. */
  lemma TwoFlagCalls(n: string, vs: seq<string>, m: string, us: seq<string>)
    requires IsArgName(n) && forall k :: 0 <= k < |vs| ==> !IsFlag(vs[k])
    requires IsArgName(m) && forall k :: 0 <= k < |us| ==> !IsFlag(us[k])
    ensures Calls((["-" + n] + vs) + (["-" + m] + us))
            == [(n, Collected(ValuesOf(vs))), (m, Collected(ValuesOf(us)))]
  {
    var a, b := ["-" + n] + vs, ["-" + m] + us;
    FlagAdditions(n, vs);
    AdditionsAppend(a, b);
    CallsStep(a + b, n, Following(vs), b);
    FlagCalls(m, us);
  }

  // ----- Positional arguments -----

  /** `a b` gives `{ _: ['a', 'b'] }`: words before any flag are positional. */
  lemma PositionalOnly(ws: seq<string>)
    requires ws != [] && forall k :: 0 <= k < |ws| ==> IsPlainValue(ws[k])
    ensures ParsedCommandLine(JoinWords(ws)) == map["_" := StrArray(ws)]
  {
    PlainNotFlags(ws);
    SimpleLine(ws);
    NoFlagNoCalls(ws);
  }

  /** `a b -flag on` gives `{ _: ['a', 'b'], flag: 'on' }`: the positional list
      stops at the first flag (a flag named `_` is replaced by that list). */
  lemma PositionalThenFlag(ps: seq<string>, n: string, vs: seq<string>)
    requires ps != [] && forall k :: 0 <= k < |ps| ==> IsPlainValue(ps[k])
    requires IsArgName(n) && forall k :: 0 <= k < |vs| ==> IsPlainValue(vs[k])
    ensures ParsedCommandLine(JoinWords(ps + (["-" + n] + vs)))
            == map[n := Collected(ValuesOf(vs)), "_" := StrArray(ps)]
  {
    var f := ["-" + n] + vs;
    var ws := ps + f;
    FlagLineWords(n, vs);
    PlainNotFlags(ps);
    assert forall k :: 0 <= k < |ws| ==> ws[k] == if k < |ps| then ps[k] else f[k - |ps|];
    SimpleLine(ws);
    PositionalThenFlagCalls(ps, n, vs);
  }

  lemma PositionalThenFlagCalls(ps: seq<string>, n: string, vs: seq<string>)
    requires forall k :: 0 <= k < |ps| ==> !IsFlag(ps[k])
    requires IsArgName(n) && forall k :: 0 <= k < |vs| ==> !IsFlag(vs[k])
    ensures Calls(ps + (["-" + n] + vs)) == [(n, Collected(ValuesOf(vs)))]
    ensures LeadingBare(ps + (["-" + n] + vs)) == ps
  {
    var f := ["-" + n] + vs;
    CallsAfterBare(ps, f);
    FlagCalls(n, vs);
    LeadingBareAppend(ps, f);
  }

  /** Words before a flag make no call. */
  lemma CallsAfterBare(ps: seq<string>, f: seq<string>)
    requires forall k :: 0 <= k < |ps| ==> !IsFlag(ps[k])
    requires f != [] && IsFlag(f[0])
    ensures Calls(ps + f) == Calls(f)
  {
    NoFlagNoCalls(ps);
    assert Additions(ps) == [];
    AdditionsAppend(ps, f);
    assert Additions(ps + f) == Additions(f);
  }

  /** The positional list of words followed by a flag is those words. */
  lemma LeadingBareAppend(ps: seq<string>, f: seq<string>)
    requires forall k :: 0 <= k < |ps| ==> !IsFlag(ps[k])
    requires f != [] && IsFlag(f[0])
    ensures LeadingBare(ps + f) == ps
  {
    var ws := ps + f;
    var pos := LeadingBare(ws);
    assert ws[|ps|] == f[0];
    assert pos == ws[..|ps|];
  }

  // ----- Values attached with a colon -----

  lemma AttachedWord(n: string, x: string)
    requires IsArgName(n) && IsAttachedText(x)
    ensures var w := "-" + n + ":" + x;
            IsWord(w) && NoDashPair(w) && IsFlag(w)
  {
    var w := "-" + n + ":" + x;
    assert forall k :: 1 <= k <= |n| ==> w[k] == n[k - 1];
    assert forall k :: |n| + 2 <= k < |w| ==> w[k] == x[k - |n| - 2];
    assert w[|n| + 1] == ':';
    PlainWord(w);
  }

  lemma AttachedName(n: string, x: string)
    requires IsArgName(n)
    ensures StripDashes("-" + n + ":" + x) == n + ":" + x
    ensures IndexOf(n + ":" + x, ":") == Some(|n|)
  {
    var t := n + ":" + x;
    assert "-" + n + ":" + x == "-" + t;
    assert t[0] == n[0] && t[1..] == n[1..] + ":" + x;
    assert t[|n|..|n| + 1] == ":";
    forall k | 0 <= k < |n| ensures !OccursAt(t, ":", k) {
      assert t[k..k + 1][0] == n[k];
    }
    IndexOfFirst(t, ":", |n|);
  }

  /** `-name:text` makes one call, with the value read from `text`. */
  lemma AttachedCalls(n: string, x: string)
    requires IsArgName(n)
    ensures Calls(["-" + n + ":" + x]) == [(n, ParseValue(x))]
  {
    var w := "-" + n + ":" + x;
    AttachedName(n, x);
    AdditionsColon([w], |n|);
    assert (n + ":" + x)[..|n|] == n && (n + ":" + x)[|n| + 1..] == x;
    assert [w][1..] == [];
    CallsStep([w], n, Attached(x), []);
  }

  /** A line that is one flag with a value attached after a colon gives the
      object holding that value alone. */
  lemma AttachedLine(n: string, x: string)
    requires IsArgName(n)
    requires IsWord("-" + n + ":" + x) && NoDashPair("-" + n + ":" + x)
    ensures ParsedCommandLine("-" + n + ":" + x) == map[n := ParseValue(x)]
  {
    var w := "-" + n + ":" + x;
    NoTripleDash(w);
    assert JoinWords([w]) == w;
    LineOfWords(w, [w]);
    AttachedCalls(n, x);
    assert LeadingBare([w]) == [];
  }

  /** `-flag:text` gives `{ flag: value }`, the value read from the text after
      the colon. */
  lemma AttachedFlag(n: string, x: string)
    requires IsArgName(n) && IsAttachedText(x)
    ensures ParsedCommandLine("-" + n + ":" + x) == map[n := ParseValue(x)]
  {
    AttachedWord(n, x);
    AttachedLine(n, x);
  }

  /** `-flag:on` gives `{ flag: 'on' }`. */
  lemma AttachedWordValue(n: string, x: string)
    requires IsArgName(n) && IsPlainValue(x)
    ensures ParsedCommandLine("-" + n + ":" + x) == map[n := Str(x)]
  {
    ValueWord(x);
    AttachedFlag(n, x);
  }

  /** `-flag:1` gives `{ flag: 1 }`: digits after the colon are a number. */
  lemma AttachedNumber(n: string, v: nat)
    requires IsArgName(n)
    ensures ParsedCommandLine("-" + n + ":" + Json.NatText(v)) == map[n := Num(v)]
  {
    var x := Json.NatText(v);
    assert IsAttachedText(x);
    AttachedFlag(n, x);
    ParseValueInt(v);
  }

  /** `-flag:true` gives `{ flag: true }`: the JSON literals are read as such. */
  lemma AttachedLiterals(n: string)
    requires IsArgName(n)
    ensures ParsedCommandLine("-" + n + ":true") == map[n := Bool(true)]
    ensures ParsedCommandLine("-" + n + ":false") == map[n := Bool(false)]
    ensures ParsedCommandLine("-" + n + ":null") == map[n := Null]
  {
    assert "-" + n + ":" + "true" == "-" + n + ":true";
    assert "-" + n + ":" + "false" == "-" + n + ":false";
    assert "-" + n + ":" + "null" == "-" + n + ":null";
    AttachedLiteral(n, "true");
    AttachedLiteral(n, "false");
    AttachedLiteral(n, "null");
    ParseValueLiterals();
  }

  lemma AttachedLiteral(n: string, lit: string)
    requires IsArgName(n) && (lit == "true" || lit == "false" || lit == "null")
    ensures ParsedCommandLine("-" + n + ":" + lit) == map[n := ParseValue(lit)]
  {
    AttachedFlag(n, lit);
  }

  /** `-name:x -name:y` makes two calls, in order. */
  lemma AttachedTwoCalls(n: string, x: string, y: string)
    requires IsArgName(n)
    ensures Calls(["-" + n + ":" + x, "-" + n + ":" + y]) == [(n, ParseValue(x)), (n, ParseValue(y))]
  {
    var w1, w2 := "-" + n + ":" + x, "-" + n + ":" + y;
    AttachedName(n, x);
    AdditionsColon([w1, w2], |n|);
    assert (n + ":" + x)[..|n|] == n && (n + ":" + x)[|n| + 1..] == x;
    assert [w1, w2][1..] == [w2];
    CallsStep([w1, w2], n, Attached(x), [w2]);
    AttachedCalls(n, y);
  }

  /** `-flag:1 -flag:2` gives `{ flag: [1, 2] }`: repeating a flag with
      attached values collects them in order, as with values after a space. */
  lemma RepeatedAttached(n: string, a: nat, b: nat)
    requires IsArgName(n)
    ensures ParsedCommandLine(JoinWords(["-" + n + ":" + Json.NatText(a), "-" + n + ":" + Json.NatText(b)]))
            == map[n := Arr([Num(a), Num(b)])]
  {
    var x, y := Json.NatText(a), Json.NatText(b);
    var ws := ["-" + n + ":" + x, "-" + n + ":" + y];
    assert IsAttachedText(x) && IsAttachedText(y);
    AttachedWord(n, x);
    AttachedWord(n, y);
    forall k | 0 <= k < |ws| ensures IsWord(ws[k]) && NoDashPair(ws[k]) {
    }
    WordsLine(ws);
    AttachedTwoCalls(n, x, y);
    ParseValueInt(a);
    ParseValueInt(b);
    assert LeadingBare(ws) == [];
    TwoAdditions(n, Num(a), Num(b));
  }

  /** Words with no two dashes in a row, the first not starting with
      whitespace, make a line the parser reads word by word. */
  lemma WordsLine(ws: seq<string>)
    requires ws != [] && ws[0] != [] && !IsSpace(ws[0][0])
    requires forall k :: 0 <= k < |ws| ==> IsWord(ws[k]) && NoDashPair(ws[k])
    ensures ParsedCommandLine(JoinWords(ws))
            == (var m := Accumulate(map[], Calls(ws));
                if LeadingBare(ws) == [] then m else m["_" := StrArray(LeadingBare(ws))])
  {
    var line := JoinWords(ws);
    JoinNoDashPair(ws);
    NoTripleDash(line);
    JoinHead(ws);
    LineOfWords(line, ws);
  }

  // ----- Data after a triple dash -----

  lemma {:induction false} JoinLast(ws: seq<string>)
    requires ws != [] && forall k :: 0 <= k < |ws| ==> ws[k] != []
    ensures JoinWords(ws) != []
    ensures JoinWords(ws)[|JoinWords(ws)| - 1] == ws[|ws| - 1][|ws[|ws| - 1]| - 1]
    decreases |ws|
  {
    if |ws| > 1 {
      JoinLast(ws[1..]);
      assert JoinWords(ws) == (ws[0] + " ") + JoinWords(ws[1..]);
    }
  }

  /** The first `---` of `text ---data`, when the text has no two dashes in a
      row, is the one written after the space. */
  lemma DataSplit(t: string, d: string)
    requires NoDashPair(t)
    ensures IndexOf(t + " ---" + d, "---") == Some(|t| + 1)
  {
    var line := t + " ---" + d;
    assert line[|t| + 1..|t| + 4] == "---";
    forall k | 0 <= k < |t| + 1 ensures !OccursAt(line, "---", k) {
      assert line[k..k + 3][0] == line[k] && line[k..k + 3][1] == line[k + 1];
      if k + 1 < |t| {
        assert line[k] == t[k] && line[k + 1] == t[k + 1];
      }
    }
    IndexOfFirst(line, "---", |t| + 1);
  }

  lemma TrimSpaceAfter(t: string)
    requires t != [] && !IsSpace(t[0]) && !IsSpace(t[|t| - 1])
    ensures Trim(t + " ") == t
  {
    var u := t + " ";
    assert TrimStart(u) == u;
    assert u[..|u| - 1] == t;
    TrimTrimmed(t);
  }

  /** Plain words joined by single spaces: no whitespace at either end and no
      two dashes in a row. */
  lemma PlainWordsJoined(ws: seq<string>)
    requires ws != [] && forall k :: 0 <= k < |ws| ==> IsPlainValue(ws[k])
    ensures forall k :: 0 <= k < |ws| ==> IsWord(ws[k])
    ensures var t := JoinWords(ws);
            t != [] && !IsSpace(t[0]) && !IsSpace(t[|t| - 1]) && NoDashPair(t)
  {
    forall k | 0 <= k < |ws| ensures ws[k] != [] && !IsSpace(ws[k][0]) && IsWord(ws[k]) && NoDashPair(ws[k]) {
      SimpleWordFacts(ws[k]);
    }
    forall k | 0 <= k < |ws| ensures !IsSpace(ws[k][|ws[k]| - 1]) {
      assert !IsSpace(ws[k][|ws[k]| - 1]);
    }
    JoinNoDashPair(ws);
    JoinHead(ws);
    JoinLast(ws);
  }

  /** `text ---data` starts with `__` holding the data, and the text alone is tokenized. */
  lemma DataEntries(t: string, d: string)
    requires t != [] && !IsSpace(t[0]) && !IsSpace(t[|t| - 1]) && NoDashPair(t)
    ensures InitialEntries(t + " ---" + d) == map["__" := Str(d)]
    ensures WorkingLine(t + " ---" + d) == t
  {
    var line := t + " ---" + d;
    DataSplit(t, d);
    assert line[|t| + 4..] == d && line[..|t| + 1] == t + " ";
    TrimSpaceAfter(t);
  }

  /** `--- just data` gives `{ __: ' just data' }`: nothing before the `---`,
      so there is no `_`. */
  lemma DataOnly(d: string)
    ensures ParsedCommandLine("---" + d) == map["__" := Str(d)]
  {
    var line := "---" + d;
    assert OccursAt(line, "---", 0) && line[3..] == d && line[..0] == [];
    IndexOfFirst(line, "---", 0);
    NotBlankAt(line, 0);
    ParsedUnfold(line);
    TrimShape([]);
    assert Tokens(WorkingLine(line)) == [];
  }

  /** The words before the `---` of a data line, and the entries it starts with. */
  lemma DataLineParts(ws: seq<string>, d: string)
    requires ws != [] && forall k :: 0 <= k < |ws| ==> IsPlainValue(ws[k])
    ensures var line := JoinWords(ws) + " ---" + d;
            && line != [] && !IsSpace(line[0])
            && InitialEntries(line) == map["__" := Str(d)]
            && Tokens(WorkingLine(line)) == ws
  {
    PlainWordsJoined(ws);
    DataEntries(JoinWords(ws), d);
    TokensOfWords(ws);
  }

  /** `a b --- raw data here` gives `{ _: ['a', 'b'], __: ' raw data here' }`:
      everything after the first `---`, its leading space included, is kept
      as it is under `__`. */
  lemma DataLine(ws: seq<string>, d: string)
    requires ws != [] && forall k :: 0 <= k < |ws| ==> IsPlainValue(ws[k])
    ensures ParsedCommandLine(JoinWords(ws) + " ---" + d) == map["__" := Str(d), "_" := StrArray(ws)]
  {
    var line := JoinWords(ws) + " ---" + d;
    DataLineParts(ws, d);
    TrimShape(line);
    ParsedUnfold(line);
    PlainNotFlags(ws);
    NoFlagNoCalls(ws);
  }

  // ----- Quoted and object values -----

  lemma QuotedNoDashPair(w: string)
    requires NoDashPair(w)
    ensures NoDashPair("\"" + w + "\"")
  {
    var q := "\"" + w + "\"";
    forall k | 0 <= k < |q| - 1 ensures q[k] != '-' || q[k + 1] != '-' {
      if 1 <= k && k + 1 < |q| - 1 {
        assert q[k] == w[k - 1] && q[k + 1] == w[k];
      }
    }
  }

  lemma QuotedFlagWords(n: string, w: string)
    requires IsArgName(n) && Json.IsPlainText(w) && NoDashPair(w)
    ensures var q := "\"" + w + "\"";
            var line := "-" + n + " " + q;
            && IsWord("-" + n) && IsWord(q) && !IsFlag(q)
            && line == JoinWords(["-" + n, q]) && NoDashPair(line)
  {
    var q := "\"" + w + "\"";
    NameWord(n);
    TokensQuotedRun(w);
    QuotedNoDashPair(w);
    NoDashPairJoin("-" + n, q);
    JoinTwo("-" + n, q);
  }

  /** `-flag "always on"` gives `{ flag: 'always on' }`: a double-quoted value is
      one token, spaces included, and loses its quotes. */
  lemma QuotedFlag(n: string, w: string)
    requires IsArgName(n) && Json.IsPlainText(w) && NoDashPair(w) && !LooksLikeLiteral(w)
    ensures ParsedCommandLine("-" + n + " \"" + w + "\"") == map[n := Str(w)]
  {
    var q := "\"" + w + "\"";
    var line := "-" + n + " " + q;
    assert "-" + n + " \"" + w + "\"" == line;
    QuotedFlagWords(n, w);
    NoTripleDash(line);
    LineOfWords(line, ["-" + n, q]);
    QuotedFlagCalls(n, w);
  }

  lemma QuotedFlagCalls(n: string, w: string)
    requires IsArgName(n) && Json.IsPlainText(w) && !LooksLikeLiteral(w)
    ensures var ws := ["-" + n, "\"" + w + "\""];
            Calls(ws) == [(n, Str(w))] && LeadingBare(ws) == []
  {
    var q := "\"" + w + "\"";
    assert ["-" + n, q] == ["-" + n] + [q];
    FlagCalls(n, [q]);
    ParseValueQuotedText(w);
  }

  lemma QuotedAttachedWord(n: string, w: string)
    requires IsArgName(n) && Json.IsPlainText(w) && NoDashPair(w)
    ensures var t := "-" + n + ":" + ("\"" + w + "\"");
            IsWord(t) && NoDashPair(t)
  {
    var p := "-" + n + ":";
    var q := "\"" + w + "\"";
    var t := "-" + n + ":" + q;
    assert t == p + "\"" + w + "\"";
    assert forall k :: 1 <= k <= |n| ==> p[k] == n[k - 1];
    QuotedWord(p, w);
    QuotedNoDashPair(w);
    forall k | 0 <= k < |t| - 1 ensures t[k] != '-' || t[k + 1] != '-' {
      if k + 1 < |p| {
        assert t[k + 1] == p[k + 1];
      } else if k >= |p| {
        assert t[k] == q[k - |p|] && t[k + 1] == q[k - |p| + 1];
      }
    }
  }

  /** `-flag:"always on"` gives `{ flag: 'always on' }`: a double-quoted
      attached value is one token with its spaces, and loses its quotes. */
  lemma QuotedAttached(n: string, w: string)
    requires IsArgName(n) && Json.IsPlainText(w) && NoDashPair(w) && !LooksLikeLiteral(w)
    ensures ParsedCommandLine("-" + n + ":" + ("\"" + w + "\"")) == map[n := Str(w)]
  {
    QuotedAttachedWord(n, w);
    AttachedLine(n, "\"" + w + "\"");
    ParseValueQuotedText(w);
  }

  lemma ObjectFlagWord(n: string, id: string, q: char, v: string)
    requires IsArgName(n) && (q == '\'' || q == '"')
    requires Relaxed.IsName(id) && IsAttachedText(v)
    ensures var w := "-" + n + ":" + RelaxedObjectText(id, q, v);
            IsWord(w) && NoDashPair(w)
  {
    var p := "-" + n + ":";
    var body := id + ":" + [q] + v + [q];
    var w := "-" + n + ":" + RelaxedObjectText(id, q, v);
    assert w == p + "{" + body + "}";
    assert forall k :: 1 <= k <= |n| ==> p[k] == n[k - 1];
    assert forall k :: 0 <= k < |id| ==> body[k] == id[k];
    assert forall k :: |id| + 2 <= k < |body| - 1 ==> body[k] == v[k - |id| - 2];
    GroupWord(p, '{', '}', body);
    forall k | 1 <= k < |w| ensures w[k] != '-' {
      if k < |p| {
        assert w[k] == p[k];
      } else if |p| < k < |w| - 1 {
        assert w[k] == body[k - |p| - 1];
      }
    }
  }

  /** `-flag:{xyz:'123'}` and `-flag:{xyz:"123"}` give `{ flag: { xyz: '123' } }`:
      an object literal with an unquoted key is read as relaxed JavaScript. */
  lemma ObjectFlag(n: string, id: string, q: char, v: string)
    requires IsArgName(n) && (q == '\'' || q == '"')
    requires Relaxed.IsName(id) && Relaxed.IsPlainWord(v) && IsAttachedText(v)
    ensures ParsedCommandLine("-" + n + ":" + RelaxedObjectText(id, q, v))
            == map[n := Obj(map[id := Str(v)])]
  {
    ObjectFlagWord(n, id, q, v);
    AttachedLine(n, RelaxedObjectText(id, q, v));
    ParseValueRelaxedObject(id, q, v);
  }

  /** `{"key":"w"}`: a JSON object with one string member. */
  function JsonObjectText(key: string, w: string): string
  {
    "{\"" + key + "\":\"" + w + "\"}"
  }

  lemma JsonObjectFlagWord(n: string, key: string, v: string)
    requires IsArgName(n) && IsAttachedText(key) && IsAttachedText(v)
    ensures var w := "-" + n + ":" + JsonObjectText(key, v);
            IsWord(w) && NoDashPair(w)
  {
    var p := "-" + n + ":";
    var body := "\"" + key + "\":\"" + v + "\"";
    var w := "-" + n + ":" + JsonObjectText(key, v);
    assert w == p + "{" + body + "}";
    assert forall k :: 1 <= k <= |n| ==> p[k] == n[k - 1];
    assert forall k :: 1 <= k <= |key| ==> body[k] == key[k - 1];
    assert forall k :: |key| + 4 <= k < |body| - 1 ==> body[k] == v[k - |key| - 4];
    GroupWord(p, '{', '}', body);
    forall k | 1 <= k < |w| ensures w[k] != '-' {
      if k < |p| {
        assert w[k] == p[k];
      } else if |p| < k < |w| - 1 {
        assert w[k] == body[k - |p| - 1];
      }
    }
  }

  /** `-flag:{"xyz":"123"}` gives `{ flag: { xyz: '123' } }`: an attached
      JSON object is read as JSON. */
  lemma JsonObjectFlag(n: string, key: string, v: string)
    requires IsArgName(n) && IsAttachedText(key) && IsAttachedText(v)
    requires Json.IsPlainText(key) && Json.IsPlainText(v)
    ensures ParsedCommandLine("-" + n + ":" + JsonObjectText(key, v)) == map[n := Obj(map[key := Str(v)])]
  {
    var t := JsonObjectText(key, v);
    JsonObjectFlagWord(n, key, v);
    AttachedLine(n, t);
    Json.ParseOneMember(key, v);
    assert t[0] == '{';
    ParseValueJsonFirst(t, Obj(map[key := Str(v)]));
  }

  /** `[n1,n2,...]`: a JSON array of natural numbers. */
  function ArrayText(ns: seq<nat>): string
    requires ns != []
  {
    "[" + Json.NatList(ns) + "]"
  }

  lemma ArrayFlagWord(n: string, ns: seq<nat>)
    requires IsArgName(n) && ns != []
    ensures var w := "-" + n + ":" + ArrayText(ns);
            IsWord(w) && NoDashPair(w)
  {
    var p := "-" + n + ":";
    var body := Json.NatList(ns);
    var w := "-" + n + ":" + ArrayText(ns);
    assert w == p + "[" + body + "]";
    assert forall k :: 1 <= k <= |n| ==> p[k] == n[k - 1];
    Json.NatListChars(ns);
    GroupWord(p, '[', ']', body);
    forall k | 1 <= k < |w| ensures w[k] != '-' {
      if k < |p| {
        assert w[k] == p[k];
      } else if |p| < k < |w| - 1 {
        assert w[k] == body[k - |p| - 1];
      }
    }
  }

  /** `-flag:[1,2,3]` gives `{ flag: [1, 2, 3] }`: an attached JSON array is
      read as JSON. */
  lemma ArrayFlag(n: string, ns: seq<nat>)
    requires IsArgName(n) && ns != []
    ensures ParsedCommandLine("-" + n + ":" + ArrayText(ns)) == map[n := Arr(Json.Nums(ns))]
  {
    var t := ArrayText(ns);
    ArrayFlagWord(n, ns);
    AttachedLine(n, t);
    Json.ParseNatArray(ns);
    assert t[0] == '[';
    ParseValueJsonFirst(t, Arr(Json.Nums(ns)));
  }

  /** A relaxed object with a single-quoted value holds no double quote and no dash. */
  lemma RelaxedObjectChars(id: string, v: string)
    requires Relaxed.IsName(id) && IsAttachedText(v)
    ensures var inner := RelaxedObjectText(id, '\'', v);
            forall k :: 0 <= k < |inner| ==> inner[k] != '"' && inner[k] != '-'
  {
    var inner := RelaxedObjectText(id, '\'', v);
    assert forall k :: 1 <= k <= |id| ==> inner[k] == id[k - 1];
    assert forall k :: |id| + 3 <= k < |inner| - 2 ==> inner[k] == v[k - |id| - 3];
  }

  lemma QuotedObjectFlagWord(n: string, id: string, v: string)
    requires IsArgName(n) && Relaxed.IsName(id) && IsAttachedText(v)
    ensures var w := "-" + n + ":" + ("\"" + RelaxedObjectText(id, '\'', v) + "\"");
            IsWord(w) && NoDashPair(w)
  {
    var p := "-" + n + ":";
    var inner := RelaxedObjectText(id, '\'', v);
    var w := "-" + n + ":" + ("\"" + inner + "\"");
    assert w == p + "\"" + inner + "\"";
    assert forall k :: 1 <= k <= |n| ==> p[k] == n[k - 1];
    RelaxedObjectChars(id, v);
    QuotedWord(p, inner);
    forall k | 1 <= k < |w| ensures w[k] != '-' {
      if k < |p| {
        assert w[k] == p[k];
      } else if |p| < k < |w| - 1 {
        assert w[k] == inner[k - |p| - 1];
      }
    }
  }

  /** `-flag:"{xyz:'123'}"` gives `{ flag: { xyz: '123' } }`: double quotes
      around a relaxed object literal keep it one token and are removed
      before it is read. */
  lemma QuotedObjectFlag(n: string, id: string, v: string)
    requires IsArgName(n) && Relaxed.IsName(id) && Relaxed.IsPlainWord(v) && IsAttachedText(v)
    ensures ParsedCommandLine("-" + n + ":" + ("\"" + RelaxedObjectText(id, '\'', v) + "\""))
            == map[n := Obj(map[id := Str(v)])]
  {
    QuotedObjectFlagWord(n, id, v);
    AttachedLine(n, "\"" + RelaxedObjectText(id, '\'', v) + "\"");
    ParseValueRelaxedObject(id, '\'', v);
  }
}
