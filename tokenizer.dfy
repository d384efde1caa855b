/** `_tokenize`: splits the working command line into tokens at spaces that
    lie outside a double-quoted run and outside any brace or bracket nesting. */
module Tokenizer {
  import opened Values
  import opened Text

  /** The scanner's variables: `in_quotes`, `brace_depth`, `bracket_depth`,
      the `current` buffer and the tokens pushed so far.  The depths are
      unbounded integers: unbalanced input drives them negative. */
  datatype ScanState = ScanState(
    inQuotes: bool, braceDepth: int, bracketDepth: int, current: string, tokens: seq<string>)

  const Start := ScanState(false, 0, 0, [], [])

  /** Not inside a quoted run and not inside any brace or bracket. */
  predicate AtTopLevel(st: ScanState)
  {
    !st.inQuotes && st.braceDepth == 0 && st.bracketDepth == 0
  }

  /** One iteration of the scanning loop on character `c`. */
  function Step(st: ScanState, c: char): ScanState
  {
    if c == '"' && st.braceDepth == 0 && st.bracketDepth == 0 then
      st.(inQuotes := !st.inQuotes, current := st.current + [c])
    else if c == '{' && !st.inQuotes then
      st.(braceDepth := st.braceDepth + 1, current := st.current + [c])
    else if c == '}' && !st.inQuotes then
      st.(braceDepth := st.braceDepth - 1, current := st.current + [c])
    else if c == '[' && !st.inQuotes then
      st.(bracketDepth := st.bracketDepth + 1, current := st.current + [c])
    else if c == ']' && !st.inQuotes then
      st.(bracketDepth := st.bracketDepth - 1, current := st.current + [c])
    else if c == ' ' && AtTopLevel(st) then
      if Trim(st.current) != [] then st.(current := [], tokens := st.tokens + [Trim(st.current)])
      else st
    else
      st.(current := st.current + [c])
  }

  /** The scanner's state after reading all of `s`, starting from `st`. */
  function RunFrom(st: ScanState, s: string): ScanState
    decreases |s|
  {
    if s == [] then st else RunFrom(Step(st, s[0]), s[1..])
  }

  /** The final flush at the end of the input. */
  function Flush(st: ScanState): seq<string>
  {
    if Trim(st.current) != [] then st.tokens + [Trim(st.current)] else st.tokens
  }

  /** The tokens `_tokenize` returns for `line`. */
  function Tokens(line: string): seq<string>
  {
    Flush(RunFrom(Start, line))
  }

  /** A token is non-empty and neither starts nor ends with whitespace. */
  predicate IsToken(t: string)
  {
    t != [] && !IsSpace(t[0]) && !IsSpace(t[|t| - 1])
  }

  predicate AllTokens(ts: seq<string>)
  {
    forall k :: 0 <= k < |ts| ==> IsToken(ts[k])
  }

  lemma TrimIsToken(s: string)
    requires Trim(s) != []
    ensures IsToken(Trim(s))
  {
    TrimShape(s);
  }

  /** The character scan of `_tokenize`. */
  method Tokenize(line: string) returns (tokens: seq<string>)
    ensures tokens == Tokens(line)
    ensures AllTokens(tokens)
  {
    tokens := [];
    var current: string := [];
    var inQuotes := false;
    var braceDepth, bracketDepth := 0, 0;
    var i := 0;
    while i < |line|
      invariant 0 <= i <= |line|
      invariant RunFrom(ScanState(inQuotes, braceDepth, bracketDepth, current, tokens), line[i..])
                == RunFrom(Start, line)
      invariant AllTokens(tokens)
    {
      var c := line[i];
      ghost var before := ScanState(inQuotes, braceDepth, bracketDepth, current, tokens);
      if c == '"' && braceDepth == 0 && bracketDepth == 0 {
        inQuotes := !inQuotes;
        current := current + [c];
      } else if c == '{' && !inQuotes {
        braceDepth := braceDepth + 1;
        current := current + [c];
      } else if c == '}' && !inQuotes {
        braceDepth := braceDepth - 1;
        current := current + [c];
      } else if c == '[' && !inQuotes {
        bracketDepth := bracketDepth + 1;
        current := current + [c];
      } else if c == ']' && !inQuotes {
        bracketDepth := bracketDepth - 1;
        current := current + [c];
      } else if c == ' ' && !inQuotes && braceDepth == 0 && bracketDepth == 0 {
        if Trim(current) != [] {
          TrimIsToken(current);
          tokens := tokens + [Trim(current)];
          current := [];
        }
      } else {
        current := current + [c];
      }
      assert ScanState(inQuotes, braceDepth, bracketDepth, current, tokens) == Step(before, c);
      assert line[i..][1..] == line[i + 1..];
      i := i + 1;
    }
    if Trim(current) != [] {
      TrimIsToken(current);
      tokens := tokens + [Trim(current)];
    }
  }

  // ----- Properties of the scan -----

  lemma {:induction false} RunFromAppend(st: ScanState, x: string, y: string)
    ensures RunFrom(st, x + y) == RunFrom(RunFrom(st, x), y)
    decreases |x|
  {
    if x != [] {
      assert (x + y)[0] == x[0] && (x + y)[1..] == x[1..] + y;
      RunFromAppend(Step(st, x[0]), x[1..], y);
    } else {
      assert x + y == y;
    }
  }

  lemma {:induction false} RunKeepsTokens(st: ScanState, s: string)
    requires AllTokens(st.tokens)
    ensures AllTokens(RunFrom(st, s).tokens)
    decreases |s|
  {
    if s != [] {
      if Trim(st.current) != [] {
        TrimIsToken(st.current);
      }
      RunKeepsTokens(Step(st, s[0]), s[1..]);
    }
  }

  /** Every token is non-empty and already trimmed. */
  lemma TokensAreTrimmed(line: string)
    ensures AllTokens(Tokens(line))
    ensures forall t <- Tokens(line) :: Trim(t) == t
  {
    var st := RunFrom(Start, line);
    RunKeepsTokens(Start, line);
    if Trim(st.current) != [] {
      TrimIsToken(st.current);
    }
    var ts := Tokens(line);
    assert AllTokens(ts);
    forall t <- ts ensures Trim(t) == t {
      TrimTrimmed(t);
    }
  }

  /** Two scanner states that agree except that `x` has already pushed the
      tokens `pre` and its buffer carries the extra leading whitespace `w`. */
  predicate Related(x: ScanState, y: ScanState, pre: seq<string>, w: string)
  {
    && x.inQuotes == y.inQuotes
    && x.braceDepth == y.braceDepth
    && x.bracketDepth == y.bracketDepth
    && x.tokens == pre + y.tokens
    && x.current == w + y.current
    && IsBlank(w)
  }

  /** The flags and depths after reading `c` depend only on the flags and depths before. */
  lemma StepFlags(x: ScanState, y: ScanState, c: char)
    requires x.inQuotes == y.inQuotes && x.braceDepth == y.braceDepth && x.bracketDepth == y.bracketDepth
    ensures Step(x, c).inQuotes == Step(y, c).inQuotes
    ensures Step(x, c).braceDepth == Step(y, c).braceDepth
    ensures Step(x, c).bracketDepth == Step(y, c).bracketDepth
  {
  }

  lemma StepCurrent(st: ScanState, c: char)
    ensures !(c == ' ' && AtTopLevel(st)) ==>
              Step(st, c).current == st.current + [c] && Step(st, c).tokens == st.tokens
    ensures c == ' ' && AtTopLevel(st) && Trim(st.current) != [] ==>
              Step(st, c).current == [] && Step(st, c).tokens == st.tokens + [Trim(st.current)]
    ensures c == ' ' && AtTopLevel(st) && Trim(st.current) == [] ==> Step(st, c) == st
  {
  }

  lemma StepRelated(x: ScanState, y: ScanState, pre: seq<string>, w: string, c: char)
    returns (w': string)
    requires Related(x, y, pre, w)
    ensures Related(Step(x, c), Step(y, c), pre, w')
  {
    if c != ' ' || !AtTopLevel(x) {
      StepRelatedAppend(x, y, pre, w, c);
      w' := w;
    } else if Trim(y.current) != [] {
      StepRelatedFlush(x, y, pre, w);
      w' := [];
    } else {
      StepRelatedKeep(x, y, pre, w);
      w' := w;
    }
  }

  lemma StepRelatedAppend(x: ScanState, y: ScanState, pre: seq<string>, w: string, c: char)
    requires Related(x, y, pre, w) && !(c == ' ' && AtTopLevel(x))
    ensures Related(Step(x, c), Step(y, c), pre, w)
  {
    StepFlags(x, y, c);
    StepCurrent(x, c);
    StepCurrent(y, c);
    assert (w + y.current) + [c] == w + (y.current + [c]);
  }

  lemma StepRelatedFlush(x: ScanState, y: ScanState, pre: seq<string>, w: string)
    requires Related(x, y, pre, w) && AtTopLevel(x) && Trim(y.current) != []
    ensures Related(Step(x, ' '), Step(y, ' '), pre, [])
  {
    StepFlags(x, y, ' ');
    StepCurrent(x, ' ');
    StepCurrent(y, ' ');
    TrimBlankPrefix(w, y.current);
    var t := Trim(y.current);
    assert (pre + y.tokens) + [t] == pre + (y.tokens + [t]);
  }

  lemma StepRelatedKeep(x: ScanState, y: ScanState, pre: seq<string>, w: string)
    requires Related(x, y, pre, w) && AtTopLevel(x) && Trim(y.current) == []
    ensures Related(Step(x, ' '), Step(y, ' '), pre, w)
  {
    StepFlags(x, y, ' ');
    StepCurrent(x, ' ');
    StepCurrent(y, ' ');
    TrimBlankPrefix(w, y.current);
  }

  lemma {:induction false} RunFromRelated(x: ScanState, y: ScanState, pre: seq<string>, w: string, s: string)
    returns (w': string)
    requires Related(x, y, pre, w)
    ensures Related(RunFrom(x, s), RunFrom(y, s), pre, w')
    decreases |s|
  {
    if s == [] {
      w' := w;
    } else {
      var v := StepRelated(x, y, pre, w, s[0]);
      w' := RunFromRelated(Step(x, s[0]), Step(y, s[0]), pre, v, s[1..]);
    }
  }

  lemma FlushRelated(x: ScanState, y: ScanState, pre: seq<string>, w: string)
    requires Related(x, y, pre, w)
    ensures Flush(x) == pre + Flush(y)
  {
    TrimBlankPrefix(w, y.current);
  }

  /** A space read at top level ends the current token: the tokens of
      `a + " " + b` are those of `a` followed by those of `b`. */
  lemma TokensSplit(a: string, b: string)
    requires AtTopLevel(RunFrom(Start, a))
    ensures Tokens(a + " " + b) == Tokens(a) + Tokens(b)
  {
    var A := RunFrom(Start, a);
    RunFromAppend(Start, a, " " + b);
    assert a + " " + b == a + (" " + b);
    assert (" " + b)[0] == ' ' && (" " + b)[1..] == b;
    var B := Step(A, ' ');
    assert RunFrom(Start, a + " " + b) == RunFrom(B, b);
    var w := if Trim(A.current) == [] then A.current else [];
    if Trim(A.current) == [] {
      TrimShape(A.current);
    }
    assert Related(B, Start, Flush(A), w);
    var w' := RunFromRelated(B, Start, Flush(A), w, b);
    FlushRelated(RunFrom(B, b), RunFrom(Start, b), Flush(A), w');
  }

  lemma {:induction false} RunWithoutSpace(st: ScanState, s: string)
    requires forall k :: 0 <= k < |s| ==> s[k] != ' '
    ensures RunFrom(st, s).current == st.current + s
    ensures RunFrom(st, s).tokens == st.tokens
    decreases |s|
  {
    if s != [] {
      RunWithoutSpace(Step(st, s[0]), s[1..]);
      assert st.current + [s[0]] + s[1..] == st.current + s;
    } else {
      assert st.current + s == st.current;
    }
  }

  /** The token list for one space-free field: its trimmed text unless that is empty. */
  function Field(s: string): seq<string>
  {
    if Trim(s) != [] then [Trim(s)] else []
  }

  /** Without a space character nothing is split: the line is at most one token. */
  lemma TokensWithoutSpace(s: string)
    requires forall k :: 0 <= k < |s| ==> s[k] != ' '
    ensures Tokens(s) == Field(s)
  {
    RunWithoutSpace(Start, s);
    assert [] + s == s;
  }

  /** No double quote, brace or bracket. */
  predicate Ungrouped(s: string)
  {
    forall k :: 0 <= k < |s| ==> s[k] != '"' && s[k] != '{' && s[k] != '}' && s[k] != '[' && s[k] != ']'
  }

  lemma {:induction false} RunUngrouped(st: ScanState, s: string)
    requires Ungrouped(s)
    ensures RunFrom(st, s).inQuotes == st.inQuotes
    ensures RunFrom(st, s).braceDepth == st.braceDepth
    ensures RunFrom(st, s).bracketDepth == st.bracketDepth
    decreases |s|
  {
    if s != [] {
      RunUngrouped(Step(st, s[0]), s[1..]);
    }
  }

  /** The non-empty trimmed space-separated fields of `s`, in order. */
  function Fields(s: string): seq<string>
    decreases |s|
  {
    match IndexOf(s, " ")
    case None => Field(s)
    case Some(k) => Field(s[..k]) + Fields(s[k + 1..])
  }

  /** A line without double quotes, braces or brackets splits into its
      non-empty trimmed space-separated fields. */
  lemma {:induction false} TokensUngrouped(s: string)
    requires Ungrouped(s)
    ensures Tokens(s) == Fields(s)
    decreases |s|
  {
    match IndexOf(s, " ")
    case None =>
      forall k | 0 <= k < |s| ensures s[k] != ' ' {
        SpaceOccurs(s, k);
      }
      TokensWithoutSpace(s);
    case Some(k) =>
      FirstSpace(s, k);
      FirstSpaceSplit(s, k);
      TokensUngrouped(s[k + 1..]);
  }

  /** Where `IndexOf` finds the first space. */
  lemma FirstSpace(s: string, k: nat)
    requires IndexOf(s, " ") == Some(k)
    ensures k < |s| && s[k] == ' ' && forall m :: 0 <= m < k ==> s[m] != ' '
  {
    SpaceOccurs(s, k);
    forall m | 0 <= m < k ensures s[m] != ' ' {
      SpaceOccurs(s, m);
    }
  }

  /** The one-character pattern " " occurs exactly where the character is a space. */
  lemma SpaceOccurs(s: string, m: nat)
    requires m < |s|
    ensures OccursAt(s, " ", m) <==> s[m] == ' '
  {
    assert s[m..m + 1] == [s[m]];
  }

  /** At the first space of an ungrouped line the text before it is one field. */
  lemma FirstSpaceSplit(s: string, k: nat)
    requires Ungrouped(s) && k < |s| && s[k] == ' ' && forall m :: 0 <= m < k ==> s[m] != ' '
    ensures Ungrouped(s[k + 1..])
    ensures Tokens(s) == Field(s[..k]) + Tokens(s[k + 1..])
  {
    var a, b := s[..k], s[k + 1..];
    assert s == a + " " + b;
    UngroupedSlice(s, 0, k);
    UngroupedSlice(s, k + 1, |s|);
    SpaceAfterField(a, b);
  }

  /** A space after a run of ungrouped text without spaces ends one field. */
  lemma SpaceAfterField(a: string, b: string)
    requires Ungrouped(a) && forall m :: 0 <= m < |a| ==> a[m] != ' '
    ensures Tokens(a + " " + b) == Field(a) + Tokens(b)
  {
    RunUngrouped(Start, a);
    TokensSplit(a, b);
    TokensWithoutSpace(a);
  }

  lemma UngroupedSlice(s: string, i: nat, j: nat)
    requires Ungrouped(s) && i <= j <= |s|
    ensures Ungrouped(s[i..j])
  {
    forall m | 0 <= m < j - i ensures s[i..j][m] == s[i + m] { }
  }

  lemma {:induction false} RunInQuotes(st: ScanState, w: string)
    requires st.inQuotes && st.braceDepth == 0 && st.bracketDepth == 0
    requires forall k :: 0 <= k < |w| ==> w[k] != '"'
    ensures RunFrom(st, w) == st.(current := st.current + w)
    decreases |w|
  {
    if w != [] {
      RunInQuotes(Step(st, w[0]), w[1..]);
      assert st.current + [w[0]] + w[1..] == st.current + w;
    } else {
      assert st.current + w == st.current;
    }
  }

  /** A double-quoted run is one token, spaces, braces and brackets included. */
  lemma TokensQuotedRun(w: string)
    requires forall k :: 0 <= k < |w| ==> w[k] != '"'
    ensures Tokens("\"" + w + "\"") == ["\"" + w + "\""]
    ensures AtTopLevel(RunFrom(Start, "\"" + w + "\""))
  {
    var q := "\"" + w + "\"";
    RunQuoted(w);
    TrimTrimmed(q);
  }

  lemma RunQuoted(w: string)
    requires forall k :: 0 <= k < |w| ==> w[k] != '"'
    ensures RunFrom(Start, "\"" + w + "\"") == ScanState(false, 0, 0, "\"" + w + "\"", [])
  {
    var q := "\"" + w + "\"";
    RunFromAppend(Start, "\"", w + "\"");
    assert q == "\"" + (w + "\"");
    var A := RunFrom(Start, "\"");
    assert A == ScanState(true, 0, 0, "\"", []);
    RunFromAppend(A, w, "\"");
    RunInQuotes(A, w);
  }

  // ----- Lines made of words -----

  /** A word is read back as exactly one token and leaves the scanner outside
      any quoted run or nesting. */
  predicate IsWord(w: string)
  {
    Tokens(w) == [w] && AtTopLevel(RunFrom(Start, w))
  }

  /** The words separated by single spaces. */
  function JoinWords(ws: seq<string>): string
    requires ws != []
    decreases |ws|
  {
    if |ws| == 1 then ws[0] else ws[0] + " " + JoinWords(ws[1..])
  }

  /** Words joined by single spaces are tokenized back into the same words. */
  lemma {:induction false} TokensOfWords(ws: seq<string>)
    requires ws != [] && forall k :: 0 <= k < |ws| ==> IsWord(ws[k])
    ensures Tokens(JoinWords(ws)) == ws
    decreases |ws|
  {
    if |ws| > 1 {
      assert IsWord(ws[0]);
      TokensSplit(ws[0], JoinWords(ws[1..]));
      TokensOfWords(ws[1..]);
      assert [ws[0]] + ws[1..] == ws;
    }
  }

  /** Text with no whitespace and no quote, brace or bracket is a word. */
  lemma PlainWord(w: string)
    requires w != [] && Ungrouped(w) && forall k :: 0 <= k < |w| ==> !IsSpace(w[k])
    ensures IsWord(w)
  {
    RunUngrouped(Start, w);
    TokensWithoutSpace(w);
    TrimTrimmed(w);
  }

  /** Inside braces or brackets, text without braces or brackets is appended to
      the current token as it is: its spaces and double quotes split nothing. */
  lemma {:induction false} RunInsideGroup(st: ScanState, body: string)
    requires !st.inQuotes && (st.braceDepth != 0 || st.bracketDepth != 0)
    requires forall k :: 0 <= k < |body| ==> body[k] !in "{}[]"
    ensures RunFrom(st, body) == st.(current := st.current + body)
    decreases |body|
  {
    if body != [] {
      RunInsideGroup(Step(st, body[0]), body[1..]);
      assert st.current + [body[0]] + body[1..] == st.current + body;
    } else {
      assert st.current + body == st.current;
    }
  }

  /** A literal opened and closed by the same kind of bracket, with no braces
      or brackets in between, is appended whole to the current token and takes
      the scan from top level back to top level. */
  lemma RunGroup(st: ScanState, open: char, close: char, body: string)
    requires (open == '{' && close == '}') || (open == '[' && close == ']')
    requires AtTopLevel(st)
    requires forall k :: 0 <= k < |body| ==> body[k] !in "{}[]"
    ensures RunFrom(st, [open] + body + [close]) == st.(current := st.current + [open] + body + [close])
  {
    var g := [open] + body + [close];
    assert g[0] == open && g[1..] == body + [close];
    var B := Step(st, open);
    assert RunFrom(st, g) == RunFrom(B, body + [close]);
    RunFromAppend(B, body, [close]);
    RunInsideGroup(B, body);
    var C := B.(current := B.current + body);
    assert [close][1..] == [];
    assert RunFrom(C, [close]) == Step(C, close);
  }

  /** A space-free prefix with no quote, brace or bracket only fills the current token. */
  lemma PrefixRun(p: string)
    requires Ungrouped(p) && forall k :: 0 <= k < |p| ==> p[k] != ' '
    ensures RunFrom(Start, p) == Start.(current := p)
  {
    RunUngrouped(Start, p);
    RunWithoutSpace(Start, p);
    assert [] + p == p;
  }

  /** Ungrouped text followed by one object or array literal whose body holds
      no braces or brackets is a word, even when the literal has spaces or
      double quotes inside: `-flag:{xyz:"123"}`, `-flag:{a: 1}` and
      `-ids:[1, 2, 3]` are one token each. */
  lemma GroupWord(p: string, open: char, close: char, body: string)
    requires (open == '{' && close == '}') || (open == '[' && close == ']')
    requires p != [] && !IsSpace(p[0]) && Ungrouped(p)
    requires forall k :: 0 <= k < |p| ==> p[k] != ' '
    requires forall k :: 0 <= k < |body| ==> body[k] !in "{}[]"
    ensures IsWord(p + [open] + body + [close])
  {
    var g := [open] + body + [close];
    var w := p + [open] + body + [close];
    PrefixRun(p);
    RunFromAppend(Start, p, g);
    assert w == p + g;
    RunGroup(Start.(current := p), open, close, body);
    assert RunFrom(Start, w) == Start.(current := w);
    assert w[0] == p[0] && w[|w| - 1] == close;
    TrimTrimmed(w);
  }

  /** Ungrouped text followed by a double-quoted run is a word, even when the
      run has spaces inside: `-flag:"a b"` is one token, and braces and
      brackets inside the quotes do not nest. */
  lemma QuotedWord(p: string, w: string)
    requires p != [] && !IsSpace(p[0]) && Ungrouped(p)
    requires forall k :: 0 <= k < |p| ==> p[k] != ' '
    requires forall k :: 0 <= k < |w| ==> w[k] != '"'
    ensures IsWord(p + "\"" + w + "\"")
  {
    var q := "\"" + w + "\"";
    var t := p + "\"" + w + "\"";
    PrefixRun(p);
    var A := Start.(current := p);
    RunFromAppend(Start, p, q);
    assert t == p + q;
    var B := Step(A, '"');
    assert q[0] == '"' && q[1..] == w + "\"";
    assert RunFrom(A, q) == RunFrom(B, w + "\"");
    RunFromAppend(B, w, "\"");
    RunInQuotes(B, w);
    var C := B.(current := B.current + w);
    assert RunFrom(C, "\"") == Step(C, '"');
    assert RunFrom(Start, t) == Start.(current := t);
    assert t[0] == p[0] && t[|t| - 1] == '"';
    TrimTrimmed(t);
  }
}
