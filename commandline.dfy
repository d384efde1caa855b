/** `ParseCommandLine`: a command line becomes an object holding the leading
    positional arguments under `_`, every named argument under its name, and
    the raw text after the first `---` under `__`. */
module CommandLine {
  import opened Values
  import opened Text
  import opened Tokenizer
  import opened ValueParser
  import opened Arguments

  /** A token that names an argument: it starts with `-`. */
  predicate IsFlag(t: string)
  {
    StartsWith(t, '-')
  }

  /** `token.replace(/^-+/, '')`: the token without its leading dashes. */
  function StripDashes(t: string): (r: string)
    ensures |r| <= |t| && r == t[|t| - |r|..]
    ensures forall k :: 0 <= k < |t| - |r| ==> t[k] == '-'
    ensures r == [] || r[0] != '-'
    decreases |t|
  {
    if t != [] && t[0] == '-' then StripDashes(t[1..]) else t
  }

  /** How many tokens at the front of `ts` are values: tokens up to the next flag. */
  function ValueCount(ts: seq<string>): (n: nat)
    ensures n <= |ts|
    ensures forall k :: 0 <= k < n ==> !IsFlag(ts[k])
    ensures n == |ts| || IsFlag(ts[n])
    decreases |ts|
  {
    if ts != [] && !IsFlag(ts[0]) then 1 + ValueCount(ts[1..]) else 0
  }

  /** What a flag written without a colon adds, given the values read after it:
      `true` for none, the value itself for one, the array of them otherwise. */
  function Collected(vals: seq<Value>): Value
  {
    if |vals| == 0 then Bool(true) else if |vals| == 1 then vals[0] else Arr(vals)
  }

  /** The values of the tokens `ts`, each parsed, in order. */
  function ValuesOf(ts: seq<string>): (r: seq<Value>)
  {
    seq(|ts|, k requires 0 <= k < |ts| => ParseValue(ts[k]))
  }

  /** How a flag's value is written: after a colon in the flag's own token, or
      as the tokens that follow the flag up to the next flag. */
  datatype Written = Attached(text: string) | Following(words: seq<string>)

  /** The value `_add_argument` receives for what is written. */
  function Evaluate(w: Written): Value
  {
    match w
    case Attached(text) => ParseValue(text)
    case Following(words) => Collected(ValuesOf(words))
  }

  /** The named arguments of the tokens `ts`, in order, each with how its value
      is written.  `-name:text` has `text` attached; `-name` takes the tokens
      that follow it up to the next flag, which it consumes.  Tokens that are
      neither are passed over. */
  function Additions(ts: seq<string>): seq<(string, Written)>
    decreases |ts|
  {
    if ts == [] then []
    else if !IsFlag(ts[0]) then Additions(ts[1..])
    else
      var name := StripDashes(ts[0]);
      match IndexOf(name, ":")
      case Some(c) => [(name[..c], Attached(name[c + 1..]))] + Additions(ts[1..])
      case None =>
        var n := ValueCount(ts[1..]);
        [(name, Following(ts[1..1 + n]))] + Additions(ts[1 + n..])
  }

  /** The calls `_add_argument(result, name, value)` made for the additions, in order. */
  function Evaluated(adds: seq<(string, Written)>): (r: seq<(string, Value)>)
    ensures |r| == |adds|
    ensures forall k :: 0 <= k < |adds| ==> r[k] == (adds[k].0, Evaluate(adds[k].1))
    decreases |adds|
  {
    if adds == [] then [] else [(adds[0].0, Evaluate(adds[0].1))] + Evaluated(adds[1..])
  }

  /** The calls made for the tokens `ts`. */
  function Calls(ts: seq<string>): seq<(string, Value)>
  {
    Evaluated(Additions(ts))
  }

  /** The positional arguments: the tokens before the first flag. */
  function LeadingBare(ts: seq<string>): (pos: seq<string>)
    ensures |pos| <= |ts| && pos == ts[..|pos|]
    ensures forall k :: 0 <= k < |pos| ==> !IsFlag(pos[k])
    ensures |pos| == |ts| || IsFlag(ts[|pos|])
    decreases |ts|
  {
    if ts == [] || IsFlag(ts[0]) then [] else [ts[0]] + LeadingBare(ts[1..])
  }

  /** The entries the result starts with: `__` holding everything after the
      first `---`, if there is one. */
  function InitialEntries(line: string): map<string, Value>
  {
    match IndexOf(line, "---")
    case Some(k) => map["__" := Str(line[k + 3..])]
    case None => map[]
  }

  /** The text that is tokenized: the trimmed text before the first `---`, or
      the whole line as it is. */
  function WorkingLine(line: string): string
  {
    match IndexOf(line, "---")
    case Some(k) => Trim(line[..k])
    case None => line
  }

  /** What `ParseCommandLine(line)` returns, as a map from property names to values. */
  function ParsedCommandLine(line: string): map<string, Value>
  {
    if Trim(line) == [] then map[]
    else
      var ts := Tokens(WorkingLine(line));
      var m := Accumulate(InitialEntries(line), Calls(ts));
      var pos := LeadingBare(ts);
      if pos == [] then m else m["_" := StrArray(pos)]
  }

  /** `ParseCommandLine(CommandLine)` for a string argument. */
  method ParseCommandLine(line: string) returns (result: map<string, Value>)
    ensures result == ParsedCommandLine(line)
  {
    if Trim(line) == [] {
      return map[];
    }
    var args := new ArgumentMap();
    var workingLine := line;
    var tripleIndex := IndexOf(line, "---");
    if tripleIndex.Some? {
      var k := tripleIndex.value;
      args.entries := args.entries["__" := Str(line[k + 3..])];
      workingLine := Trim(line[..k]);
    }
    assert args.entries == InitialEntries(line) && workingLine == WorkingLine(line);
    var tokens := Tokenize(workingLine);
    var positional := ReadTokens(args, tokens);
    if |positional| > 0 {
      args.entries := args.entries["_" := StrArray(positional)];
    }
    result := args.entries;
  }

  /** The main loop of `ParseCommandLine` over the tokens: every named argument
      is added to `args`, and the tokens before the first flag are returned as
      the positional arguments. */
  method ReadTokens(args: ArgumentMap, tokens: seq<string>) returns (positional: seq<string>)
    modifies args
    ensures args.entries == Accumulate(old(args.entries), Calls(tokens))
    ensures positional == LeadingBare(tokens)
  {
    var i := 0;
    var inPositionalPhase := true;
    positional := [];
    while i < |tokens|
      invariant 0 <= i <= |tokens|
      invariant Accumulate(args.entries, Calls(tokens[i..]))
                == Accumulate(old(args.entries), Calls(tokens))
      invariant inPositionalPhase ==> positional + LeadingBare(tokens[i..]) == LeadingBare(tokens)
      invariant !inPositionalPhase ==> positional == LeadingBare(tokens)
      decreases |tokens| - i
    {
      var token := tokens[i];
      ghost var rest := tokens[i..];
      assert rest[0] == token && rest[1..] == tokens[i + 1..];
      LeadingBareStep(rest);
      if IsFlag(token) {
        inPositionalPhase := false;
        i := AddNamedArgument(args, tokens, i);
      } else {
        AdditionsBare(rest);
        if inPositionalPhase {
          AppendAssoc(positional, [token], LeadingBare(tokens[i + 1..]));
          positional := positional + [token];
        }
        i := i + 1;
      }
    }
    assert tokens[i..] == [];
  }

  /** The named argument at `tokens[i]`: its value is written after a colon, or
      it is every following token up to the next flag.  Returns the index of the
      first token not consumed. */
  method AddNamedArgument(args: ArgumentMap, tokens: seq<string>, i: nat) returns (next: nat)
    requires i < |tokens| && IsFlag(tokens[i])
    modifies args
    ensures i < next <= |tokens|
    ensures next == i + 1 + (if IndexOf(StripDashes(tokens[i]), ":").Some? then 0
                             else ValueCount(tokens[i + 1..]))
    ensures var adds := Additions(tokens[i..]);
            && adds != [] && adds[1..] == Additions(tokens[next..])
            && args.entries == Merged(old(args.entries), adds[0].0, Evaluate(adds[0].1))
    ensures Accumulate(args.entries, Calls(tokens[next..]))
            == Accumulate(old(args.entries), Calls(tokens[i..]))
  {
    ghost var rest := tokens[i..];
    assert rest[0] == tokens[i] && rest[1..] == tokens[i + 1..];
    ghost var before := args.entries;
    var argName := StripDashes(tokens[i]);
    var colon := IndexOf(argName, ":");
    if colon.Some? {
      var c := colon.value;
      var value := ParseValue(argName[c + 1..]);
      args.AddArgument(argName[..c], value);
      AdditionsColon(rest, c);
      CallsStep(rest, argName[..c], Attached(argName[c + 1..]), tokens[i + 1..]);
      AccumulateStep(before, argName[..c], value, Calls(tokens[i + 1..]));
      next := i + 1;
    } else {
      var values, j := CollectValues(tokens, i + 1);
      AdditionsValuesAt(tokens, i, j);
      if |values| == 0 {
        args.AddArgument(argName, Bool(true));
      } else if |values| == 1 {
        args.AddArgument(argName, values[0]);
      } else {
        args.AddArgument(argName, Arr(values));
      }
      assert args.entries == Merged(before, argName, Collected(values));
      CallsStep(tokens[i..], argName, Following(tokens[i + 1..j]), tokens[j..]);
      AccumulateStep(before, argName, Collected(values), Calls(tokens[j..]));
      next := j;
    }
  }

  lemma AdditionsColon(ts: seq<string>, c: nat)
    requires ts != [] && IsFlag(ts[0]) && IndexOf(StripDashes(ts[0]), ":") == Some(c)
    ensures Additions(ts)
            == [(StripDashes(ts[0])[..c], Attached(StripDashes(ts[0])[c + 1..]))] + Additions(ts[1..])
  {
  }

  /** The values written after a flag: the tokens from `from` up to the next
      flag, each parsed. */
  method CollectValues(tokens: seq<string>, from: nat) returns (values: seq<Value>, j: nat)
    requires from <= |tokens|
    ensures from <= j <= |tokens|
    ensures forall k :: from <= k < j ==> !IsFlag(tokens[k])
    ensures j == |tokens| || IsFlag(tokens[j])
    ensures values == ValuesOf(tokens[from..j])
  {
    values := [];
    j := from;
    while j < |tokens| && !IsFlag(tokens[j])
      invariant from <= j <= |tokens|
      invariant forall k :: from <= k < j ==> !IsFlag(tokens[k])
      invariant values == ValuesOf(tokens[from..j])
      decreases |tokens| - j
    {
      ValuesOfSnoc(tokens, from, j);
      values := values + [ParseValue(tokens[j])];
      j := j + 1;
    }
  }

  lemma ValuesOfSnoc(tokens: seq<string>, from: nat, j: nat)
    requires from <= j < |tokens|
    ensures ValuesOf(tokens[from..j + 1]) == ValuesOf(tokens[from..j]) + [ParseValue(tokens[j])]
  {
    var ts := tokens[from..j + 1];
    assert ts[..|ts| - 1] == tokens[from..j] && ts[|ts| - 1] == tokens[j];
  }

  lemma AdditionsValuesAt(tokens: seq<string>, i: nat, j: nat)
    requires i < j <= |tokens| && IsFlag(tokens[i]) && IndexOf(StripDashes(tokens[i]), ":").None?
    requires forall k :: i < k < j ==> !IsFlag(tokens[k])
    requires j == |tokens| || IsFlag(tokens[j])
    ensures Additions(tokens[i..]) == [(StripDashes(tokens[i]), Following(tokens[i + 1..j]))] + Additions(tokens[j..])
  {
    var rest := tokens[i..];
    var n := j - i - 1;
    ValueCountIs(rest[1..], n);
    AdditionsNoColon(rest, n);
    assert rest[1..1 + n] == tokens[i + 1..j] && rest[1 + n..] == tokens[j..];
  }

  lemma AdditionsNoColon(ts: seq<string>, n: nat)
    requires ts != [] && IsFlag(ts[0]) && IndexOf(StripDashes(ts[0]), ":").None?
    requires ValueCount(ts[1..]) == n
    ensures 1 + n <= |ts|
    ensures Additions(ts) == [(StripDashes(ts[0]), Following(ts[1..1 + n]))] + Additions(ts[1 + n..])
  {
    AdditionsFlag(ts);
  }

  lemma AdditionsFlag(ts: seq<string>)
    requires ts != [] && IsFlag(ts[0])
    ensures Additions(ts)
            == match IndexOf(StripDashes(ts[0]), ":")
               case Some(c) => [(StripDashes(ts[0])[..c], Attached(StripDashes(ts[0])[c + 1..]))] + Additions(ts[1..])
               case None =>
                 [(StripDashes(ts[0]), Following(ts[1..1 + ValueCount(ts[1..])]))] + Additions(ts[1 + ValueCount(ts[1..])..])
  {
  }

  lemma LeadingBareStep(ts: seq<string>)
    requires ts != []
    ensures LeadingBare(ts) == if IsFlag(ts[0]) then [] else [ts[0]] + LeadingBare(ts[1..])
  {
  }

  lemma AdditionsBare(ts: seq<string>)
    requires ts != [] && !IsFlag(ts[0])
    ensures Additions(ts) == Additions(ts[1..])
  {
  }

  lemma CallsStep(ts: seq<string>, name: string, w: Written, rest: seq<string>)
    requires Additions(ts) == [(name, w)] + Additions(rest)
    ensures Calls(ts) == [(name, Evaluate(w))] + Calls(rest)
  {
    var adds := [(name, w)] + Additions(rest);
    assert adds[1..] == Additions(rest);
  }

  lemma CallsSingle(ts: seq<string>, name: string, w: Written)
    requires Additions(ts) == [(name, w)]
    ensures Calls(ts) == [(name, Evaluate(w))]
  {
  }

  lemma AccumulateStep(m: map<string, Value>, name: string, v: Value, adds: seq<(string, Value)>)
    ensures Accumulate(m, [(name, v)] + adds) == Accumulate(Merged(m, name, v), adds)
  {
    assert ([(name, v)] + adds)[1..] == adds;
  }

  lemma ValueCountIs(ts: seq<string>, n: nat)
    requires n <= |ts| && forall k :: 0 <= k < n ==> !IsFlag(ts[k])
    requires n == |ts| || IsFlag(ts[n])
    ensures ValueCount(ts) == n
  {
  }

  // ----- Properties -----

  /** A blank line gives the empty object. */
  lemma BlankLine(line: string)
    requires IsBlank(line)
    ensures ParsedCommandLine(line) == map[]
  {
    TrimShape(line);
  }

  /** What the result holds under any name other than `_`: the name is present
      exactly when it holds the data value or some flag gave it a value, and its
      entry combines the data value and every value given for it, in order. */
  lemma ParsedEntry(line: string, name: string)
    requires Trim(line) != [] && name != "_"
    ensures var r := ParsedCommandLine(line);
            var calls := Calls(Tokens(WorkingLine(line)));
            && (name in r <==> name in InitialEntries(line) || ValuesFor(calls, name) != [])
            && (name in r ==> r[name] == Combined(Prior(InitialEntries(line), name) + ValuesFor(calls, name)))
  {
    ParsedUnfold(line);
    AccumulateEntry(InitialEntries(line), Calls(Tokens(WorkingLine(line))), name);
  }

  /** What the result holds under `_`: the positional arguments when there are
      any, replacing whatever a flag named `_` gave; otherwise only what such
      flags gave, combined as for any other name. */
  lemma ParsedPositional(line: string)
    requires Trim(line) != []
    ensures var ts := Tokens(WorkingLine(line));
            var r := ParsedCommandLine(line);
            var pos := LeadingBare(ts);
            var given := ValuesFor(Calls(ts), "_");
            && (pos != [] ==> "_" in r && r["_"] == StrArray(pos))
            && (pos == [] ==> ("_" in r <==> given != []))
            && (pos == [] && given != [] ==> r["_"] == Combined(given))
  {
    var ts := Tokens(WorkingLine(line));
    ParsedUnfold(line);
    AccumulateEntry(InitialEntries(line), Calls(ts), "_");
    assert "_" !in InitialEntries(line);
    assert Prior(InitialEntries(line), "_") + ValuesFor(Calls(ts), "_") == ValuesFor(Calls(ts), "_");
  }

  lemma ParsedUnfold(line: string)
    requires Trim(line) != []
    ensures var ts := Tokens(WorkingLine(line));
            var m := Accumulate(InitialEntries(line), Calls(ts));
            ParsedCommandLine(line)
            == if LeadingBare(ts) == [] then m else m["_" := StrArray(LeadingBare(ts))]
  {
  }

  /** Everything after the first `---` is kept, unchanged, under `__` (unless a
      flag is itself named `__`). */
  lemma DataValueKept(line: string, k: nat)
    requires IndexOf(line, "---") == Some(k)
    requires ValuesFor(Calls(Tokens(WorkingLine(line))), "__") == []
    ensures "__" in ParsedCommandLine(line) && ParsedCommandLine(line)["__"] == Str(line[k + 3..])
  {
    assert line[k..k + 3][0] == line[k] == '-';
    NotBlankAt(line, k);
    ParsedEntry(line, "__");
    assert Prior(InitialEntries(line), "__") == [Str(line[k + 3..])];
  }

  /** The number of flag tokens in `ts`. */
  function FlagCount(ts: seq<string>): nat
    decreases |ts|
  {
    if ts == [] then 0 else (if IsFlag(ts[0]) then 1 else 0) + FlagCount(ts[1..])
  }

  lemma {:induction false} FlagCountAfterValues(ts: seq<string>, n: nat)
    requires n <= |ts| && forall k :: 0 <= k < n ==> !IsFlag(ts[k])
    ensures FlagCount(ts) == FlagCount(ts[n..])
    decreases n
  {
    if n > 0 {
      FlagCountAfterValues(ts[1..], n - 1);
      assert ts[1..][n - 1..] == ts[n..];
    }
  }

  /** Every flag token makes exactly one call to `_add_argument`. */
  lemma {:induction false} OneAdditionPerFlag(ts: seq<string>)
    ensures |Additions(ts)| == FlagCount(ts)
    decreases |ts|
  {
    if ts != [] {
      if !IsFlag(ts[0]) {
        OneAdditionPerFlag(ts[1..]);
      } else {
        match IndexOf(StripDashes(ts[0]), ":")
        case Some(c) =>
          OneAdditionPerFlag(ts[1..]);
        case None =>
          var n := ValueCount(ts[1..]);
          OneAdditionPerFlag(ts[1 + n..]);
          FlagCountAfterValues(ts[1..], n);
          assert ts[1..][n..] == ts[1 + n..];
      }
    }
  }

  /** The values of a flag never reach past the next flag, so the tokens on
      either side of a flag are read independently. */
  lemma {:induction false} AdditionsAppend(a: seq<string>, b: seq<string>)
    requires b == [] || IsFlag(b[0])
    ensures Additions(a + b) == Additions(a) + Additions(b)
    decreases |a|
  {
    if a == [] {
      assert a + b == b;
    } else if !IsFlag(a[0]) || IndexOf(StripDashes(a[0]), ":").Some? {
      AdditionsAppend(a[1..], b);
      AppendOneStep(a, b);
    } else {
      var n := ValueCount(a[1..]);
      AdditionsAppend(a[1 + n..], b);
      AppendValuesStep(a, b, n);
    }
  }

  lemma AppendOneStep(a: seq<string>, b: seq<string>)
    requires a != [] && (!IsFlag(a[0]) || IndexOf(StripDashes(a[0]), ":").Some?)
    requires Additions(a[1..] + b) == Additions(a[1..]) + Additions(b)
    ensures Additions(a + b) == Additions(a) + Additions(b)
  {
    if IsFlag(a[0]) {
      var c := IndexOf(StripDashes(a[0]), ":").value;
      var h := (StripDashes(a[0])[..c], Attached(StripDashes(a[0])[c + 1..]));
      ColonOfAppend(a, b, c);
      AdditionsColon(a, c);
      AppendAssoc([h], Additions(a[1..]), Additions(b));
    } else {
      BareOfAppend(a, b);
    }
  }

  lemma BareOfAppend(a: seq<string>, b: seq<string>)
    requires a != [] && !IsFlag(a[0])
    ensures Additions(a + b) == Additions(a[1..] + b) && Additions(a) == Additions(a[1..])
  {
    AppendParts(a, b, 1);
  }

  lemma ColonOfAppend(a: seq<string>, b: seq<string>, c: nat)
    requires a != [] && IsFlag(a[0]) && IndexOf(StripDashes(a[0]), ":") == Some(c)
    ensures Additions(a + b)
            == [(StripDashes(a[0])[..c], Attached(StripDashes(a[0])[c + 1..]))] + Additions(a[1..] + b)
  {
    AppendParts(a, b, 1);
    AdditionsColon(a + b, c);
  }

  lemma AppendValuesStep(a: seq<string>, b: seq<string>, n: nat)
    requires a != [] && IsFlag(a[0]) && IndexOf(StripDashes(a[0]), ":").None?
    requires b == [] || IsFlag(b[0])
    requires n == ValueCount(a[1..])
    requires Additions(a[1 + n..] + b) == Additions(a[1 + n..]) + Additions(b)
    ensures Additions(a + b) == Additions(a) + Additions(b)
  {
    var h := (StripDashes(a[0]), Following(a[1..1 + n]));
    NoColonOfAppend(a, b, n);
    AdditionsNoColon(a, n);
    AppendAssoc([h], Additions(a[1 + n..]), Additions(b));
  }

  lemma NoColonOfAppend(a: seq<string>, b: seq<string>, n: nat)
    requires a != [] && IsFlag(a[0]) && IndexOf(StripDashes(a[0]), ":").None?
    requires b == [] || IsFlag(b[0])
    requires n == ValueCount(a[1..])
    ensures 1 + n <= |a|
    ensures Additions(a + b) == [(StripDashes(a[0]), Following(a[1..1 + n]))] + Additions(a[1 + n..] + b)
  {
    AppendParts(a, b, 1 + n);
    ValueCountAppend(a[1..], b);
    AdditionsNoColon(a + b, n);
  }

  lemma ValueCountAppend(x: seq<string>, y: seq<string>)
    requires y == [] || IsFlag(y[0])
    ensures ValueCount(x + y) == ValueCount(x)
  {
    var n := ValueCount(x);
    assert forall k :: 0 <= k < n ==> (x + y)[k] == x[k];
    assert n == |x| ==> n == |x + y| || (x + y)[n] == y[0];
    ValueCountIs(x + y, n);
  }

  lemma AppendAssoc<T>(x: seq<T>, y: seq<T>, z: seq<T>)
    ensures x + (y + z) == (x + y) + z
  {
  }

  lemma AppendParts(a: seq<string>, b: seq<string>, i: nat)
    requires 0 < i <= |a|
    ensures (a + b)[0] == a[0] && (a + b)[1..] == a[1..] + b
    ensures (a + b)[1..i] == a[1..i] && (a + b)[i..] == a[i..] + b
  {
  }

  /** After a flag with an attached value, a plain token is not a value: it is
      passed over. */
  lemma AttachedIgnoresNext(f: string, x: string, rest: seq<string>)
    requires IsFlag(f) && IndexOf(StripDashes(f), ":").Some? && !IsFlag(x)
    ensures Additions([f, x] + rest) == Additions([f] + rest)
  {
    assert ([f, x] + rest)[0] == f && ([f, x] + rest)[1..] == [x] + rest;
    assert ([x] + rest)[0] == x && ([x] + rest)[1..] == rest;
    assert ([f] + rest)[0] == f && ([f] + rest)[1..] == rest;
    AdditionsFlag([f, x] + rest);
    AdditionsFlag([f] + rest);
    AdditionsBare([x] + rest);
  }

  /** Without `---` in the line, `__` is present only when a flag named `__`
      gives it a value. */
  lemma NoDataWithoutTripleDash(line: string)
    requires IndexOf(line, "---").None?
    requires ValuesFor(Calls(Tokens(WorkingLine(line))), "__") == []
    ensures "__" !in ParsedCommandLine(line)
  {
    if Trim(line) != [] {
      ParsedEntry(line, "__");
    }
  }

  /** One dash or two are treated the same: `--name` adds what `-name` adds. */
  lemma DoubleDashAlike(n: string, rest: seq<string>)
    requires n == [] || n[0] != '-'
    ensures Additions(["--" + n] + rest) == Additions(["-" + n] + rest)
  {
    DashesStripped(n);
    SameNameSameAdditions("--" + n, "-" + n, rest);
  }

  lemma DashesStripped(n: string)
    requires n == [] || n[0] != '-'
    ensures IsFlag("--" + n) && IsFlag("-" + n)
    ensures StripDashes("--" + n) == StripDashes("-" + n) == n
  {
    var f, g := "--" + n, "-" + n;
    assert f[1..] == g && g[1..] == n;
  }

  /** Two flags with the same text after their dashes, followed by the same
      tokens, add the same arguments. */
  lemma SameNameSameAdditions(f: string, g: string, rest: seq<string>)
    requires IsFlag(f) && IsFlag(g) && StripDashes(f) == StripDashes(g)
    ensures Additions([f] + rest) == Additions([g] + rest)
  {
    match IndexOf(StripDashes(f), ":")
    case Some(c) =>
      HeadSlices(f, rest, 0);
      HeadSlices(g, rest, 0);
      AdditionsColon([f] + rest, c);
      AdditionsColon([g] + rest, c);
    case None =>
      SameNameFollowing(f, g, rest);
  }

  lemma SameNameFollowing(f: string, g: string, rest: seq<string>)
    requires IsFlag(f) && IsFlag(g) && StripDashes(f) == StripDashes(g)
    requires IndexOf(StripDashes(f), ":").None?
    ensures Additions([f] + rest) == Additions([g] + rest)
  {
    var n := ValueCount(rest);
    HeadSlices(f, rest, n);
    HeadSlices(g, rest, n);
    AdditionsNoColon([f] + rest, n);
    AdditionsNoColon([g] + rest, n);
  }

  lemma HeadSlices(f: string, rest: seq<string>, n: nat)
    requires n <= |rest|
    ensures ([f] + rest) != [] && ([f] + rest)[0] == f && ([f] + rest)[1..] == rest
    ensures ([f] + rest)[1..1 + n] == rest[..n] && ([f] + rest)[1 + n..] == rest[n..]
  {
  }
}
