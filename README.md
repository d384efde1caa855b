# Command-line parser

This project models `ParseCommandLine` from `utility/CommandLine.js`. It is the argument parser that the
command-line client and the server launcher use. A command line, given as one string, becomes an object
with three kinds of entries:

- Positional arguments: the words before the first flag, listed under `_`.
- Named arguments: each flag (`-name` or `--name`) is stored under its name. Its value is attached after a
  colon (`-name:value`) or given by the words that follow it (`-name a b`). Absent values mean `true`, and a
  repeated flag collects its values into an array.
- Raw data: everything after the first `---` in the line is stored under `__`.

Each argument value is read as JSON first. Object and array literals are also tried as relaxed JavaScript,
meaning single quotes and unquoted keys. Text that is neither stays a string.

The model follows the source's own structure, one module per part:

| module | file | models |
|---|---|---|
| `Values` | values.dfy | the value data model (`Bool`, `Num`, `Dec`, `Str`, `Null`, `Arr`, `Obj`) and how `concat` spreads arrays |
| `Text` | text.dfy | JavaScript whitespace, `trim`, `startsWith`/`endsWith` and `indexOf` |
| `Json` | json.dfy | `JSON.parse` as a total parser returning `None` where it would throw |
| `Tokenizer` | tokenizer.dfy | `_tokenize`, a method with the scan's state, proved against a step function |
| `Relaxed` | relaxed.dfy | `_normalize_quotes` (method, proved against a step function), `_quote_identifiers` (the regex as an explicit scan) and `_parse_relaxed_js` |
| `ValueParser` | valueparser.dfy | `_parse_value` |
| `Arguments` | arguments.dfy | `_add_argument` as the class `ArgumentMap`, whose field `entries` is updated in place, and what a sequence of additions leaves under each name |
| `CommandLine` | commandline.dfy | `ParseCommandLine`: the driver method and its loops, proved against the function `ParsedCommandLine` |
| `Scenarios` | scenarios.dfy | the usage examples of the doc comment, each stated for every argument name and plain word |

The imperative parts of the source are methods proved against specification functions:
`Tokenizer.Tokenize` against `Tokens`, `Relaxed.NormalizeQuotes` against `QuotesNormalized`,
`CommandLine.ParseCommandLine` against `ParsedCommandLine`, and `Arguments.ArgumentMap.AddArgument` against
`Merged`. The properties are proved about those functions.

I/O is not modelled. The command line is an explicit string parameter.

## Model

| member | source | states |
|---|---|---|
| Text.TrimShape | utility/CommandLine.js:68-71 | `trim` removes whitespace only at the ends and leaves a slice of the input with no whitespace at either end; it is empty exactly when the input is all whitespace |
| Text.IndexOf | utility/CommandLine.js:76-77 | `indexOf` returns the first position where the pattern occurs, or none when it occurs nowhere |
| Text.IndexOfFirst | utility/CommandLine.js:76 | a position where the pattern occurs, with no earlier occurrence, is what `indexOf` returns |
| Json.ParseIntText | utility/CommandLine.js:308-311 | the decimal text of any integer parses as JSON back to that integer |
| Json.Parse | utility/CommandLine.js:310 | `JSON.parse` as a total function: the value of a text that is one JSON value with optional surrounding whitespace, `None` where `JSON.parse` throws; what it gives on particular texts is stated by the `Json` lemmas in this table |
| Json.ParsePlainString | utility/CommandLine.js:273-276 | a double-quoted text without quotes, backslashes or control characters parses as JSON to the string between the quotes |
| Json.ParseOneMember | utility/CommandLine.js:288-292 | `{"key":"w"}` parses as JSON to the one-member object |
| Json.ParseNatArray | utility/CommandLine.js:284-292 | `[n1,n2,...]`, for any non-empty list of natural numbers, parses as JSON to the array of those numbers in order |
| Json.ItemsAtNumbers | utility/CommandLine.js:284-292 | the elements of an array that are natural numbers separated by single commas, with no whitespace, up to the closing `]` are read in order after those already read, and the array ends there |
| Tokenizer.Tokenize | utility/CommandLine.js:172-231 | the loop returns exactly `Tokens(line)`, and every token is non-empty and trimmed |
| Tokenizer.Tokens | utility/CommandLine.js:172-231 | the tokens of a line: the scan of every character from the initial state, then the last token if it is not blank; its properties are the `Tokenizer` lemmas below |
| Tokenizer.Step | utility/CommandLine.js:181-228 | one iteration of the scan loop on the quote flag, the two depth counters, the current token and the tokens so far; `StepCurrent` states what it does to the current token |
| Tokenizer.TokensAreTrimmed | utility/CommandLine.js:212-228 | every token of every line is non-empty and equal to its own `trim` |
| Tokenizer.StepCurrent | utility/CommandLine.js:183-221 | a character is appended to the current token, except a space at top level, which ends a non-blank token or is dropped |
| Tokenizer.RunFromAppend | utility/CommandLine.js:181-223 | scanning `x + y` is scanning `x` and then continuing with `y` |
| Tokenizer.TokensSplit | utility/CommandLine.js:210-217 | a space reached at top level separates the tokens of the text before it from those after it |
| Tokenizer.TokensUngrouped | utility/CommandLine.js:181-228 | a line without quotes, braces or brackets splits into its non-blank space-separated fields, trimmed, in order |
| Tokenizer.TokensWithoutSpace | utility/CommandLine.js:225-228 | text without spaces is one token (or none when blank) |
| Tokenizer.TokensQuotedRun | utility/CommandLine.js:185-189 | a double-quoted run is one token, spaces included |
| Tokenizer.TokensOfWords | utility/CommandLine.js:210-228 | words joined by single spaces are tokenized back into the same words |
| Tokenizer.GroupWord | utility/CommandLine.js:190-199 | a space-free prefix followed by one object or array literal without nested braces or brackets forms one token, spaces and double quotes inside the literal included: `-flag:{xyz:"123"}`, `-flag:{a: 1}` and `-ids:[1, 2, 3]` are one word each |
| Tokenizer.RunInsideGroup | utility/CommandLine.js:190-217 | inside braces or brackets, text without braces or brackets is appended to the current token unchanged, and nothing else in the scan's state changes: its spaces and double quotes end nothing |
| Tokenizer.RunGroup | utility/CommandLine.js:190-199 | an object or array literal with no braces or brackets inside is appended whole to the current token, and the scan goes from top level back to top level with the tokens so far unchanged |
| Tokenizer.QuotedWord | utility/CommandLine.js:185-189 | a space-free prefix followed by a double-quoted run forms one token, spaces inside the quotes included, so `-flag:"a b"` is one word; braces inside the quotes do not nest |
| Relaxed.NormalizeQuotes | utility/CommandLine.js:348-390 | the loop returns exactly `QuotesNormalized(str)` |
| Relaxed.QuotesNormalized | utility/CommandLine.js:348-390 | the result of the quote-normalising scan; `QuotesNormalizedAt` states it character by character |
| Relaxed.QuotesNormalizedAt | utility/CommandLine.js:355-387 | the output has the input's length, and each character is copied except an unescaped `'` outside a double-quoted run, which becomes `"` |
| Relaxed.QuotesNormalizedPlain | utility/CommandLine.js:373-377 | in text without backslashes or double quotes, every `'` becomes `"` and nothing else changes |
| Relaxed.QuotesNormalizedNoSingle | utility/CommandLine.js:348-390 | text without single quotes is returned unchanged |
| Relaxed.KeyAt | utility/CommandLine.js:403 | a match it reports is a match of the key pattern `([{,]\s*)([a-zA-Z_$][a-zA-Z0-9_$]*)\s*:` at the start of the text: opener, whitespace, identifier, whitespace, colon |
| Relaxed.KeyAtComplete | utility/CommandLine.js:403 | every match of the key pattern at the start of the text is the one `KeyAt` reports: none is missed and the match is unique |
| Relaxed.QuoteIdentifiersKey | utility/CommandLine.js:403 | a match `[{,]`, whitespace, identifier, whitespace, `:` becomes `$1"identifier":`; whitespace after the opener is kept and whitespace before the colon is dropped; scanning resumes after the colon |
| Relaxed.QuoteIdentifiersAtKey | utility/CommandLine.js:403 | at a match, the output is the replacement followed by the scan of the text after the colon |
| Relaxed.QuoteIdentifiersCopies | utility/CommandLine.js:403 | text with no `{` or `,` is copied unchanged ahead of the rest of the scan |
| Relaxed.QuoteIdentifiersNoColon | utility/CommandLine.js:403 | text without a colon is returned unchanged |
| Relaxed.QuoteIdentifiersHead | utility/CommandLine.js:403 | the first character is always kept |
| Relaxed.QuoteIdentifiersIdempotent | utility/CommandLine.js:399-404 | quoting the keys twice gives what quoting them once gives |
| Relaxed.ReplacementStays | utility/CommandLine.js:403 | a replacement already made matches nothing on a second pass |
| Relaxed.KeyAtStaysAbsent | utility/CommandLine.js:403 | where no match starts, none starts after the rest has been rewritten |
| Relaxed.QuoteIdentifiersBareKey | utility/CommandLine.js:403 | `{id:rest` becomes `{"id":` followed by the scan of `rest` |
| Relaxed.QuoteIdentifiers | utility/CommandLine.js:399-404 | the left-to-right, non-overlapping replacement of every key-pattern match; the `QuoteIdentifiers` lemmas here state its effect |
| Relaxed.QuoteIdentifiersOneMember | utility/CommandLine.js:399-404 | `{id:"w"}` becomes `{"id":"w"}` |
| Relaxed.NormalizedOneMember | utility/CommandLine.js:348-390 | `{id:'w'}` and `{id:"w"}` both become `{id:"w"}` |
| Relaxed.ParseRelaxedJsOneMember | utility/CommandLine.js:326-339 | `{id:'w'}` and `{id:"w"}` read as relaxed JavaScript give the one-member object |
| Relaxed.ParseRelaxedJs | utility/CommandLine.js:326-339 | quotes normalised, keys quoted, then `JSON.parse`; `None` where that throws |
| ValueParser.Inner | utility/CommandLine.js:247 | `slice(1, -1)` is the text between the first and last character, and empty when there are fewer than two |
| ValueParser.ParseValue | utility/CommandLine.js:240-317 | the value of one argument text, branch by branch as in the source; each branch's result is stated by the `ParseValue` lemmas below |
| ValueParser.ParseValueJsonFirst | utility/CommandLine.js:284-316 | text not wrapped in double quotes that is valid JSON gives its JSON value |
| ValueParser.ParseValueStringFallback | utility/CommandLine.js:284-316 | text that is neither quoted, JSON nor a relaxed literal stays the same string |
| ValueParser.ParseValueQuotedLiteral | utility/CommandLine.js:245-270 | double quotes around an object or array literal change nothing: it is read as it is without them |
| ValueParser.ParseValueQuotedText | utility/CommandLine.js:272-276 | a quoted plain text that is not a literal gives the text between the quotes |
| ValueParser.ParseValueQuotedInvalid | utility/CommandLine.js:272-281 | quoted text that is not valid JSON loses its outer quotes and stays a string |
| ValueParser.ParseValueInt | utility/CommandLine.js:307-311 | the written form of an integer reads back as that integer |
| ValueParser.ParseValueBareWord | utility/CommandLine.js:307-316 | a word starting with a letter, without whitespace and not a JSON literal, stays a string |
| ValueParser.ParseValueLiterals | utility/CommandLine.js:307-311 | `true`, `false` and `null` give the JSON literals |
| ValueParser.ParseValueRelaxedObject | utility/CommandLine.js:245-305 | `{id:'w'}`, `{id:"w"}` and `"{id:'w'}"` all give the one-member object |
| ValueParser.JsonRejectsBareKey | utility/CommandLine.js:288-294 | `JSON.parse` throws on an object whose first key is not double-quoted, so the relaxed reading is reached |
| Arguments.ArgumentMap.AddArgument | utility/CommandLine.js:414-447 | the entries become `Merged(old entries, name, value)`: a new name is stored, an existing array is extended (`concat` or `push`), an existing single value becomes an array of old and new |
| Arguments.Merged | utility/CommandLine.js:414-447 | the keys become the old keys plus `name`, and no other key's value changes |
| Arguments.AccumulateEntry | utility/CommandLine.js:414-447 | after any sequence of additions, a name is present exactly when it was before or was added to; its entry is the earlier value followed by every added value, oldest first, arrays spread one level, and a single value stays unwrapped |
| Arguments.Accumulate | utility/CommandLine.js:414-447 | a sequence of `_add_argument` calls applied in order; `AccumulateEntry` states what it leaves under each name |
| Arguments.MergedCommute | utility/CommandLine.js:414-447 | additions under two different names can be made in either order |
| Arguments.AccumulateAppend | utility/CommandLine.js:414-447 | additions made one after another accumulate as one sequence of additions |
| Arguments.CombinedCollapse | utility/CommandLine.js:419-429 | extending an array entry equals collecting all its values at once |
| Arguments.ContributionsAppend | utility/CommandLine.js:424 | `concat` spreads the values of two runs in order |
| CommandLine.StripDashes | utility/CommandLine.js:101 | `replace(/^-+/, '')` removes exactly the leading run of dashes |
| CommandLine.ValueCount | utility/CommandLine.js:118 | the values after a flag are the longest run of tokens not starting with `-` |
| CommandLine.LeadingBare | utility/CommandLine.js:142-149 | the positional arguments are the tokens before the first flag, in order |
| CommandLine.ParseCommandLine | utility/CommandLine.js:56-163 | the method returns exactly `ParsedCommandLine(line)` |
| CommandLine.ParsedCommandLine | utility/CommandLine.js:56-163 | the object the parser returns, as a function of the line; `ParsedEntry`, `DataValueKept` and the `Scenarios` lemmas state its contents |
| CommandLine.ReadTokens | utility/CommandLine.js:87-152 | the loop makes exactly the calls `Calls(tokens)` on the result, in order, and collects the tokens before the first flag as positional |
| CommandLine.AddNamedArgument | utility/CommandLine.js:97-141 | one flag and its values are consumed: the index moves to the next flag (or one past an attached-value flag), the remaining additions are those of the tokens from there, and the entries become the merge of the flag's name and parsed value |
| CommandLine.Additions | utility/CommandLine.js:92-141 | the `(name, value text)` pairs that the flags of a token run add, in order; `AdditionsColon` and `AdditionsValuesAt` state each kind of flag |
| CommandLine.ParsedPositional | utility/CommandLine.js:142-160 | when tokens come before the first flag, `_` lists them in order, replacing what a flag named `_` gave; otherwise `_` is present exactly when such a flag gave a value, and combines those values |
| CommandLine.CollectValues | utility/CommandLine.js:113-122 | the inner loop stops at the next flag or the end, and returns the tokens in between, each parsed |
| CommandLine.AdditionsColon | utility/CommandLine.js:104-110 | `-name:text` adds `text` under `name`, splitting at the first colon and keeping later colons in the value |
| CommandLine.AdditionsValuesAt | utility/CommandLine.js:113-140 | a flag without a colon takes the tokens up to the next flag as its values, and scanning resumes at that flag |
| CommandLine.AttachedIgnoresNext | utility/CommandLine.js:104-110 | a plain token after a flag with an attached value is dropped |
| CommandLine.DoubleDashAlike | utility/CommandLine.js:101 | `--name` adds what `-name` adds |
| CommandLine.SameNameSameAdditions | utility/CommandLine.js:97-141 | a flag's additions depend only on its text after the dashes and on the tokens after it |
| CommandLine.OneAdditionPerFlag | utility/CommandLine.js:92-152 | the parser calls `_add_argument` exactly once per token that starts with `-`, since such a token is never taken as a value |
| CommandLine.AdditionsAppend | utility/CommandLine.js:92-152 | the calls of two token runs, the second starting with a flag, are the calls of each in order |
| CommandLine.BlankLine | utility/CommandLine.js:67-71 | an empty or all-whitespace line gives `{}` |
| CommandLine.ParsedEntry | utility/CommandLine.js:64-160 | each name other than `_` is present exactly when it holds the data value or a flag gave it a value, and it combines them in order |
| CommandLine.DataValueKept | utility/CommandLine.js:73-82 | `__` holds exactly the untrimmed text after the first `---` unless a flag named `__` adds to it |
| CommandLine.NoDataWithoutTripleDash | utility/CommandLine.js:73-82 | without `---`, `__` is absent unless a flag named `__` sets it |
| Scenarios.PositionalOnly | utility/CommandLine.js:33-36 | `a b` gives `{ _: ['a','b'] }` for any plain words |
| Scenarios.PositionalThenFlag | utility/CommandLine.js:9-14 | words before a flag are positional, and the flag takes the words after it |
| Scenarios.FlagAlone | utility/CommandLine.js:39 | `-flag` gives `{ flag: true }` |
| Scenarios.AttachedNumber | utility/CommandLine.js:40 | `-flag:1` gives `{ flag: 1 }`, for any natural number |
| Scenarios.AttachedWordValue | utility/CommandLine.js:41 | `-flag:on` gives `{ flag: 'on' }` |
| Scenarios.AttachedLiterals | utility/CommandLine.js:20 | `-flag:true`, `-flag:false` and `-flag:null` give the JSON literals |
| Scenarios.ArrayFlag | utility/CommandLine.js:284-292 | `-flag:[1,2,3]` gives `{ flag: [1,2,3] }`, for any non-empty list of natural numbers |
| Scenarios.AttachedFlag | utility/CommandLine.js:103-110 | `-flag:text` gives the value read from `text` alone |
| Scenarios.FlagWithValue | utility/CommandLine.js:42 | `-flag on` gives `{ flag: 'on' }` |
| Scenarios.QuotedFlag | utility/CommandLine.js:43 | `-flag "always on"` gives `{ flag: 'always on' }`, for any plain quoted text |
| Scenarios.QuotedAttached | utility/CommandLine.js:185-189 | `-flag:"always on"` gives `{ flag: 'always on' }`, for any plain quoted text: the quoted value stays one token and loses its quotes |
| Scenarios.FlagWithTwoValues | utility/CommandLine.js:44 | `-flag on off` gives `{ flag: ['on','off'] }` |
| Scenarios.FlagLine | utility/CommandLine.js:113-138 | a flag followed by plain words gives `true`, the word's value or the array of values |
| Scenarios.JsonObjectFlag | utility/CommandLine.js:45 | `-flag:{"xyz":"123"}` gives `{ flag: { xyz: '123' } }` |
| Scenarios.ObjectFlag | utility/CommandLine.js:46-47 | `-flag:{xyz:"123"}` and `-flag:{xyz:'123'}` give `{ flag: { xyz: '123' } }` |
| Scenarios.QuotedObjectFlag | utility/CommandLine.js:48 | `-flag:"{xyz:'123'}"` gives `{ flag: { xyz: '123' } }` |
| Scenarios.RepeatedFlag | utility/CommandLine.js:23 | `-flag on -flag off` gives `{ flag: ['on','off'] }` |
| Scenarios.RepeatedAttached | utility/CommandLine.js:23 | `-flag:1 -flag:2` gives `{ flag: [1,2] }` |
| Scenarios.DataLine | utility/CommandLine.js:51 | `a b --- raw data here` gives `{ _: ['a','b'], __: ' raw data here' }` |
| Scenarios.DataOnly | utility/CommandLine.js:25-28 | `--- just data` gives `{ __: ' just data' }`, with no `_` |

## Left out

- Default command line: when the argument is not a string, the source reads `process.argv` (utility/CommandLine.js:58-62). The model takes the command line as a string parameter.
- Number semantics: JavaScript numbers are IEEE doubles. Integer JSON numbers are `Num(int)`, without the rounding above 2^53; `-0` is `Num(0)`. Numbers with a fraction or an exponent are kept as their lexeme in `Dec`.
- Json.Parse: `\u` escapes that denote UTF-16 surrogates are treated as a parse failure, because strings are sequences of Dafny characters rather than UTF-16 code units.
- Object keys: the model stores entries in a `map`. It leaves out key order and the special keys of JavaScript objects (`__proto__`, or a flag named `hasOwnProperty` shadowing the method used at line 416).
- Whitespace: `trim` and the regex `\s` use a fixed list of Unicode whitespace code points. Both use the same list.
- `_quote_identifiers`: the regular expression is modelled as an explicit left-to-right scan. It has the same greedy runs and non-overlapping, left-to-right replacement, and it also rewrites key-like text inside string values.
- In-place updates: `positional.push`, `values.push` and the array `push` inside `_add_argument` are modelled as sequence values. An array already stored in the result is never shared with another entry, so aliasing is not observable.
- The `---` search runs on the raw line, before quotes or braces are considered, as in the source. The model keeps that behaviour.
- Objects with several members, JSON or relaxed (`-config:{"host":"localhost","port":8080}`, `-config:{host:"localhost",port:8080}`): no lemma states the parsed object for them. The lemmas cover objects with one string member (`Json.ParseOneMember`, `Relaxed.ParseRelaxedJsOneMember`, `Scenarios.JsonObjectFlag`, `Scenarios.ObjectFlag`) and arrays of natural numbers (`Scenarios.ArrayFlag`).
- CliClient/CliClient.js, RunServer/RunServer.js and Utility_/ClientLoader.js are not part of this model: they are process, file and network glue around the parser.
