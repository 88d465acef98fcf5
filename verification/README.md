# hformat core in Dafny

This project models the core of *hformat*, a "human formatter" for Python.
A template such as `"{name:fill('*'), width(size=10)}"` holds tokens between
braces. Each token is an expression followed by a list of formatting
functions. The formatter does the following:

- It reads the template into a tree of tokens, with nested braces as children (`tokenizer.py`).
- It converts the tokens level by level, deepest first, so every inner conversion is
  spliced into its parent before the parent is read.
- It masks escaped characters and quoted literals behind random markers while the
  token is split into expression and functions, then puts them back (`placeholder.py`).
- It checks every function against a catalog of function definitions (`FunctionObject._build`).
- It translates the functions into a Python format specification and renders the value.
- It applies the extras that Python's format cannot do: multi-character fills,
  "canvas" fills and wrappers.

The Dafny modules follow the source files:

| module | file | models |
|---|---|---|
| `Wrappers`, `Errors` | `wrappers.dfy` | `Option`, `Result` and one error constructor per exception the core raises |
| `Strings` | `strings.dfy` | Python's `count`, `split`, `join`, `strip`, `replace`, `isnumeric`, `str(int)` and `int(str)` on `seq<char>` |
| `Placeholder` | `placeholder.dfy` | `PlaceholderHandler` as a class whose records, secure index and random draws are fields |
| `Tokenizer` | `tokenizer.dfy` | `dict_join`, and `Token` as a class with parent and children references |
| `Catalog` | `catalog.dfy` | the function definitions table and `FunctionObject._build` |
| `Convert` | `convert.dfy` | the stages of `HumanFormatter.convert` as functions, with the loops as methods |
| `HFormat` | `hformat.dfy` | `HumanFormatter` with `parse`, `convert` and `format` |

Several parts of the source are parameters of the model:

- Python's `eval` is a parameter `evaluate`. It returns a value, a name failure
  (the expression becomes a literal string) or any other failure (an error).
- Python's `format(value, spec)` is a parameter `render`.
- `random.choice` is a parameter `pick` that maps a draw number to an index.
- The YAML definitions file is given as a list of raw groups.

Three private characters stand in for the source's `_CANVAS_FILL_PLACEHOLDER`,
`_MISC_PLACEHOLDER` and `_MULTICHAR_FILL_PLACEHOLDER`.

## Model

| member | source | states |
|---|---|---|
| Strings.SplitJoin | hformat/hformat.py:221-223 | joining the pieces of `split(c)` with `c` gives back the original string |
| Strings.SplitPiecesAvoidSeparator | hformat/hformat.py:223 | no piece of `split(c)` contains `c` |
| Strings.Split | hformat/hformat.py:223 | `split(c)` yields one piece more than there are occurrences of `c`, as counted by `Count` (`str.count`) |
| Strings.StripSpec | hformat/hformat.py:210 | `strip` (`Strip`) returns the slice between the leading and trailing whitespace, and that slice neither starts nor ends with whitespace |
| Strings.StripAvoids | hformat/hformat.py:210 | stripping adds no character |
| Strings.SplitPiecesAvoid | hformat/hformat.py:223 | no piece of `split(c)` holds a character the string lacks |
| Strings.PyPrefix | hformat/hformat.py:437-439 | a Python slice `s[:k]` is a prefix of `s`, of length `k` clipped to `[0, len(s)]`; a negative `k` counts from the end |
| Strings.IntToStringRoundTrip | hformat/hformat.py:455-457 | `int(str(n)) == n` for every integer, with `ParseInt` as `int()` and `IntToString` as `str()` |
| Strings.ReplaceRoundTrip | placeholder.py:165-177 | `str.replace` (`Replace`): replacing a pattern by a marker whose first character is new to the string, then the marker by the pattern, restores the string |
| Placeholder.SecureCharsDistinct | placeholder.py:28 | the 59 secure characters are pairwise distinct |
| Placeholder.IndexCycles | placeholder.py:113-118 | after `n` markers the secure index is `(n - 1) mod 59 + 1`, so marker `n` uses secure character `n mod 59` |
| Placeholder.PlaceholderHandler.constructor | placeholder.py:106-110 | a new handler has no records and secure index 0 |
| Placeholder.PlaceholderHandler.NewMarker | placeholder.py:113-123 | a marker is four safe characters, the current secure character and four more; the index wraps to 0 at 59 and advances by one; eight draws are used |
| Placeholder.PlaceholderHandler.MarkersDistinct | placeholder.py:113-123 | the first 59 markers of a fresh handler differ in their middle (secure) character, so no two of them are equal, whatever the draws |
| Placeholder.PlaceholderHandler.RevertGroups | placeholder.py:126-138 | the records are undone in creation order, each only when its group is selected and its marker occurs; with `ignore` only the hidden text comes back |
| Placeholder.RevertUnselected | placeholder.py:126-138 | reverting groups that no record belongs to changes nothing |
| Placeholder.PlaceholderHandler.Revert | placeholder.py:141-148 | without records the string is unchanged; otherwise every group up to the last one is reverted |
| Placeholder.PlaceholderHandler.RevertLast | placeholder.py:151-157 | without records the string is unchanged; otherwise only the last group is reverted |
| Placeholder.PlaceholderHandler.RevertGroup | placeholder.py:160-162 | only the given group is reverted |
| Placeholder.PlaceholderHandler.Substr | placeholder.py:165-177 | one new record for the substring; the group id is the secure index before the call; the result is the input with the substring replaced by its marker |
| Placeholder.SubstrUndo | placeholder.py:165-177 | reverting a substring record restores the string it was masked in |
| Placeholder.SubstrRevertRoundTrip | placeholder.py:141-177 | masking a substring and reverting all groups gives back any string free of safe characters |
| Placeholder.TakeRun | placeholder.py:204-223 | a run stops at a stop character or where one more character would pass the limit; the character that ends it is consumed; it holds no stop character and is within the limit |
| Placeholder.PlaceholderHandler.ScanAfter | placeholder.py:204-223 | the scanning loop collects exactly the runs of the reference reading `RunsOf` |
| Placeholder.RunsBounded | placeholder.py:204-223 | every run collected by `after` is at most the limit long and holds no stop character |
| Placeholder.NoIdcharNoRuns | placeholder.py:204-223 | without the id character, `after` collects nothing |
| Placeholder.PlaceholderHandler.After | placeholder.py:180-236 | one record per collected run, with the id character as its kind; the result is the input with each `idchar + run` replaced by its marker |
| Placeholder.PlaceholderHandler.MaskOne | placeholder.py:225-232 | masking one more hidden text appends exactly one record and replaces that text by the new marker |
| Placeholder.IndexOf | placeholder.py:248-264 | the first position of a character, or none when it does not occur |
| Placeholder.RegionsAvoidCloser | placeholder.py:239-269 | no region collected by `between` contains the closing character |
| Placeholder.NoOpenerNoRegions | placeholder.py:239-269 | without the opening character, `between` collects nothing |
| Placeholder.BetweenDone | placeholder.py:248-264 | when the loop ends, the regions it made are those of the reference reading `Regions` |
| Placeholder.PlaceholderHandler.BetweenStep | placeholder.py:252-264 | one character of the loop: an opener while nothing is pending becomes pending, a closer while an opener is pending masks the text between them with a new marker, anything else is skipped; the loop's account against `Regions` and the handler's record account are both kept |
| Placeholder.PlaceholderHandler.Between | placeholder.py:239-269 | one record per region from an opener to the next closer (the opener again when no closer is given); an unclosed opener masks nothing; the result is the input with each region and its delimiters replaced by its marker |
| Tokenizer.Join | tokenizer.py:43-64 | the keys of the join are the union of the keys; a shared key maps to the left value followed by the right one |
| Tokenizer.JoinAllGathers | tokenizer.py:43-64 | joining a list of maps gives each key the concatenation of its values in list order |
| Tokenizer.JoinAllKeys | tokenizer.py:43-64 | the keys of the joined map are the keys present in any of the maps |
| Tokenizer.DictJoin | tokenizer.py:43-64 | the loop over the maps and their keys computes the join of `[left, right] + rest` |
| Tokenizer.Merge | tokenizer.py:55-64 | the loop over one dictionary's keys adds each new key and appends to each shared one, giving `Join(start, di)` whatever order the keys are visited in |
| Tokenizer.MatchClose | tokenizer.py:125-134 | a match found is the position of a `}` |
| Tokenizer.ScanChildren | tokenizer.py:123-134 | the scanning loop with its stack yields the top-level brace contents as the recursive reading `TopLevel` gives them, or, for the first stray `}`, the intended SyntaxError with its position (the code as written raises a ValueError instead; see Findings) |
| Tokenizer.ScanOne | tokenizer.py:125-133 | one character of the loop that is not a stray `}`: a `{` is pushed, a `}` pops and, when that empties the stack, adds the brace contents as a child; the reading invariant `ScanInv` (the children so far followed by the reading of the rest give `TopLevel`) is kept |
| Tokenizer.ScanStray | tokenizer.py:128-134 | a `}` with an empty stack gives the intended SyntaxError naming its position (corrected behaviour; see Findings) |
| Tokenizer.FormatPlainPrefix | tokenizer.py:33-34 | Python's `str.format` reads text without braces through unchanged, so formatting `p + q` is `p` followed by the formatting of `q` |
| Tokenizer.MissingOpeningKeyFails | tokenizer.py:33-34 | formatting the stray-`}` message raises ValueError "Single '}' encountered in format string" whatever the position, because its `'}'` is a lone `}` met before any field |
| Tokenizer.StrayCloserAsWritten | tokenizer.py:127-134 | as written, every string whose reading meets a stray `}` raises the position-free ValueError, never the SyntaxError with the position |
| Tokenizer.StrayCloserExample | tokenizer.py:127-134 | for `a}` the intended error names position 1, while the code as written raises the ValueError |
| Tokenizer.NoCloserNoChildren | tokenizer.py:123-134 | a text without `}` has no children |
| Tokenizer.Token.constructor | tokenizer.py:115-121 | a new token has the given text, generation and children, no parent and no conversion |
| Tokenizer.Token.Build | tokenizer.py:115-138 | building succeeds exactly when the scan does, with the scan's error otherwise; the children are fresh tokens of the next generation whose texts are the top-level brace contents, each linked back to its parent |
| Tokenizer.Token.BuildChildren | tokenizer.py:136-138 | one child per raw text, in order, each of generation `gen + 1` and built recursively |
| Tokenizer.Token.LinkParents | tokenizer.py:136-138 | every child gets the new token as its parent, and each child's own subtree stays linked |
| Tokenizer.Token.ListByGeneration | tokenizer.py:141-150 | `list()` (`List`, with `Join` for `dict_join`) maps each generation to the subtree's tokens of that generation in pre-order, and has a key exactly when there is such a token |
| Tokenizer.Token.FirstOfOwnGeneration | tokenizer.py:141-150 | a token comes first in the list of its own generation |
| Tokenizer.Token.SubtreeMembers | tokenizer.py:141-150 | every token listed is the token itself or a descendant of a deeper generation |
| Tokenizer.OfGenConcat | tokenizer.py:147-149 | selecting a generation commutes with concatenation, which is what the per-child join relies on |
| Tokenizer.OfGenMembers | tokenizer.py:141-150 | the tokens a list entry holds for a generation are exactly the tree's tokens of that generation |
| Tokenizer.ChildrenOneDeeper | tokenizer.py:136-137 | every child of a token is of the next generation |
| Tokenizer.Token.ReplaceChildConversions | tokenizer.py:153-166 | the loop replaces the first `{child}` by the child's conversion, child by child, or fails at the first child without a conversion, as `Substituted` says |
| Tokenizer.Token.SubstitutedFails | tokenizer.py:153-166 | substitution fails exactly when some child has no conversion, and then reports the first such child |
| Tokenizer.Token.NoCloserUnchanged | tokenizer.py:153-166 | a text without children comes back unchanged |
| Catalog.Fields | hformat/hformat.py:574 | a descriptor has one field per comma plus one, and no field contains a comma or starts or ends with whitespace |
| Catalog.RegisterAt | hformat/hformat.py:579-586 | registering aliases adds exactly them, each bound to the new definition, and keeps the other names |
| Catalog.AddNamesHas | hformat/hformat.py:577-586 | loading one group's alias lists (`AddNames`): a name is defined afterwards exactly when it was before or it is one of the group's aliases |
| Catalog.AddNamesLatest | hformat/hformat.py:577-586 | an alias maps to the first alias of its last list as id, with the group's arguments |
| Catalog.TableCovers | hformat/hformat.py:567-586 | every alias of every group is in the table (`Table`, and `Load` from the raw groups) |
| Catalog.TableEntriesFromNames | hformat/hformat.py:567-586 | every name in the table comes from some alias list of some group |
| Catalog.TableLaterGroupWins | hformat/hformat.py:567-586 | a later group that does not mention a name leaves its definition as it was |
| Catalog.Mandatory | hformat/hformat.py:599 | the number of mandatory arguments is at most the number of arguments |
| Catalog.ArgMapPositions | hformat/hformat.py:611-617 | in the argument map (`ArgMap`) every argument position maps to the given argument at that position, or to none when fewer were given |
| Catalog.ArgMapNames | hformat/hformat.py:611-617 | an argument name maps to the given value at its last position |
| Catalog.ArgMapKeys | hformat/hformat.py:611-617 | the argument map has no keys other than the declared positions and names |
| Catalog.BuildFunction | hformat/hformat.py:589-617 | an unknown name is a `NameError`; too many or too few arguments are the matching errors, with the definition's id and counts; success means the name is known, the count of given arguments is at most the declared count and at least the mandatory count, the object takes the definition's id, and its arguments are `ArgMap` of the definition's descriptors and the given values |
| Catalog.FunctionCatalog.constructor | hformat/hformat.py:544 | the definitions table starts unloaded |
| Catalog.FunctionCatalog.LoadDefinitions | hformat/hformat.py:567-586 | the loading loops compute the table `Load(groups)` |
| Catalog.FunctionCatalog.ReadArgs | hformat/hformat.py:572-574 | the argument loop computes the descriptors |
| Catalog.FunctionCatalog.AddNamesOf | hformat/hformat.py:577-586 | the alias loop registers every alias of every name list |
| Catalog.FunctionCatalog.RegisterAll | hformat/hformat.py:582-586 | every alias of one name list is bound to the same definition, later entries overriding earlier ones |
| Catalog.FunctionCatalog.MapArgs | hformat/hformat.py:610-616 | the loop over the declared arguments computes `ArgMap`: each given argument is stored under both its declared name and its position, and a missing one is stored as absent |
| Catalog.FunctionCatalog.Build | hformat/hformat.py:552-617 | the table is loaded once and kept afterwards; the result is `BuildFunction` over it |
| Convert.ResolveExpression | hformat/hformat.py:264-277 | an empty expression becomes `_i_` for the next positional index, which then advances; a numeric one is wrapped in underscores; any other is kept; the result is never empty or numeric |
| Convert.Evaluate | hformat/hformat.py:292-295 | a name failure gives the expression itself as text; any other failure is an error; otherwise the evaluated value |
| Convert.FindNamedFirst | hformat/hformat.py:306-313 | the lookup finds the first function with the name, or none when no function has it |
| Convert.FindFuncFirstMatch | hformat/hformat.py:306-313 | `get_func` (`FindFunc`): names are tried in order, and the first name that some function has decides |
| Convert.GetFunc | hformat/hformat.py:306-313 | the nested loops of `get_func` compute `FindFunc` |
| Convert.CanvasSplit | hformat/hformat.py:326-335 | an odd canvas spec gives its middle character as fill and the rest as wrapper; an even one keeps all of it as wrapper, with the canvas marker as fill |
| Convert.FillOf | hformat/hformat.py:321-340 | no fill function leaves fill, align and wrapper empty; a `fill` or `field` function's `fillchar` argument is the fill with align `<`, and a longer one becomes a multi-fill behind its marker that keeps the text; a `canvas` function's argument is split by `CanvasSplit` into fill and wrapper; a missing fill argument is an error |
| Convert.AlignOf | hformat/hformat.py:345-355 | a `left` function or an `align` argument `left` or `<` gives `<`; failing that `right` gives `>`; failing that `center` gives `^`; failing that `sign` or `=` gives `=`; otherwise the current value is kept |
| Convert.SignOf | hformat/hformat.py:359-361 | a sign is set exactly when the function is given: its first positional argument when that is nonempty, and `+` when it is absent, None or empty |
| Convert.PrecisionOf | hformat/hformat.py:365-368 | no `prec` function or an empty `prec` argument gives no precision; a nonempty argument `p` gives `.p` |
| Convert.TypeLetter | hformat/hformat.py:372-394 | a type name is found exactly when the table has it, and maps to its letter |
| Convert.TypeOf | hformat/hformat.py:371-396 | the type letter comes from the table; the alternate form `#` is set exactly for `bin`, `octal`, `hex` and `Hex` |
| Convert.SeparatorSwap | hformat/hformat.py:421-425 | the three replacements through the spare marker swap the separators in one pass |
| Convert.SwapChain | hformat/hformat.py:421-425 | the replacement chain equals the one-pass swap of `,` to the thousands separator and `.` to the decimal separator |
| Convert.SeparatorsOf | hformat/hformat.py:407-427 | without `milesep` and `floatsep` nothing changes; with either, the value is pre-rendered as text and the type fields are cleared |
| Convert.TrimText | hformat/hformat.py:436-439 | without a stop text the result is the prefix of the text of the length Python's slice `[:limit]` gives; with one, it is the prefix of the length `[:limit - len(stop)]` gives, followed by the stop text |
| Convert.TrimBound | hformat/hformat.py:436-437 | when the stop fits the limit, the result is at most the limit long |
| Convert.TrimAppendsStop | hformat/hformat.py:436-437 | the stop is appended even when nothing was cut |
| Convert.TrimOf | hformat/hformat.py:431-440 | no `trim` changes nothing; with it the value becomes text and the type fields are cleared; a missing limit is an error |
| Convert.WidthOf | hformat/hformat.py:444-457 | no width function gives no width; a missing `size` is a `KeyError`; `zwidth` sets the zero flag |
| Convert.RelativeWidth | hformat/hformat.py:451-457 | a width `+k` becomes `k` plus the length of the pre-rendered value |
| Convert.CycledAt | hformat/hformat.py:471-473 | the `i`-th placeholder is replaced by the fill character at `i` modulo the fill length, and other characters stay |
| Convert.FillStepsCycled | hformat/hformat.py:471-473 | the loop of first-occurrence replacements equals the position-wise cycling |
| Convert.CycledClears | hformat/hformat.py:471-473 | when the placeholder is not a fill character, none is left afterwards |
| Convert.MultiFillStage | hformat/hformat.py:468-473 | nothing changes without a multi-fill; an unbound multi-fill or an empty one is an error |
| Convert.MultiFillCycles | hformat/hformat.py:468-473 | the multi-fill result is the cycled fill, and no placeholder remains |
| Convert.FillMulti | hformat/hformat.py:468-473 | the loop computes `MultiFillStage` |
| Convert.LeadingRun | hformat/hformat.py:486-490 | `before` is the length of the leading run of placeholders |
| Convert.LeadingRunCount | hformat/hformat.py:484-491 | `after` counts the placeholders past the leading run |
| Convert.CanvasStage | hformat/hformat.py:476-498 | nothing changes without the canvas marker; it fails with a division by zero exactly when placeholders are present and the wrapper is shorter than two characters |
| Convert.CanvasCycles | hformat/hformat.py:476-498 | the leading placeholders cycle through the opening half and the rest through the closing half |
| Convert.CanvasShape | hformat/hformat.py:476-498 | with a wrapper of at least two characters the length is kept, leading position `k` shows opening character `k mod n`, and no placeholder remains |
| Convert.FillCanvas | hformat/hformat.py:476-498 | the head-run count and the two replacement loops compute `CanvasStage`, including its zero-division case |
| Convert.HeadRun | hformat/hformat.py:485-489 | the counting loop stops at the first character that is not the sentinel and returns the length of the leading run |
| Convert.FillLoop | hformat/hformat.py:471-473 | `count` first-occurrence replacements, cycling through the fill, compute `FillSteps` |
| Convert.Wrap | hformat/hformat.py:504-506 | the conversion is kept in the middle, between the two halves of the wrapper |
| Convert.WrapStage | hformat/hformat.py:502-506 | a canvas wrapper wraps; otherwise the first argument `w` of a `wrap` function gives `Wrap(conversion, w)`; no wrapper leaves the conversion; a `None` argument is an error |
| Convert.ConversionWithoutFunctions | hformat/hformat.py:247-510 | a token without functions is rendered with an empty specification |
| Convert.ConvertFields | hformat/hformat.py:316-510 | the method running the stages one after another computes `Conversion`, the stages of `convert` composed as functions |
| HFormat.Majority | hformat/hformat.py:203 | the choice between two characters, used for the quote here and for the function separator at lines 221-222: the one chosen is one of the two, occurs at least as often as either, and is the first one on a tie |
| HFormat.SplitPair | hformat/hformat.py:209 | two-value unpacking of `split(c)` succeeds exactly when `c` occurs once, and gives the parts around it |
| HFormat.SplitExpression | hformat/hformat.py:208-212 | no colon gives the whole token as expression; one colon gives the stripped parts; more colons are an unpacking error |
| HFormat.SplitCall | hformat/hformat.py:228-232 | no parenthesis gives no arguments; one gives the name and the text after it; more are an unpacking error |
| HFormat.ArgumentTexts | hformat/hformat.py:234-238 | no `(` (`f`) or nothing after it (`f(`) gives none; `f()` gives one empty argument; otherwise there is one text per comma before the closing character plus one, none holding a comma or starting or ending with whitespace |
| HFormat.BuildCallsSpec | hformat/hformat.py:223-241 | building the calls one after the other (`BuildCalls`) succeeds with one function per call, the one the catalog builds from that call stripped, in order; or fails with the error of the first call that fails |
| HFormat.PlainParseSpec | hformat/hformat.py:206-241 | `parse` of a token with no escape, quote or parenthesis (`PlainParse`): more than one `:` is an unpacking error; no `:` gives the whole token as expression and no functions; one `:` gives the stripped text before it as expression and one function per call after it, as `ParsedCalls` says |
| HFormat.PlainParseCalls | hformat/hformat.py:208-241 | with the split at `:` into `a` and `b`, the plain parse yields expression `strip(a)` and the functions of the calls of `strip(b)`, or the first failing call's error |
| HFormat.SplitExpressionAvoids | hformat/hformat.py:208-212 | a character the token lacks is missing from its specification part too |
| HFormat.BuiltBeforeStep | hformat/hformat.py:223-241 | one more call built extends the functions built so far, and its failure is the outcome of the whole |
| HFormat.BuiltBeforeEnds | hformat/hformat.py:223-241 | before the first call nothing is built; after the last, the functions built are the outcome |
| HFormat.UnknownNameIsLiteral | hformat/hformat.py:264-295 | a token whose expression is not defined is converted as the literal expression text |
| HFormat.HumanFormatter.constructor | hformat/hformat.py:142-147 | a new formatter starts with empty texts and positional index 0 |
| HFormat.HumanFormatter.Parse | hformat/hformat.py:186-244 | a token with no escape, quote or parenthesis parses exactly as `PlainParse`; one with nothing to mask and no colon is all expression; every function returned was built from the catalog; an error is an unpacking error or a catalog error |
| HFormat.HumanFormatter.ParseFunctions | hformat/hformat.py:217-241 | with no records yet and no parenthesis, the result is `BuildCalls` of the specification split on its majority separator; every function returned was built from the catalog; an error is an unpacking error of a call or a catalog error |
| HFormat.HumanFormatter.BuildAll | hformat/hformat.py:223-241 | the loop over the calls stops at the first failure; with no records and no parenthesis in any call it computes `BuildCalls` |
| HFormat.HumanFormatter.BuildCall | hformat/hformat.py:224-241 | one call: with no records and no parenthesis its result is the catalog's function for the stripped call with no arguments; otherwise a catalog function or an unpacking or catalog error |
| HFormat.HumanFormatter.Convert | hformat/hformat.py:247-510 | the result is `ConvertToken` of the parsed token at the current positional index: the expression resolved, evaluated and rendered by `Conversion`; the index advances exactly for an empty expression; `final` is set on success |
| HFormat.HumanFormatter.TopLevelOf | hformat/hformat.py:168-169 | the deepest generation is the largest key of the list |
| HFormat.ParseThenConvert | hformat/hformat.py:179-180 | a parse that is the plain parse on unmasked text and builds its functions from the catalog, followed by `convert` at a positional counter, gives a result `ConvertsTo` allows |
| HFormat.HumanFormatter.ConvertOne | hformat/hformat.py:179-181 | a token whose children are not all converted fails with that error; otherwise the result is what `parse` then `convert` give for its substituted text at the current positional index (`ConvertsTo`): exactly `PlainConvert` when the text has nothing to mask, and in any case the conversion of a parse whose functions the catalog builds |
| HFormat.HumanFormatter.Store | hformat/hformat.py:182 | the token gets the conversion, and the tokens of its generation converted before keep theirs |
| HFormat.HumanFormatter.ConvertStep | hformat/hformat.py:178-182 | one token converted and given its conversion; on success it and the tokens before it all hold conversions of their substituted texts (`Converted`) |
| HFormat.HumanFormatter.ConvertGeneration | hformat/hformat.py:178-182 | on success every token of the generation holds the conversion of its text with its children's conversions put back (`Converted`) |
| HFormat.HumanFormatter.ConvertLevel | hformat/hformat.py:170-182 | converting one generation keeps the conversions of every deeper generation, so on success all generations from this one down are `Converted` |
| HFormat.HumanFormatter.GenerationMap | tokenizer.py:141-150 | `main.list()` has the template first in generation 0, a key exactly for each generation of the tree, and under each key exactly the tree's tokens of that generation |
| HFormat.HumanFormatter.GenerationMembers | tokenizer.py:141-150 | a map holding each generation of the tree holds only tree tokens of the right generation, and every tree token under its own generation |
| HFormat.HumanFormatter.Generations | hformat/hformat.py:163 | `main_token.list()`, with the facts of `GenerationMap` |
| HFormat.HumanFormatter.RunLevels | hformat/hformat.py:162-183 | levels are taken deepest first, strictly decreasing, ending with level 0; on success the levels are exactly the generations of the tree, every token below the template is `Converted`, and the result is the template with its children's conversions put back; a token without children gives its own text |
| HFormat.HumanFormatter.LevelLoop | hformat/hformat.py:168-183 | the generations present are converted deepest first and the template is substituted last; the levels strictly decrease; when the loop reaches 0 every generation was run, every token of each deeper one is `Converted`, and the result is the template's substitution |
| HFormat.HumanFormatter.Format | hformat/hformat.py:150-183 | a stray `}` gives the reading's error, the intended SyntaxError with its position (see Findings); a template without `}` comes back unchanged; on success the result is the template's token tree root with its children's conversions put back, the levels run are exactly the tree's generations in strictly decreasing order down to 0, and every token below the root holds a conversion of its own substituted text; the positional index never goes back |

## Findings

| source | as written | input that shows it | evidently intended | confidence | as-written member | corrected member |
|---|---|---|---|---|---|---|
| tokenizer.py:33-34,134 | a stray `}` raises `SyntaxError(ERR_MISSING_OPENING_KEY.format(i))`, but the message holds a lone `}` (`'}'`), so `str.format` raises ValueError "Single '}' encountered in format string" first, and no position is reported | the template `a}` | SyntaxError naming position 1 | high; not executed | Tokenizer.StrayCloserAsWritten | Tokenizer.ScanStray |

The rest of the model uses the corrected behaviour: `TopLevel`, `ScanChildren` and `Format` report `UnmatchedClosingKey(i)`. `ScanAsWritten` gives the code's behaviour as written, and the error `SingleClosingBrace` stands for that ValueError.

## Left out

- HFormat.HumanFormatter.Parse: the exact result is stated only for a token with no escape, quote or parenthesis (`PlainParse`). For other tokens it states that every function comes from the catalog and which errors can occur, but not the expression and arguments the unmasking gives back, because the markers depend on the random draws.
- HFormat.HumanFormatter.ParseFunctions: the exact result is stated only when nothing is masked yet and the specification has no parenthesis. With arguments the functions are stated only to come from the catalog.
- HFormat.HumanFormatter.ConvertOne: for text with something to mask, the result is stated as the conversion of some parse whose functions the catalog builds, not of a parse fixed by the text.
- HFormat.HumanFormatter.BuildAll: the exact list of functions is stated only when nothing is masked yet and the specification has no parenthesis (`BuildCalls`). Otherwise the functions are stated only to come from the catalog, because the unmasked argument texts depend on the random markers.
- HFormat.HumanFormatter.BuildCall: the exact function is stated only for a call with no parenthesis and nothing masked. A call with arguments is stated only to give a catalog-built function or a catalog error, because its argument texts are unmasked through the random markers.
- HFormat.HumanFormatter.ConvertStep: the token's conversion is stated as `Converted`, which keeps only that some positional counter gave it. The counter it was actually converted at, and the conversion of a masked text beyond "of some catalog-built parse", are not stated.
- HFormat.HumanFormatter.ConvertGeneration: every token of the generation is stated `Converted`, for some positional counter each. That the counter runs through the tokens in order, advancing on each empty expression, is not stated.
- HFormat.HumanFormatter.ConvertLevel: as for ConvertGeneration, the tokens of the level and of every deeper level are `Converted` for some positional counter, not the in-order one.
- HFormat.HumanFormatter.LevelLoop: the tokens of the levels run are `Converted` for some positional counter each, not the one the run reached when it converted them.
- HFormat.HumanFormatter.RunLevels: every token below the root is `Converted` for some positional counter, not the one the deepest-first run gives it.
- HFormat.HumanFormatter.Format: the positional counter each token was converted at is stated only to exist (`Converted`), not to be the count of empty expressions converted before it.
- Tokenizer.FormatOne: Python's `str.format` is modelled only for the escapes `{{` and `}}`, the empty field `{}` and a lone `}`. Any other field gives `OtherField`. The stray-`}` message uses nothing else before its lone `}`.
- Convert.TrimBound: only covers a stop text that fits in the limit. A longer stop makes Python's slice index negative, and the result is then longer than the limit.
- Randomness: `random.choice` over `safe_chars` is a parameter `pick`. The `safe_chars` attribute keeps its default `$_`, because the core never reassigns it.
- `return_group_id` of the masking methods: the group is always returned, and callers that do not need it ignore it.
- `dict_join`'s `key=` argument: the core always joins by `+`.
- Python's `eval` and its `__args__` rewriting of positional references (`hformat/hformat.py:281-288`): both are inside the `evaluate` parameter.
- Python's `str.format`: it is the `render` parameter. Its own errors, such as a malformed width or an unknown type for the value, are not modelled.
- Reading the YAML definitions file: the raw groups are an input to the catalog.
- `hfprint`, `__str__`, `__repr__`, the unused `Singleton` metaclass and the Python 2 branches.
- The `_func` attribute set as a side effect of `get_func`, and the first assignment of `name` and `args` in `FunctionObject.__init__` that `_build` overwrites.
- Unicode: `strip` and `isnumeric` are modelled on ASCII whitespace and digits. `int()` is modelled without underscores between digits.
- The tokenizer does not reject an unclosed `{`. The model follows the code: the unclosed part is plain text.
