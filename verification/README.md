# Verified models of CloudEmu's cores

A Dafny 4.11 project that models the hardest parts of CloudEmu and proves what they are for. `dafny verify
dfyconfig.toml` checks all of it. The models are written from the Go sources at the paths and lines cited in the
table below; where a comment in the sources and the code disagree, the models follow the code.

## What is modelled

**The VTL template engine** (`internal/vtl`).

- `Ast`, `Scan`, `Grammar`, `Parser`: the recursive-descent parser. `Grammar` says what each parse method
  returns and leaves unread, as functions on the unread text; `Parser` is the object with a cursor and a nesting
  counter, every method of which is proved to agree with the grammar. `Unread`: what is left unread is always
  the end of what was there. `Lines`, `Indents` and `WholeLines`: what directives alone on their line drop.
  `Printer`, `RoundTrip` and `TooDeep`: parsing undoes printing exactly for expressions within the nesting
  limit; `TemplateText` and `TemplateRoundTrip`: so it does for whole templates. `Spellings`: other ways of
  writing the same, and precedence. `Refusals`: what is refused, and with what fault. `Nesting`: accepted
  templates nest within the limit.
- `Values`, `Format`, `Cycles`: lists and maps that may be shared and cyclic, the bounded printer and encoder,
  and exactly when they fail. `ValueTexts`: the texts they write, said without them. `Json`, `JsonRoundTrip`:
  the decoder, and the round trip at the level of tokens (sections 2, 4 and 5 of RFC 8259).
- `Runtime`, `Methods`, `Collections`, `Eval`, `Machine`: the evaluator, as functions and as the object that
  updates variables, output, step count and store. `Meaning`: what #if, #set and #foreach do, on conditions,
  items and variables; `Rules`: the same for every other node and expression; `Calls`: what the methods of lists
  and maps give and leave. `Operations`: laws of its arithmetic, comparisons, texts, stores and calls.
  `StepBudget`: the step budget is exact and monotone. `Signals`: which signals get out of strings and loops.
  `Memory`, `Sizes`, `Charging`: the memory budget, alone and under concurrent renders, and what calls are
  charged against what they add.
- `Regex`, `Texts`, `StringMethods`, `Patterns`: going through the matches of a regular expression, splitting,
  replacing, and the shorter way for patterns that stand for themselves. `Replacing`: that no match is missed,
  and what comes out, from left to right.
- `Cache`: the cache of parsed templates under concurrent callers.

**Around it.** `Idempotency`, `CreateRuns`, `LostRecords` and `Records` (creates that happen once per token),
`Ids` and `Persist` (ids across save, restart and restore), `JsonPath` with `PathText` and `PathErrors` (what a
written path selects, and which are refused), `Events`, `EventMeaning` and `Wildcard` (event patterns),
`EnumWalk` (the enum walker), `IpAlloc` and `Ipv4` (the subnet allocator), `Routes` (longest-prefix routing,
section 5.1 of RFC 4632).

Concurrent code is a state machine whose steps are the atomic operations or critical sections of the source,
with theorems over every sequence of steps that can happen. Code that updates things step by step is a class or
a method with loops, proved equal to a function or against an outright property; the theorems are then about the
function. Library code (regular expressions, JSON lexing and quoting, float arithmetic and printing, address
parsing) and host objects are parameters, with what is needed of them stated where they are used.

## What the proofs found

- Two kinds of calls add memory that is neither checked nor charged. `entrySet` on a map with entries builds a
  two-entry map per entry, and only the list of them is counted; `put` and `putAll` count a new key as one slot
  and not its text, which `#set` and `sizeOf` do count (`internal/vtl/methods.go:117-171, 328-368`,
  `internal/vtl/eval.go:229-239`). `Charging.CallsAreChargedExactly` gives the exact condition in bytes,
  `Methods.GrowthExpectedExactly` the one for slots, and `Charging.OnePutUndercharged` one such put.
- A directive alone on its line drops the blanks at the end of the text before it, taken to be its indentation.
  Behind a `##` comment, which takes its line end with it, these are blanks of the line before
  (`internal/vtl/parse.go:200-208, 327-365`): `Lines.BlankBeforeCommentGoes` has the template, and
  `Indents.IndentGoes` the exact condition, at every place of a template.
- `"true" == true` holds in a template and `true == "true"` does not: a boolean on the left is compared as one,
  on the right by its text (`internal/vtl/eval.go:719-751`). `Operations.EqualityHasSides` says when the order
  of the sides matters.
- An event pattern may end the program: comparing two arrays, or two objects, as Go interface values panics
  (`internal/eventmatch/eventmatch.go:147-180, 270-285, 405-415`), and validation looks at no leaf. An array
  among the entries of a leaf does it (`Events.AcceptedPatternCrashes`), and so does a collection that an
  anything-but rules out (`Events.AcceptedExclusionCrashes`). `Events.LeafCrashesExactly` gives the exact
  condition for every leaf, `Events.OperatorCrashesExactly` the one for operators, and `Events.TameIsDecided`
  the patterns that never do.
- The id counter is 64 bits and wraps. A snapshot that records the largest value makes the next id zero and
  later ids repeat earlier ones (`internal/idgen/idgen.go:100-123`). `IdCounter.MintsAboveExactly` gives the
  exact condition and `IdCounter.WrappedCounterReusesIds` the run.
- Printing a cyclic value can still fail for depth: the depth is looked at before the enclosing collections are,
  and a long walk that has not come back yet is too deep (`internal/vtl/value.go:266-282`).
  `Cycles.PrintingTakesCycles` says exactly when, and `Cycles.RingsPrintUpToTheLimit` for rings of lists: from a
  thousand lists on.
- The cap on visits in `sizeOf` is never what ends a count: each value on the stack has been paid for by the
  collection that holds it, so the limit on bytes comes first (`internal/vtl/limits.go:95-124`).
- The comment on `Do` promises exactly one resource for a burst of requests with one token. That needs a
  positive ttl, clocks within one ttl of each other, no Forget of the resource and no replay that finds it gone:
  `LostRecords.OneCreation` proves it under these conditions, and for each of them `LostRecords` has a run
  without it, for any token and ids, that creates twice. In every run creations are at most one more than the
  losses of the record (`CreateRuns.CreatesOnce`).

## Model

| member | source | states |
|---|---|---|
| `Parsing.Parse` | internal/vtl/parse.go:26-43 | For every source the parser ends and answers what the grammar says of it: the nodes, or the first fault. |
| `Parsing.Parser.ParseBlockNodes` | internal/vtl/parse.go:97-142 | A block is read up to its terminator: nodes, terminator, cursor and nesting counter afterwards are those of the grammar; the counter never exceeds the limit. |
| `Parsing.Parser.ParseHash` | internal/vtl/parse.go:196-238 | A `#` is a comment, an unparsed block, a directive or plain text, in this order of preference, and always moves the cursor; a block comment alone on its line takes the line with it. |
| `Parsing.Parser.ParseDirective` | internal/vtl/parse.go:279-310 | A known directive becomes its node, or ends the block; one that is alone on its line takes the line with it; what is left unread is what the grammar leaves. |
| `Parsing.Parser.GobbleLine` | internal/vtl/parse.go:327-346 | The blanks before a directive alone on its line go from the text node before it, and the rest of its line from the text behind it. |
| `Parsing.Parser.BlankLineEnd` | internal/vtl/parse.go:367-390 | Looking back and ahead finds the end of the line exactly when nothing but blanks shares it. |
| `Parsing.Parser.TrimParts` | internal/vtl/parse.go:349-362 | Blank parts go from the end, and the blanks at the end of the first that is not. |
| `Lines.BlankBeforeExactly` | internal/vtl/parse.go:367-390 | Only blanks stand before a directive exactly when they reach back to the start of its line. |
| `Lines.LineRestExactly` | internal/vtl/parse.go:367-390 | The rest of the line goes exactly when it is blank, up to its line end and no further. |
| `Lines.PartsTrimTogether` | internal/vtl/parse.go:349-362 | The parts of a text are trimmed as the text they make together. |
| `Lines.IndentGoesExactly` | internal/vtl/parse.go:349-362 | Of a text that ends in an indentation exactly that goes unless the text in front of it ends in a blank, which then goes as well. |
| `Indents.IndentGoes` | internal/vtl/parse.go:97-390 | At every place of every block: a directive alone on its line takes exactly the indentation of its line with it unless the line before ends in a `##` comment with a blank in front of it and no text follows; then that blank goes as well. |
| `Indents.PlacesAreCalls` | internal/vtl/parse.go:97-142 | The places are those the parser comes to: reading a block from its start is reading it from any of them, with the nodes there. |
| `Indents.BodiesStartClean` | internal/vtl/parse.go:445-553 | Bodies of #if, #elseif, #else and #foreach start at the end of the source or behind no blank, so this is about them too. |
| `UnreadText.BlockClean` | internal/vtl/parse.go:97-587 | What a block leaves unread is the end of what it was given, and unless it is all or nothing the character before it is no blank. |
| `UnreadText.ExpressionEnds` | internal/vtl/parse.go:589-1142 | What an expression leaves unread is the end of what it was given. |
| `Lines.BlankBeforeCommentGoes` | internal/vtl/parse.go:196-208 | A whole template in which it does: a blank before a comment that ends a line is dropped for a directive on the next line. |
| `Parsing.Parser.ParseSet` | internal/vtl/parse.go:394-426 | The target is a reference whose first byte is skipped without being looked at; then `=` and a value. |
| `Parsing.Parser.ParseIf` | internal/vtl/parse.go:445-484 | The condition, the line of the directive, and the branches. |
| `Parsing.Parser.ParseBranches` | internal/vtl/parse.go:455-508 | Branches in order until the end, the line of each #elseif dropped once its condition has been read; a missing `#end` is an error. |
| `Parsing.Parser.ParseForeach` | internal/vtl/parse.go:510-553 | Loop variable without accessors, `in`, the range, the body and its `#end`. |
| `Parsing.Parser.ParseReturn` | internal/vtl/parse.go:555-584 | An optional parenthesised value; without a parenthesis nothing is consumed. |
| `Parsing.Parser.ParseRef` | internal/vtl/parse.go:589-625 | A reference with its chain; when none stands there, or a braced one is not closed, the cursor is back at the start. |
| `Parsing.Parser.ParseChain` | internal/vtl/parse.go:628-670 | Property, method and index steps are appended in the order read. |
| `Parsing.Parser.ParseArgs` | internal/vtl/parse.go:673-705 | A comma-separated list up to its closer; every round consumes something. |
| `Parsing.Parser.ParseExpr` | internal/vtl/parse.go:709-717 | An expression one nesting level down; the counter is restored on success. |
| `Parsing.Parser.ParseBinary` | internal/vtl/parse.go:746-769 | Operators of one level are folded from the left, at most 1000 of them. |
| `Parsing.Parser.MatchOperator` | internal/vtl/parse.go:773-798 | The longest operator of the level that stands at the cursor, in whatever order the table is gone through; a word only when no identifier character follows. |
| `Parsing.Parser.ParseUnary` | internal/vtl/parse.go:800-820 | Prefix operators nest, each one level deeper. |
| `Parsing.Parser.ParsePrimary` | internal/vtl/parse.go:841-871 | The form of an expression is decided by its first character. |
| `Parsing.Parser.ParseDoubleQuoted` | internal/vtl/parse.go:920-942 | A string with `$` or `#` is parsed as a template at the same nesting; a stray terminator in it is an error. |
| `Parsing.Parser.QuotedString` | internal/vtl/parse.go:954-982 | A doubled delimiter stands for itself; the string ends at the first single one. |
| `Parsing.Parser.ParseNumber` | internal/vtl/parse.go:984-1016 | An integer within 64 bits, or a finite decimal when a digit follows the point. |
| `Parsing.Parser.ParseListOrRange` | internal/vtl/parse.go:1024-1071 | A list, or a range of two bounds. |
| `Parsing.Parser.ParseEntries` | internal/vtl/parse.go:1073-1112 | Entries of a map literal in the order written. |
| `RoundTrip.ParseUndoesPrint` | internal/vtl/parse.go:709-1112 | For every writable tree within the nesting and chain limits, minimally or fully parenthesised, parsing its text at any depth gives the tree back and leaves nothing unread. |
| `TooDeeply.ReadBackExactly` | internal/vtl/parse.go:709-1112 | The text of a writable tree within the chain limit is read back, whole, exactly when its nesting fits in the levels left, and otherwise refused as nested too deep. |
| `RoundTrip.OperatorsAssociateLeft` | internal/vtl/parse.go:746-769 | Any run of operators of one of the six levels, written without parentheses, comes back grouped from the left. |
| `RoundTrip.BareBack` | internal/vtl/parse.go:719-820 | At each level the text of a tree is read up to the next operator that binds less tightly. |
| `RoundTrip.QuotedBack` | internal/vtl/parse.go:954-982 | Doubling the quotes of any string and reading it back gives the string. |
| `RoundTrip.SymbolFirst` | internal/vtl/parse.go:773-798 | The symbol written for an operator is the longest match of its level and no match of another. |
| `Nesting.ParsedWithinLimit` | internal/vtl/parse.go:55-63 | Blocks, expressions and templates in strings, counted together, never nest deeper than 100 in a template that Parse accepts. |
| `Nesting.BlockWithin` | internal/vtl/parse.go:97-142 | The same for a block parsed at any depth. |
| `Nesting.ExpressionWithin` | internal/vtl/parse.go:709-717 | The same for an expression parsed at any depth. |
| `Collections.Map.Put` | internal/vtl/value.go:80-89 | A new key goes last, an old one keeps its place; the value before is returned. |
| `Collections.Map.Remove` | internal/vtl/value.go:92-109 | The key leaves order and values together. |
| `Collections.Map.PutAll` | internal/vtl/methods.go:336-344 | All entries of another map, or of itself, in its order. |
| `Collections.List.FirstIndex` | internal/vtl/methods.go:267-275 | The first item equal to a value. |
| `Collections.List.AddAll` | internal/vtl/methods.go:248-257 | All items of another list, or of itself, at the end. |
| `Collections.List.Remove` | internal/vtl/methods.go:278-303 | By index for an integer, by value otherwise: what the evaluator's call returns and leaves in the store. |
| `Format.Formatter.Value` | internal/vtl/value.go:286-377 | One writer for both modes: what is written and how it fails is the bounded part of the trace of the value; the set of enclosing collections is as before, on every path. |
| `Format.Formatter.Collection` | internal/vtl/value.go:297-432 | Enter, opening, children, closing and leave of a list or map, with the enclosing set restored. |
| `Format.Formatter.Write` | internal/vtl/limits.go:132-140 | A write either fits below the limit as a whole or leaves the buffer as it was. |
| `Format.FormatWithin` | internal/vtl/value.go:244-257 | The text of a value within a limit. |
| `Format.ToJson` | internal/vtl/value.go:222-229 | The JSON text of a value or why there is none. |
| `Format.Feed` | internal/vtl/limits.go:132-140 | The buffer never grows past the limit. |
| `Cycles.EncodableExactly` | internal/vtl/value.go:362-445 | On any store with sharing and cycles, encoding without the size limit succeeds exactly for values that reach no cycle and nest at most 1000 deep; each failure has its cause. |
| `Cycles.ToJsonDetectsCycles` | internal/vtl/value.go:222-229 | ErrCyclicValue only for values that reach a cycle; barring limit errors, exactly for those; a result is never longer than the limit. |
| `Cycles.PrintingTakesCycles` | internal/vtl/value.go:266-360 | Printing never fails for a cycle; it fails for depth exactly when a walk entering no collection twice goes deeper than the limit. |
| `Cycles.RingsPrintUpToTheLimit` | internal/vtl/value.go:266-360 | A ring of n lists, each holding the next, contains itself; printing it fails, for depth, exactly when n is at least 1000. |
| `Cycles.WalksAreSimple` | internal/vtl/value.go:266-282 | From an encoded value no walk meets a collection twice. |
| `Cycles.StoppedWalk` | internal/vtl/value.go:266-282 | When formatting stops, there is a walk into collections that is too long or comes back to one it is in. |
| `JsonCodec.ParseJson` | internal/vtl/value.go:120-134 | The decoder over tokens ends on every input and answers what the decoding functions say. |
| `JsonCodec.Decoder.Value` | internal/vtl/value.go:136-162 | One value: what is read, what is left of the tokens, and the store afterwards. |
| `JsonCodec.Decoder.Object` | internal/vtl/value.go:164-188 | Keys in order, a repeated key keeping its first place; the closing brace is consumed. |
| `JsonCodec.Decoder.Array` | internal/vtl/value.go:190-207 | Items in order up to the closing bracket. |
| `JsonRoundTrip.ToJsonWritesTree` | internal/vtl/value.go:222-229 | What ToJSON returns is the text of the tokens of the tree that the value unfolds to. |
| `JsonRoundTrip.JsonRoundTrips` | internal/vtl/value.go:120-217 | Every value ToJSON accepts decodes, in any store, to a value with the same tree, key order included: both share one depth limit. |
| `JsonRoundTrip.AcceptedTree` | internal/vtl/value.go:362-445 | A value that is encoded unfolds to a finite tree no deeper than the limit. |
| `JsonRoundTrip.ValueBack` | internal/vtl/value.go:136-162 | Decoding the tokens of a tree behind any context gives the tree and leaves the rest. |
| `Machines.Render` | internal/vtl/eval.go:48-89 | The evaluator as an object ends on every template, with the result and state the functions give; stop and break end it normally. |
| `Machines.Machine.RunBlock` | internal/vtl/eval.go:129-141 | Nodes one after the other, a step each, up to the first signal. |
| `Machines.Machine.ExecSet` | internal/vtl/eval.go:190-226 | Assignment to a variable, a property or an indexed place. |
| `Machines.Machine.ExecIf` | internal/vtl/eval.go:273-286 | The first branch whose condition holds, or the else part. |
| `Machines.Machine.ExecForeach` | internal/vtl/eval.go:288-322 | At most 1000 rounds, break ends the loop only, and the three loop variables are put back on every path. |
| `Machines.Machine.Interpolation` | internal/vtl/eval.go:413-427 | A string runs as a template with its own output and the same step counter. |
| `Machines.Machine.Between` | internal/vtl/eval.go:448-482 | The integers from one bound to the other, up or down, cut off past the limit. |
| `Machines.Machine.MapOf` | internal/vtl/eval.go:484-509 | Entries are evaluated and charged in order into a new map. |
| `Machines.Machine.BinaryOf` | internal/vtl/eval.go:531-563 | `&&` and `&#124;&#124;` look at the right side only when needed. |
| `Machines.Machine.ResolveChain` | internal/vtl/eval.go:570-588 | Accessors one after the other, ending at the first null. |
| `Operations.SumsWrap` | internal/vtl/eval.go:880-899 | A sum, difference or product is exactly the one 64-bit integer that has the bits of the exact result. |
| `Operations.DivisionAsInGo` | internal/vtl/eval.go:880-899 | Division by zero gives null; the rest is exact; so is the quotient except for the least integer by -1, which gives itself. |
| `Operations.QuotientAndRest` | internal/vtl/eval.go:880-899 | Dividend equals divisor times quotient plus rest; the rest is smaller than the divisor and has the sign of the dividend. |
| `Operations.RangeCounts` | internal/vtl/eval.go:448-482 | A range has the k-th integer from its start toward its end at place k, and ends at its end unless cut off after 1001 items. |
| `Operations.ComparisonsAgree` | internal/vtl/eval.go:768-809 | The four comparisons agree with each other in either order of the sides; values that do not compare satisfy none; for texts, neither below nor above means equal. |
| `Operations.LessIsTransitive` | internal/vtl/eval.go:787-788 | The order of texts is transitive. |
| `Operations.EqualityHasSides` | internal/vtl/eval.go:719-751 | Equality does not depend on the order of its sides exactly unless one side is a boolean and the other, not a boolean, has its text. |
| `Operations.BooleanAndItsText` | internal/vtl/eval.go:719-751 | The concrete case: "true" == true holds and true == "true" does not. |
| `Operations.ConcatJoins` | internal/vtl/eval.go:841-857 | The texts of both sides in order, charged by their length; fails exactly when one has no text, both are too long together, or the budget has no room. |
| `Format.TextIsWhole` | internal/vtl/value.go:244-257 | A value has a text within a limit exactly when its unlimited text is within it, and then it is that text. |
| `Operations.PutReadsBack` | internal/vtl/eval.go:229-239 | The entry reads back, every other key and every other list and map is unchanged, a new key goes last; a new key costs a slot and its text, and only it can fail, storing nothing. |
| `Operations.PutKeepsOk` | internal/vtl/value.go:80-89 | The store stays well formed: keys distinct, in order and values alike, addresses valid. |
| `Operations.SetMapStores` | internal/vtl/eval.go:241-257 | Through an index of a map the entry is stored under the text of the index; it fails exactly when that text or a new entry cannot be had or charged. |
| `Operations.SetItemStores` | internal/vtl/eval.go:241-257 | Through an index of a list the item in range is replaced and nothing else; out of range, or on anything else, nothing happens. |
| `Operations.StoredIsRead` | internal/vtl/eval.go:241-258 | What is stored through an index is read back through it, as long as the index has the text of its key. |
| `Operations.ScalarKeepsKey` | internal/vtl/eval.go:260-270 | The text of what is no list or map does not depend on the store, so it reads what it stored unless it is too long. |
| `Operations.CallTouchesReceiver` | internal/vtl/methods.go:116-158 | A call on a list or map changes no other list or map, and its own only by the methods that are there for it; a call that would not fit does nothing. |
| `Operations.TextAndEquality` | internal/vtl/methods.go:64-80 | toString and equals on any value: its whole text, charged, and equality. |
| `Operations.PutThenGet` | internal/vtl/methods.go:328-334 | put gives what get gave before, and get then gives what was put. |
| `Operations.RemoveUndoesPut` | internal/vtl/value.go:80-110 | Removing a key that was new when it was put leaves the store as it was, order included. |
| `Operations.SetUndoesSet` | internal/vtl/methods.go:305-315 | set gives the item it replaces, and setting that one again restores the list. |
| `StepBudgets.BudgetIsExact` | internal/vtl/eval.go:114-141 | Under budget b a render ends like the unlimited one, same result and state, exactly when that takes at most b steps; otherwise it fails at step b + 1. |
| `StepBudgets.BudgetMonotone` | internal/vtl/eval.go:45-89 | A render that completes under a budget does the same under every larger one, and takes no more steps than its own. |
| `StepBudgets.RunTracks` | internal/vtl/eval.go:129-141 | A block run with and without a budget stays in step until the budget is used up. |
| `StepBudgets.InterpolateTracks` | internal/vtl/eval.go:413-427 | Strings carry the step counter in and out. |
| `Signals.StopEndsOnlyItsString` | internal/vtl/eval.go:377-427 | No expression stops the template: `#stop` in a string ends only the string, at any depth. |
| `Signals.StringEndsAt` | internal/vtl/eval.go:413-427 | Wherever inside a string a node ends its template: #stop makes the string the text written so far, and every other signal ends the expression with that signal and without the text. |
| `Signals.BreakAndReturnGetOut` | internal/vtl/eval.go:413-427 | A #break or #return that the template of a string gets to, whatever stands before and behind it, gets out of the string. |
| `Signals.LoopVariablesComeBack` | internal/vtl/eval.go:288-342 | However a loop ends, its variable, `$foreach` and `$velocityCount` are as before. |
| `Methods.GrowthExpectedExactly` | internal/vtl/methods.go:116-171 | A list or map method grows the store by at most the slots checked beforehand, exactly unless it is entrySet on a map with entries; what it is charged never exceeds what was checked. |
| `Methods.EntrySetSlots` | internal/vtl/methods.go:357-368 | entrySet adds three slots an entry to the store and is charged for one. |
| `Charging.CallsAreChargedExactly` | internal/vtl/methods.go:117-171 | In bytes, keys included as sizeOf and #set count them, a call is charged for all it adds exactly unless it runs and is a put or putAll with a new key that is not empty, or entrySet on a map with entries. |
| `Charging.CellBytesAreOwn` | internal/vtl/limits.go:95-124 | The bytes of a list or map are what sizeOf counts for it without what it holds. |
| `Methods.CallsAreCharged` | internal/vtl/methods.go:116-158 | In slots: a completed call other than such an entrySet is charged at least the slots it adds, and leaves the render within its limit. |
| `Charging.EntriesAddText` | internal/vtl/methods.go:336-344 | Storing entries adds text of keys exactly when some key is new and not empty. |
| `Charging.MapCallBytes` | internal/vtl/methods.go:317-377 | The bytes each map method adds: its slots, the text of new keys, and for entrySet 136 bytes an entry more. |
| `Charging.ListCallBytes` | internal/vtl/methods.go:224-315 | List methods add their slots and nothing more. |
| `Charging.PutAddsKeyText` | internal/vtl/methods.go:328-334 | Any put under a new key that runs is charged one slot and adds the text of the key as well. |
| `Charging.OnePutUndercharged` | internal/vtl/methods.go:328-334 | One put into an empty map: 65 bytes added and 64 charged. |
| `Charging.SetIsChargedInFull` | internal/vtl/eval.go:229-239 | An entry stored by #set is charged for all it adds. |
| `Methods.ListCallSlots` | internal/vtl/methods.go:224-315 | What each list method adds to the store. |
| `Methods.MapCallSlots` | internal/vtl/methods.go:317-377 | What each map method adds to the store. |
| `Sizes.SizeOf` | internal/vtl/limits.go:95-124 | The size of a value with all it holds when that is within the limit, otherwise more than the limit, cycles included; the cap on visits never cuts a count short. |
| `Sizes.SizeIsUnique` | internal/vtl/limits.go:95-124 | A value has at most one such size. |
| `Sizes.PopSize` | internal/vtl/limits.go:100-121 | Replacing a value on the stack by what it holds leaves exactly its own size to be counted. |
| `Budgets.Budget.Charge` | internal/vtl/limits.go:77-90 | Adds to the render and to the pool first; fails afterwards exactly when a limit is exceeded. |
| `Budgets.Budget.Check` | internal/vtl/limits.go:69-75 | Whether more would fit, changing nothing. |
| `Budgets.Budget.Release` | internal/vtl/limits.go:62-66 | Gives back all that was added, failed charges included. |
| `Renders.PoolIsConserved` | internal/vtl/limits.go:50-90 | In every interleaving of charges and releases, with none halfway, the pool holds exactly what live renders have used, and nothing when all have ended. |
| `Renders.PoolIsCapped` | internal/vtl/limits.go:77-90 | In every interleaving, the renders whose last charge did not fail hold together no more than the limit; while no live render has a failed charge, neither does the pool. |
| `Renders.StepKeepsInv` | internal/vtl/limits.go:62-90 | Every atomic step keeps the pool equal to what renders hold in it, and both limits. |
| `Matching.EachMatchIncremental` | internal/vtl/string_methods.go:206-236 | Searching suffix after suffix delivers exactly the matches of FindAll, or a prefix of them when the caller stops it or the budget is exceeded; it charges every match, and at most one search a position. |
| `Matching.EachMatchBatched` | internal/vtl/string_methods.go:298-325 | Doubling batches deliver the same matches; only a budget without room for twice the first batch, or four times the matches, ends them early. |
| `Matching.EachMatch` | internal/vtl/string_methods.go:197-203 | Whichever loop runs, the same matches are delivered and charged, and only a budget without room ends the run early. |
| `Matching.AheadAfterMatch` | internal/vtl/string_methods.go:206-266 | One round of the loop is one round of the scan, or two when an empty match lies further ahead. |
| `Matching.SuffixSearch` | internal/vtl/string_methods.go:240-250 | For an expression without context, searching a suffix finds what searching from there in the whole text finds. |
| `Matching.FindIsLeftmost` | internal/vtl/string_methods.go:240-250 | No match starts before the one found. |
| `Matching.MatchesAreApart` | internal/vtl/string_methods.go:190-203 | Matches follow each other without overlap, and an empty one never ends the match before it. |
| `Matching.BatchHoldsAll` | internal/vtl/string_methods.go:298-325 | A batch that is not full, or as long as asked, holds all matches. |
| `StringMethods.LiteralReplace` | internal/vtl/string_methods.go:81-96 | Refuses exactly the results longer than the limit, before building them. |
| `StringMethods.ReplacedLength` | internal/vtl/string_methods.go:82-90 | The length computed beforehand is that of the replaced text, empty pattern included. |
| `StringMethods.SplitLiteral` | internal/vtl/string_methods.go:403-421 | The pieces between the occurrences, each charged. |
| `StringMethods.JoinUndoesSplit` | internal/vtl/string_methods.go:403-421 | Joining the pieces with the separator gives the text back. |
| `StringMethods.PiecesHaveNoSeparator` | internal/vtl/string_methods.go:403-421 | No piece has the separator in it. |
| `StringMethods.SplitRegex` | internal/vtl/string_methods.go:423-454 | The pieces between the matches of FindAll, without an empty first piece for an empty match at the start, each charged as it is added; fails only when the budget has no room. |
| `StringMethods.PiecesWeaveBack` | internal/vtl/string_methods.go:423-454 | The pieces and the matched texts between them are the whole text. |
| `StringMethods.DropTrailingEmpty` | internal/vtl/string_methods.go:396-398 | Only trailing empty pieces are dropped, and all of them. |
| `StringMethods.RegexReplace` | internal/vtl/string_methods.go:327-373 | Stopping at the first match past the limit refuses exactly the results that are too long as a whole; it fails for memory only when the budget has no room. |
| `Patterns.LiteralIsRegex` | internal/vtl/string_methods.go:327-399 | The shorter way for a pattern that stands for itself gives what the matches of its expression give: the same pieces, the same text with all or the first replaced. |
| `Patterns.FindIsIndex` | internal/vtl/string_methods.go:333-336 | An expression that finds just a text finds it where the text first stands. |
| `Patterns.Split` | internal/vtl/string_methods.go:378-401 | By either way, all pieces up to the last that is not empty; a bad pattern is refused, and only a budget without room fails for memory. |
| `Patterns.CallReplace` | internal/vtl/methods.go:91-109 | A call of replaceAll or replaceFirst, by either way and memory aside, gives the replaced text exactly when it is not longer than the output limit, and charges it beside the searches. |
| `Patterns.CallReplaceText` | internal/vtl/string_methods.go:68-96 | A call of replace gives the text with every occurrence replaced exactly when it is not too long, and charges just that text. |
| `Patterns.TextResult` | internal/vtl/methods.go:91-109 | A text a method has made is refused exactly when it is too long, before anything is charged, and charged otherwise. |
| `Patterns.WaysAgree` | internal/vtl/string_methods.go:327-377 | For a pattern that stands for itself the two ways are after the same text. |
| `Caches.Cache.Parse` | internal/vtl/cache.go:46-82 | A caller is given what parsing its source gives; list, index and byte count agree afterwards. |
| `Caches.Cache.Find` | internal/vtl/cache.go:47-57 | A hit returns the stored result and moves it to the front; a miss changes nothing. |
| `Caches.Cache.Keep` | internal/vtl/cache.go:64-79 | The new entry goes in front, oldest entries go until the rest fits; too heavy or present already changes nothing. |
| `Caches.KeptIsLongestFitting` | internal/vtl/cache.go:73-79 | Eviction keeps the longest prefix of the most recent entries that fits. |
| `Caches.InsertedStaysGood` | internal/vtl/cache.go:66-79 | An insertion keeps one entry a source with the result of parsing it, within the limit, and the new entry is among them. |
| `Caches.CacheAgreesWithParse` | internal/vtl/cache.go:42-82 | In every interleaving of callers the cache stays so, and every caller is given what parsing its source gives. |
| `TokenStore.IdempotencyStore.Enter` | internal/idempotency/idempotency.go:127-137 | One lock object a token, created on first use, with one more caller. |
| `TokenStore.IdempotencyStore.Leave` | internal/idempotency/idempotency.go:144-150 | One caller less; the lock leaves the table with its last caller. |
| `TokenStore.IdempotencyStore.Lookup` | internal/idempotency/idempotency.go:155-171 | The recorded id unless it has expired, when it is dropped. |
| `TokenStore.IdempotencyStore.Put` | internal/idempotency/idempotency.go:175-192 | Drops what has expired and records the id for the ttl; a ttl that is not positive records nothing. |
| `TokenStore.IdempotencyStore.Forget` | internal/idempotency/idempotency.go:197-206 | Drops exactly the tokens recorded for an id. |
| `CreateRuns.OneLockPerToken` | internal/idempotency/idempotency.go:126-152 | In every interleaving callers of a token share one lock, in the table exactly while some are inside, counting them, with at most one past it. |
| `CreateRuns.CreatesOnce` | internal/idempotency/idempotency.go:90-124 | In every interleaving a token creates at most once more than its record was lost; without a loss once, with one caller told so, and every id returned is that one. |
| `CreateRuns.RecordStays` | internal/idempotency/idempotency.go:154-206 | With a positive ttl, clocks within one ttl, no Forget of the resource and none found gone, the record is never lost. |
| `LostRecords.OneCreation` | internal/idempotency/idempotency.go:72-124 | Under these conditions a token creates at most once, at most one caller is told so, and all are told one id. |
| `LostRecords.TwoWithoutTtl` | internal/idempotency/idempotency.go:175-190 | Without a positive ttl: a run of any two calls with any token creates twice. |
| `LostRecords.TwoWhenLate` | internal/idempotency/idempotency.go:154-190 | With clocks more than the ttl apart: a run that creates twice. |
| `LostRecords.TwoWhenForgotten` | internal/idempotency/idempotency.go:197-206 | With a Forget in between: a run that creates twice. |
| `LostRecords.TwoWhenGone` | internal/idempotency/idempotency.go:90-124 | With a replay that finds the resource gone: a run that creates twice. |
| `CreateRuns.StepKeepsInvariant` | internal/idempotency/idempotency.go:90-206 | Every atomic step of every call keeps the invariant behind these. |
| `CreateRuns.MutualExclusion` | internal/idempotency/idempotency.go:139-142 | No two calls with one token are between acquiring and releasing together. |
| `CreateRuns.LookupPays` | internal/idempotency/idempotency.go:155-171 | A call finds no record only when none stands or a loss is counted. |
| `CreateRuns.PutPays` | internal/idempotency/idempotency.go:175-192 | Recording, with its sweep of other tokens, is accounted for. |
| `JsonPath.Collect` | internal/jsonpath/jsonpath.go:177-215 | The explicit stack yields, in document order, the matches under the value and all descendants down to depth 1000, or more than the permitted number when there are that many. |
| `JsonPath.Pop` | internal/jsonpath/jsonpath.go:190-212 | Taking the top frame off selects under its value next. |
| `JsonPath.PushReversed` | internal/jsonpath/jsonpath.go:208-211 | Pushing in reverse puts the first child on top. |
| `JsonPath.Tokenize` | internal/jsonpath/jsonpath.go:307-336 | The tokens of a path, or the first fault. |
| `JsonPath.Tokens` | internal/jsonpath/jsonpath.go:307-336 | A path without stars and double dots has no wildcard or descent token. |
| `JsonPath.Eval` | internal/jsonpath/jsonpath.go:78-104 | The value a definite path selects, step by step, or none. |
| `JsonPath.EvalAll` | internal/jsonpath/jsonpath.go:111-147 | The values after all steps and whether the path is indefinite; an error when a step selects too many. |
| `JsonPath.EvaluatorsAgree` | internal/jsonpath/jsonpath.go:78-147 | On every path Eval accepts, over every document, EvalAll is definite and gives exactly what Eval gives. |
| `JsonPath.DefiniteMatches` | internal/jsonpath/jsonpath.go:166-173 | A definite token selects at most one value. |
| `EnumWalk.WalkRoot` | internal/gcpenumgen/main.go:134-142 | The walk fills one map in place and ends on every graph, with the result of the walk as a function. |
| `EnumWalk.Walker.WalkMessage` | internal/gcpenumgen/main.go:144-156 | Fields in order, the first error ending the walk. |
| `EnumWalk.Walker.VisitField` | internal/gcpenumgen/main.go:158-178 | An enum is recorded under its path, with a star for a map; a message is walked. |
| `EnumWalk.Walker.VisitChild` | internal/gcpenumgen/main.go:180-196 | google.protobuf is skipped; a repeated or too deep message is an error exactly when it leads to an enum. |
| `EnumWalk.SearchEnum` | internal/gcpenumgen/main.go:210-231 | The search over the shared set of seen messages ends on every graph. |
| `EnumWalk.HasEnumExactly` | internal/gcpenumgen/main.go:210-231 | It finds an enum exactly when some path outside google.protobuf leads to one, cycles or not. |
| `EnumWalk.WalkSucceedsExactly` | internal/gcpenumgen/main.go:134-231 | The walk succeeds exactly when no path to an enum enters a message twice or more than ten messages: nothing is cut off silently. |
| `EnumWalk.WalkFindsExactly` | internal/gcpenumgen/main.go:134-255 | On success the keys are exactly the JSON paths of the chains of fields that lead to an enum, each with such an enum. |
| `EnumWalk.FitsExactly` | internal/gcpenumgen/main.go:180-206 | The guard lets a chain through exactly when it repeats nothing and is at most ten long. |
| `EnumWalk.EnumOf` | internal/gcpenumgen/main.go:235-247 | The names of an enum by number. |
| `EnumWalk.FirstNameWins` | internal/gcpenumgen/main.go:235-247 | With aliases the first name of a number wins. |
| `IdCounter.LaterIdsAreNew` | internal/idgen/idgen.go:97-123 | However mints and AdvanceTo calls interleave, later ids are above all earlier ones, above every n already advanced to, and different from each other. |
| `IdCounter.StepKeepsInv` | internal/idgen/idgen.go:101-123 | Every atomic step keeps the counter from going back. |
| `IdCounter.RetriesMakeProgress` | internal/idgen/idgen.go:116-123 | A failed compare-and-swap means the counter went up, so a call retries finitely often. |
| `IdCounter.AdvanceToIsAtomic` | internal/idgen/idgen.go:101-123 | However mints and AdvanceTo calls interleave, and when the counter wraps too, counter and ids are those of a run in which each finished call is one atomic maximum at its last step and an unfinished one nothing. |
| `IdCounter.FinishIsMaximum` | internal/idgen/idgen.go:116-123 | The step that finishes a call leaves the maximum of the counter and its n; every other step of a call leaves the counter alone. |
| `IdCounter.MintsAboveExactly` | internal/idgen/idgen.go:101-103 | A minted id is above the counter exactly when the counter has not reached its largest value. |
| `IdCounter.WrappedCounterReusesIds` | internal/idgen/idgen.go:116-123 | A run that shows why: after AdvanceTo of the largest value the ids start over. |
| `Persistence.NoIdIsReused` | persist/persist.go:138-274 | Across saves, restarts and restores, of old snapshots without a counter too, a new id belongs to no resource, was not minted or brought back before, and is above every id of a snapshot whose floors have been applied. |
| `Persistence.LegacyCoversExactly` | persist/idcounter.go:24-35 | The floor of a snapshot without a counter covers its ids exactly when its texts show, below the cap, one as high as each. |
| `Persistence.StepKeepsInv` | persist/persist.go:110-274 | Every step of minting, capturing, recording, restarting, flooring and restoring keeps what this rests on. |
| `Persistence.SavedStaysCovered` | persist/persist.go:174-200 | Whatever floor a snapshot asks for covers its ids: the counter recorded after the last capture, or the highest id an old one shows. |
| `Persistence.Process.ExportProvider` | persist/persist.go:174-200 | All services are captured and the counter is read last. |
| `Persistence.Process.RestoreAll` | persist/persist.go:138-169 | First the floors of all providers, leaving the counter where it was or at the highest of them; only then exactly the services both sides know are brought back. |
| `Persistence.IdFloor` | persist/idcounter.go:24-35 | The recorded counter, or the highest floor of the services of an old snapshot. |
| `Persistence.LegacyIdFloor` | persist/idcounter.go:44-57 | Run by run of hex digits, the highest id below the cap. |
| `Persistence.LegacyFloorIsHighest` | persist/idcounter.go:44-57 | It is no lower than any id that ends a run, and is one of them unless zero. |
| `Wildcards.WildcardMatch` | internal/eventmatch/eventmatch.go:381-403 | Greedy placement accepts exactly the texts of the pattern, read character by character. |
| `Wildcards.CutsAreMatches` | internal/eventmatch/eventmatch.go:381-387 | A text is one of the pattern exactly when it can be cut into the parts between the stars, in order, with any text at each star. |
| `Wildcards.LeftmostLosesNothing` | internal/eventmatch/eventmatch.go:393-400 | Placing a middle part as far left as possible loses no match. |
| `Events.MatchEvent` | internal/eventmatch/eventmatch.go:34-42 | Whatever the order of the fields, one of the answers the pattern may give the event: yes, no, or the crash of comparing two collections. |
| `Events.MatchOr` | internal/eventmatch/eventmatch.go:111-119 | Alternatives in order up to the first that does not say no. |
| `Events.MatchNested` | internal/eventmatch/eventmatch.go:68-83 | A nested pattern on an object, or on the elements of an array in order. |
| `Events.MatchLeaf` | internal/eventmatch/eventmatch.go:147-159 | The elements of an array one after the other, then the array as a whole, each against the entries in order. |
| `Events.MatchOperator` | internal/eventmatch/eventmatch.go:182-190 | The operators of an object in any order, up to the first that does not hold. |
| `Events.MatchAnythingBut` | internal/eventmatch/eventmatch.go:270-285 | A list of values ruled out is compared in order; an object is negated; anything else is compared. |
| `Events.MatchWildcard` | internal/eventmatch/eventmatch.go:355-377 | A text matches a wildcard pattern, or any of a list of them, in the sense of Wildcards.Matches. |
| `Events.LeafAnswersExactly` | internal/eventmatch/eventmatch.go:147-159 | Every leaf may answer yes, or crash, exactly when some entry may for one of the values tried, elements first and then the array, after all tried before may have been refused; and no exactly when all may be refused. |
| `Events.LeafCrashesExactly` | internal/eventmatch/eventmatch.go:147-159 | Every leaf, operators or not: it may crash exactly when the value is there and an entry compares one of the values tried with a collection of its kind, everything tried before having been refused. |
| `Events.OperatorCrashesExactly` | internal/eventmatch/eventmatch.go:270-285 | An operator object may crash exactly on a value that is there and of the kind of a collection it rules out, at any depth of anything-but. |
| `Events.AcceptedExclusionCrashes` | internal/eventmatch/eventmatch.go:465-502 | A second accepted pattern that can only crash, of the other kind: {"a": [{"anything-but": [{"x": 1}]}]} and {"a": {}}. |
| `Events.AcceptedPatternCrashes` | internal/eventmatch/eventmatch.go:465-502 | A pattern that ValidatePattern accepts and an event on which it can only crash: {"a": [[1]]} and {"a": [1]}. |
| `Events.TameIsDecided` | internal/eventmatch/eventmatch.go:34-83 | A pattern that compares no collections never crashes and gives every event one answer, whatever the order of fields and operators. |
| `Events.LeafMatchesExactly` | internal/eventmatch/eventmatch.go:147-159 | Without arrays among its entries, a leaf matches an array exactly by an entry for one of its elements or by an operator for the whole, anything else exactly by an entry for it. |
| `Events.AbsentMatchesExactly` | internal/eventmatch/eventmatch.go:171-202 | An absent field matches exactly by an entry that only asks for it not to exist, and never crashes. |
| `Events.NestedIsFirstObject` | internal/eventmatch/eventmatch.go:68-83 | Matching a nested pattern is trying it, in order, on the objects the value holds, through arrays of arrays. |
| `Events.NarrowerMatchesLess` | internal/eventmatch/eventmatch.go:34-119 | A pattern that asks no less, with more fields, fewer entries, narrower nested patterns and narrower alternatives at any depth, matches no more events. |
| `IpAlloc.FirstFree` | internal/ipalloc/ipalloc.go:38-56 | The lowest usable address that is not taken, and the empty text exactly when there is none. |
| `IpAlloc.RangeFits` | internal/ipalloc/ipalloc.go:47-98 | The loop counter never wraps: one past the last address is below two to the 32. |
| `IpAlloc.UsableCount` | internal/ipalloc/ipalloc.go:77-98 | Up to prefix 29 a block has all but five of its addresses usable, beyond it none. |
| `IpAlloc.FirstFreeIsUsable` | internal/ipalloc/ipalloc.go:60-74 | What FirstFree hands out, Usable accepts. |
| `IpAlloc.DottedIsInjective` | internal/ipalloc/ipalloc.go:51-55 | Different addresses have different texts, so the texts in use say which addresses are. |
| `Allocators.FirstFreeIsChoice` | internal/ipalloc/ipalloc.go:38-56 | What FirstFree finds in the texts of the used addresses is the choice of the allocator: the lowest free address, or none. |
| `Allocators.ChooseAddress` | internal/ipalloc/ipalloc.go:13-98 | The step of a caller that holds the lock: from the texts of the used addresses, the text of the lowest free one. |
| `Allocators.TextStored` | internal/ipalloc/ipalloc.go:51-55 | Storing or giving back the text of one address says nothing about any other. |
| `Allocators.AgainOnlyAfterGivenBack` | internal/ipalloc/ipalloc.go:21-27 | In every interleaving, an address that a subnet hands out again has been given back in between. |
| `Allocators.NeverHandedOutTwice` | internal/ipalloc/ipalloc.go:21-27 | In every interleaving of callers that hold the lock from reading to storing, an address about to be stored is used and chosen by nobody else. |
| `Allocators.StepKeepsInv` | internal/ipalloc/ipalloc.go:21-27 | Every step keeps the holder alone and its choice free. |
| `Routes.FindMatchingRoute` | features/topology/cidr.go:43-62 | None exactly when no route matches, for IPv4 when no block contains the address; otherwise the first route of the longest prefix. |
| `Routes.LongestIsInnermost` | features/topology/cidr.go:11-62 | The block of that route lies inside the block of every other matching route. |
| `Ipv4.BlocksNest` | features/topology/cidr.go:11-27 | Of two aligned blocks with an address in common, the longer prefix lies inside the other. |
| `TemplateRoundTrip.TemplateReadBackExactly` | internal/vtl/parse.go:26-587 | The text of any tree of plain texts, references and directives, nested at will and with no directive alone on its line, parses to exactly that tree when its nesting fits in the limit, and is refused as nested too deep otherwise. |
| `WholeLines.GobbleExactly` | internal/vtl/parse.go:327-390 | For every source and place: a directive that only blanks share its line with leaves the next line and takes the blanks at the end of the text before it; any other leaves all as it is. |
| `WholeLines.WordLine` | internal/vtl/parse.go:279-310 | #break and #stop alone on their line take the line with them. |
| `WholeLines.SetLine` | internal/vtl/parse.go:279-310 | #set alone on its line takes the line with it. |
| `WholeLines.ReturnLine` | internal/vtl/parse.go:555-584 | #return alone on its line takes the line with it. |
| `WholeLines.TerminatorLine` | internal/vtl/parse.go:279-310 | #else and #end alone on their line take the line with them, its indentation from the block they end. |
| `WholeLines.IfLine` | internal/vtl/parse.go:445-484 | #if and its condition alone on their line take the line with them before the first body is read. |
| `WholeLines.ElseIfLine` | internal/vtl/parse.go:455-508 | #elseif and its condition alone on their line take the line with them, its indentation from the body before. |
| `WholeLines.ForeachLine` | internal/vtl/parse.go:510-553 | #foreach and its head alone on their line take the line with them before the body is read. |
| `WholeLines.CommentLine` | internal/vtl/parse.go:196-238 | A comment in stars alone on its line takes the line with it. |
| `Spellings.WordsAreSymbols` | internal/vtl/parse.go:773-798 | Each of the eight words for operators is read as the operator of its symbol. |
| `Spellings.NotIsWord` | internal/vtl/parse.go:824-839 | `not` is read as `!`. |
| `Spellings.TighterFirst` | internal/vtl/parse.go:719-771 | Of any two operators between three operands the one that binds tighter, by a table of its own, takes the operand between them, and the first if neither does. |
| `Spellings.PrefixFirst` | internal/vtl/parse.go:800-820 | A prefix operator takes the one operand behind it before any other operator does. |
| `Spellings.DoubleQuotesBack` | internal/vtl/parse.go:920-942 | Without `$` and `#` a string in double quotes is the one in single quotes, quotes doubled. |
| `Spellings.StringsHoldTemplates` | internal/vtl/parse.go:920-942 | The text of a template in double quotes is the string of exactly its nodes, when its nesting fits in the levels left, and nested too deep otherwise. |
| `Spellings.EscapesBack` | internal/vtl/parse.go:162-173 | A backslash makes `$` or `#` plain text and is plain text in front of anything else. |
| `Spellings.LineCommentBack` | internal/vtl/parse.go:196-238 | A comment to the end of the line leaves nothing, its line end included. |
| `Spellings.StarCommentBack` | internal/vtl/parse.go:196-238 | A comment in stars that is not alone on its line leaves nothing. |
| `Spellings.UnparsedBack` | internal/vtl/parse.go:196-238 | What is in an unparsed block is text as it is. |
| `Refusals.IfNeedsEnd` | internal/vtl/parse.go:445-484 | An #if whose body goes on to the end of the text is refused. |
| `Refusals.ElseNeedsEnd` | internal/vtl/parse.go:488-503 | An #else whose body anything but #end ends is refused. |
| `Refusals.ForeachNeedsEnd` | internal/vtl/parse.go:510-553 | A #foreach whose body anything but #end ends is refused. |
| `Refusals.StrayTerminator` | internal/vtl/parse.go:26-43 | #else and #end behind any nodes of a template are refused where no block is open. |
| `Refusals.TooLongIsRefused` | internal/vtl/parse.go:26-43 | A source of more than 300 KiB is refused as it is. |
| `Refusals.UnsupportedRefused` | internal/vtl/parse.go:196-238 | The five directives that are not supported are refused by name. |
| `Refusals.UnknownIsText` | internal/vtl/parse.go:196-238 | Any other name behind `#`, and none, leaves the `#` as text. |
| `Refusals.DollarIsText` | internal/vtl/parse.go:177-192 | A `$` in front of no name is text. |
| `Refusals.UnclosedIsText` | internal/vtl/parse.go:589-625 | A reference in braces that are not closed is text from its `$` on. |
| `Refusals.UnclosedRefused` | internal/vtl/parse.go:196-238 | A comment in stars and an unparsed block have to be closed. |
| `Refusals.UnclosedStringRefused` | internal/vtl/parse.go:954-982 | A string has to be closed. |
| `Refusals.TerminatorInStringRefused` | internal/vtl/parse.go:920-942 | A string is refused whose template ends at #else or #end. |
| `Refusals.SetNeedsItsEquals` | internal/vtl/parse.go:394-426 | #set is refused without an equals sign behind its target. |
| `Refusals.VariableIsPlain` | internal/vtl/parse.go:510-553 | A loop variable with accessors is refused. |
| `Refusals.LoopNeedsIn` | internal/vtl/parse.go:510-553 | A loop without `in` behind its variable is refused. |
| `Refusals.ParenthesisNeedsClosing` | internal/vtl/parse.go:875-901 | A parenthesis that another closing character follows is refused, in expressions and around conditions. |
| `Refusals.TooLargeNumber` | internal/vtl/parse.go:984-1016 | Digits that denote no 64-bit integer are refused. |
| `Refusals.TooLargeDecimal` | internal/vtl/parse.go:984-1016 | A decimal is a number exactly when its whole part is below the bound from which it rounds to infinity. |
| `Refusals.LongChainRefused` | internal/vtl/parse.go:746-769 | A chain of operators one longer than the limit is refused. |
| `Meaning.IfRunsFirst` | internal/vtl/eval.go:273-286 | When the conditions before branch k evaluate in order to null or false, and that of k to anything else, the #if ends as running body k from there; an error in a condition ends it. |
| `Meaning.IfRunsElse` | internal/vtl/eval.go:273-286 | When all conditions evaluate to null or false, it ends as running the #else body, or with nothing happening. |
| `Meaning.IfIsDecided` | internal/vtl/eval.go:273-286 | Either some first condition gives anything but null or false, or ends in an error, or all give one of these. |
| `Meaning.SetBinds` | internal/vtl/eval.go:190-226 | #set($x = e) leaves what evaluating e leaves, with $x bound to the value. |
| `Meaning.VariableIsRead` | internal/vtl/eval.go:570-588 | A variable is the value bound to it, or null. |
| `Meaning.SetThenRead` | internal/vtl/eval.go:190-228 | What has been set is what is read. |
| `Meaning.ForeachRuns` | internal/vtl/eval.go:288-322 | Round i runs the body with the variable bound to item i, and with the counter, `$foreach` and its index, count, first, last and hasNext as they should be, up to the first round that does not end normally; then the loop variables are as before, and only #break ends it well. |
| `Meaning.ForeachFails` | internal/vtl/eval.go:288-322 | What cannot be evaluated is not gone through. |
| `Rules.TextIsWritten` | internal/vtl/eval.go:166-174 | Text goes behind the output exactly when it fits as a whole. |
| `Rules.ReferenceIsPrinted` | internal/vtl/eval.go:176-188 | A reference writes the whole text of its value, quietly or not, exactly when there is one and it fits. |
| `Rules.BlockIs` | internal/vtl/eval.go:129-141 | A block takes a step and runs a node, and goes on with the rest from there. |
| `Rules.EndsAre` | internal/vtl/eval.go:143-164 | #break, #stop and #return end the block, #return with its value or null. |
| `Rules.RenderGives` | internal/vtl/eval.go:48-89 | A render fails exactly for signals other than #return, #stop and #break; else it gives the output, and what was returned. |
| `Rules.ListIs` | internal/vtl/eval.go:429-446 | A list literal is a new list of the values of its items in order, charged beforehand. |
| `Rules.RangeIs` | internal/vtl/eval.go:448-482 | A range of two integers is a new list counting from one to the other, cut off after 1001 items, and charged a slot for each. |
| `Rules.MapIs` | internal/vtl/eval.go:484-509 | A map literal is a new map of its entries, entered in order. |
| `Rules.UnaryIs` | internal/vtl/eval.go:511-529 | `!` is whether its value is null or false; `-` negates integers within 64 bits and floats, and gives null for the rest. |
| `Rules.LogicIs` | internal/vtl/eval.go:531-563 | `&&` is false when the left side is null or false, `&#124;&#124;` true when it is not, without the right side; otherwise they are whether the right side is neither. |
| `Rules.SidesInOrder` | internal/vtl/eval.go:531-563 | Any other operator evaluates both sides, the left one first, and ends at an error. |
| `Rules.NumbersCompare` | internal/vtl/eval.go:768-798 | Numbers compare as doubles, each of the four operators its own way. |
| `Rules.TextsCompare` | internal/vtl/eval.go:768-798 | Texts compare by the first place they differ in, a beginning being less. |
| `Rules.OthersDoNot` | internal/vtl/eval.go:768-798 | No other two values compare. |
| `Rules.EqualityIs` | internal/vtl/eval.go:719-737 | Null equals null alone, numbers are equal as doubles, a boolean on the left equals the same boolean alone, a collection itself; `!=` is the opposite. |
| `Rules.EqualityIsOfTexts` | internal/vtl/eval.go:741-750 | Any other two values are equal exactly when they have the same text within the limit. |
| `Rules.ArithmeticIs` | internal/vtl/eval.go:813-838 | Integers calculate in 64 bits, other numbers as doubles, `+` joins when a side is a text, and the rest is null. |
| `Rules.StepIsAccess` | internal/vtl/eval.go:570-588 | One more step of a reference goes on from the value of the steps before it, and null ends it. |
| `Rules.PropertyIs` | internal/vtl/eval.go:627-647 | A property is the value under it in a map, of a text or list whether it is empty, and null of other values. |
| `Rules.IndexIs` | internal/vtl/eval.go:649-669 | An index is the item of a list in range, or the value under its text in a map. |
| `Rules.CallIs` | internal/vtl/eval.go:591-625 | The arguments of a call are evaluated from left to right, and then it is called. |
| `Rules.SetStoresThrough` | internal/vtl/eval.go:190-226 | #set through a reference evaluates the value, then all but the last step, and stores there: under a name, under an index, or nowhere; a call cannot be set. |
| `Rules.HostCallIs` | internal/vtl/methods.go:64-80 | A call on a text or host object gives what its surroundings give, each failure as its own signal. |
| `Rules.StepLimitIs` | internal/vtl/eval.go:110-112 | A limit on steps that is not positive stands for a million. |
| `ValueTexts.IntegerText` | internal/vtl/value.go:458-475 | The text of an integer is its decimal digits, and reads back as the integer. |
| `ValueTexts.ScalarTexts` | internal/vtl/value.go:458-475 | Null has the empty text, a boolean its word, a text itself. |
| `ValueTexts.CollectionText` | internal/vtl/value.go:297-432 | In both modes a collection that reaches no cycle is written in its brackets: the texts of the items in order, behind their keys in a map, joined by the separator of the mode. |
| `ValueTexts.ItemsHaveTexts` | internal/vtl/value.go:297-432 | The items of a collection that reaches no cycle and has a text have one too. |
| `ValueTexts.PlainIsWhole` | internal/vtl/value.go:244-257 | The text of a value in plain mode is the one that is printed. |
| `ValueTexts.JsonIsWhole` | internal/vtl/value.go:222-229 | The text of a value in JSON mode is what ToJSON gives, exactly when it is not too long. |
| `ValueTexts.JsonScalars` | internal/vtl/value.go:362-377 | The JSON of each kind of scalar; null for null and for host objects. |
| `ValueTexts.SelfList` | internal/vtl/value.go:297-326 | A list that holds itself prints as `[(this Collection)]`. |
| `ValueTexts.SelfMap` | internal/vtl/value.go:328-360 | A map that holds itself prints as such too. |
| `JsonRoundTrip.NothingBehind` | internal/vtl/value.go:120-134 | Anything behind a document is refused, and so is no document. |
| `JsonRoundTrip.TooDeepRefused` | internal/vtl/value.go:136-162 | A document of more than a thousand levels is refused, whatever it holds. |
| `Calls.CallGives` | internal/vtl/methods.go:116-158 | A call from a template that completes gives and leaves what the method of the list or map gives and leaves; a name that is no method gives null. |
| `Calls.ListReads` | internal/vtl/methods.go:224-275 | size, isEmpty, get, contains and indexOf on the items: get by place, the others by the first equal item. |
| `Calls.ListAdds` | internal/vtl/methods.go:232-256 | add and addAll append, and answer true; addAll takes nothing but a list. |
| `Calls.ListRemovesAt` | internal/vtl/methods.go:278-303 | remove of an integer takes the item at that place and gives it. |
| `Calls.ListRemovesItem` | internal/vtl/methods.go:278-303 | remove of anything else takes the first equal item and answers whether there was one. |
| `Calls.ListSets` | internal/vtl/methods.go:305-315 | set replaces the item at a place and gives the one before. |
| `Calls.ListArguments` | internal/vtl/methods.go:224-315 | What each list method does with arguments missing, of another kind, or to spare. |
| `Calls.MapReads` | internal/vtl/methods.go:317-356 | size, isEmpty, get and containsKey on the entries. |
| `Calls.MapLists` | internal/vtl/methods.go:317-377 | keySet and values are new lists in the order of the keys. |
| `Calls.MapEntries` | internal/vtl/methods.go:357-368 | entrySet is a new list of a new map with key and value for each entry, in order. |
| `Calls.MapPuts` | internal/vtl/methods.go:328-334 | put enters a value and gives the one before; a new key is last. |
| `Calls.MapPutsAll` | internal/vtl/methods.go:336-344 | putAll enters all entries of another map, new keys behind the old ones in its order. |
| `Calls.MapRemoves` | internal/vtl/value.go:92-110 | remove takes the key, wherever it is, and gives its value. |
| `Calls.MapArguments` | internal/vtl/methods.go:317-377 | What each map method does with arguments missing or null; any other key is taken by its text. |
| `Sizes.PlainSizes` | internal/vtl/limits.go:95-124 | A text counts its bytes, any other value without parts a slot. |
| `Sizes.ListSize` | internal/vtl/limits.go:95-124 | A list counts a slot an item and the sizes of its items. |
| `Sizes.MapSize` | internal/vtl/limits.go:95-124 | A map counts a slot an entry, its keys, and the sizes of its values. |
| `Replacing.NothingIsMissed` | internal/vtl/string_methods.go:197-266 | Every match that could start on a character is among those of FindAll, or overlaps one, or is empty where one ends. |
| `Replacing.FirstOfAll` | internal/vtl/string_methods.go:197-266 | The first match alone is the first of all. |
| `Replacing.ReplacedMatches` | internal/vtl/string_methods.go:327-373 | The replaced text is the text between the matches of FindAll, with the replacement of each match in its place. |
| `Replacing.PiecesBetweenMatches` | internal/vtl/string_methods.go:423-454 | The pieces of a split are the text between the matches, an empty match at the start not counting. |
| `Replacing.NothingToReplace` | internal/vtl/string_methods.go:68-96 | A text in which the pattern stands nowhere is one piece and stays as it is. |
| `Replacing.ReplacedFromLeft` | internal/vtl/string_methods.go:68-96 | The first place of a pattern is cut at or replaced, and then, for all, what is behind it in the same way. |
| `Replacing.NothingReplaced` | internal/vtl/string_methods.go:68-96 | The empty pattern stands before every character and at the end. |
| `Records.RecordedIsFound` | internal/idempotency/idempotency.go:155-195 | A recorded id is found up to the end of its ttl, and dropped when looked for later; without a positive ttl nothing is recorded. |
| `Records.OthersAreSwept` | internal/idempotency/idempotency.go:175-192 | Recording keeps exactly the records of other tokens whose time is not over. |
| `Records.LookupIsQuiet` | internal/idempotency/idempotency.go:155-171 | Looking for a token changes nothing but a record whose time is over. |
| `Records.ForgottenIsGone` | internal/idempotency/idempotency.go:197-206 | Forgetting an id drops exactly its records. |
| `Records.ReplaysTheRecord` | internal/idempotency/idempotency.go:90-124 | In any run, a call inside its lock that finds a record, and is not told that the resource is gone, answers with the recorded id and creates nothing. |
| `Records.CreatesAndRecords` | internal/idempotency/idempotency.go:90-124 | In any run, a call inside its lock that finds no record answers with the id it creates, which is then recorded for the ttl. |
| `PathText.RootIsAll` | internal/jsonpath/jsonpath.go:78-104 | `$` selects the document. |
| `PathText.IndexSelects` | internal/jsonpath/jsonpath.go:168-247 | Behind any accepted path `[i]` selects the i-th item of the list selected before, and nothing out of range or of anything else. |
| `PathText.NameSelects` | internal/jsonpath/jsonpath.go:168-262 | `.name` selects the value under the name of the map selected before, and nothing of anything else. |
| `PathText.QuotedSelects` | internal/jsonpath/jsonpath.go:364-387 | A name in quotes and brackets selects the same, whatever is in it but a bracket, a star, a filter or two dots. |
| `PathText.StarMatches` | internal/jsonpath/jsonpath.go:264-304 | Behind any path `.*` and `[*]` match all that its matches hold, in order, unless that is too much. |
| `PathText.StepMatches` | internal/jsonpath/jsonpath.go:218-233 | `[i]` and `.name` match in each of its matches what they select there. |
| `PathText.DescentMatches` | internal/jsonpath/jsonpath.go:177-215 | `..name` matches exactly what is under the name in something that a walk of at most a thousand levels finds from a match. |
| `PathText.DescentInOrder` | internal/jsonpath/jsonpath.go:177-215 | Behind two dots a name, an index or a star matches in document order, as often as it is met, all it asks for in what its matches hold at any of a thousand levels, unless that is too much. |
| `PathErrors.PathRefused` | internal/jsonpath/jsonpath.go:78-155 | Paths start with `$`; filters are refused by both evaluators, stars and descent by the definite one. |
| `PathErrors.NameNeeded` | internal/jsonpath/jsonpath.go:340-360 | A dot, or two, at the end of a path is refused. |
| `PathErrors.BracketNeedsClosing` | internal/jsonpath/jsonpath.go:364-387 | A bracket that is not closed is refused. |
| `PathErrors.StepsGoOn` | internal/jsonpath/jsonpath.go:307-336 | Anything but another step behind the root or a bracket is refused. |
| `PathErrors.BracketsHoldIndexes` | internal/jsonpath/jsonpath.go:364-387 | What is in brackets without quotes selects by the index it denotes, sign and zeros allowed, and is refused when it denotes none. |
| `EnumWalk.TruncationIsNamed` | internal/gcpenumgen/main.go:180-196 | The error of a walk names a message and the JSON path it was met at, on the way to an enum, with room for all messages before it and none for this one. |
| `EnumWalk.PathIsDotted` | internal/gcpenumgen/main.go:249-255 | A JSON path is the names of its fields with dots between them, and a star behind each map field. |
| `EnumWalk.EnumNamesExactly` | internal/gcpenumgen/main.go:235-247 | What is recorded of an enum is its name, and for exactly its numbers the first of their names. |
| `Persistence.WrittenIsCovered` | persist/idcounter.go:44-57 | An id below the cap that ends a run of hex digits in the data, written as eight of them, is covered by the floor. |
| `EventMeaning.MatchesExactly` | internal/eventmatch/eventmatch.go:34-202 | Every pattern that compares no collections matches exactly the events it accepts by a reading without any order: fields, alternatives, entries, elements of arrays, nested patterns, exists, anything-but and wildcards on JSON equality; it says no to all others. |
| `EventMeaning.AnythingButExcludes` | internal/eventmatch/eventmatch.go:270-285 | anything-but accepts a plain value exactly when it differs from the one ruled out, is not in the list ruled out, or may be refused by the operators ruled out. |
| `EventMeaning.ExistsAsks` | internal/eventmatch/eventmatch.go:192-202 | exists holds of a value that is there exactly when it asks for true, and of an absent one exactly when it does not. |
| `EventMeaning.NoneSameExactly` | internal/eventmatch/eventmatch.go:270-285 | A list without collections rules out exactly its members. |
| `IpAlloc.DottedIsBytes` | internal/ipalloc/ipalloc.go:51-55 | The text of an address is its four bytes in decimal, from the highest, with dots between them. |
| `IpAlloc.UsableExactly` | internal/ipalloc/ipalloc.go:77-98 | Usable are exactly the addresses behind the first four of a block and in front of its last. |

## Left out

- Parsing.Parse: the offsets and the wording of parse errors are left out; faults are named.
- Deadlines and cancellation: contexts are never done, so render slots, forced garbage collection and the visit counter of JSONPath do nothing.
- Floats: arithmetic, comparison and printing of doubles are parameters; a float literal keeps its text, and whether it is finite is decided exactly. The JSON round trip is about values without floats.
- String methods inside the evaluator: `Eval` and `Machine` take them, like host methods, as a parameter that may change the store; the regex loops, split and replace are modelled on their own. `substring`, `charAt`, `indexOf`, case mapping and trimming are not modelled.
- Host objects: properties and calls are deterministic parameters.
- In the evaluator lists and maps are cells of an explicit store addressed by values; sharing, cycles and update in place are kept, and `Collections` has the objects themselves. A decoded list or map enters the store once it is complete.
- Strings with templates in them are not printed, so expressions that hold them are outside `RoundTrip.ParseUndoesPrint` and `TemplateRoundTrip.TemplateReadBackExactly`; `Spellings.StringsHoldTemplates` reads one such string back. Trees no source denotes (numbers out of range, names that are no identifiers) are outside as well.
- TemplateRoundTrip.TemplateReadBackExactly: is about templates without a directive alone on its line, where what is read is not what was written; `WholeLines` says directive by directive what goes then.
- JsonRoundTrip.JsonRoundTrips: is about tokens, and about values whose numbers are integers; splitting text into tokens and quoting strings is library code, and a string is taken to survive it.
- Machines.Render: contexts and render slots are left out, string methods are a parameter, and other renders enter through what they hold of the memory pool at each reading of it; `Renders` models them as steps.
- Which regular expressions look back (`internal/vtl/string_methods.go:271-293`): that an expression without such an operator matches from the text after a position alone is assumed of the library (`ContextFree`).
- Template expansion in replacements (`$1` and the like) is a parameter of `StringMethods.RegexReplace`.
- IdCounter.LaterIdsAreNew: covers runs in which the counter does not reach its largest value; see above for what happens there.
- Persistence.NoIdIsReused: ids minted between a restart and the floors of a restore are not compared with the ids brought back, as restores are meant for freshly started processes; `RestoreMissing` hooks appear as mints of their own. Old snapshots whose texts do not show their ids, as with ids in encoded fields, are left out: `Persistence.LegacyCoversExactly` says which these are.
- Persistence.Process.RestoreAll: targets include those made on demand (`ensure`); services are brought back in any order; `RestoreMissing` hooks and services that fail to load, at which the source ends with the error, are left out.
- A service whose snapshot or restore fails, which ends an export or a restore with its error.
- What a service's snapshot contains beyond its ids and its text, writing files, and the Kubernetes part of a snapshot.
- What replay, create and idOf do in a create call is left to the surroundings, which choose each answer; `Scoped` is not modelled.
- The operators of event patterns on texts, numbers and addresses (`prefix`, `suffix`, `equals-ignore-case`, `numeric`, `cidr`) are a parameter; they compare no collections. Of parsing and validating patterns only the shape that is accepted is modelled.
- Parsing of addresses and blocks, IPv6 and ports and protocols in `features/topology`; access-control sorting.
- The enum walker's descriptors come as a graph of names; rendering the Go source is left out.
- Random ids and secrets, providers, HTTP servers, recorders, quotas, chaos and the other services: input and output, wiring, or small clear code.
