# Models and proofs for the inference engine

These Dafny modules model the parts of the engine whose correctness is a matter of logic rather
than of input and output, and prove what those parts promise.

* **CEL front end** (`Text`, `CelAst`, `CelLexer`, `CelBraces`, `CelParserLoops`, `CelPrinter`,
  `CelPrintedValues`, `CelPrintedCalls`, `CelPrintedOps`, `CelRoundTrip`, `CelForms`, `CelLiterals`,
  `CelStatementForms`, `CelPlanner`, `CelBounds`, `CelPanics`). The recursive-descent parser is written down once as functions from text to
  outcomes (a tree, an error, or a panic from an inverted slice) and once as the loops the parser
  runs; the loops are proved to return what the functions say. A printer of every statement and
  every operation is the parser's partner: parsing what it printed gives the tree back up to the
  nesting limit of 32, and the limit error beyond it. What the parser makes of text that no
  printer writes (bare commands, arguments without quotes, defaults, other spellings of operators
  and numbers) is stated text by text. The planner is proved to lose nothing, by a
  decompiler.
* **Streaming trigger filters** (`TriggerScan`, `RouterInterceptor`, `RouterSearch`,
  `RouterTriggers`, `RouterRuns`, `RouterRequests`, `RouterTools`, `RouterScripts`, `Continuation`,
  `AgenticLoop`, `Dispatcher`). Three machines look for `<TRIGGER:` in a stream
  that arrives in tokens, with a bounded amount of text kept back. Each is compared with a search
  of the whole text. All three rest on one argument about windows: text may be let go when no
  occurrence can start in it (`TriggerScan.WindowFind`).
* **Ternary dot product** (`Avx2`, `TernaryKernels`). The instructions are functions on lanes of
  bounded integers, with wrap-around and saturation; the two kernels are loops over arrays. Their
  lanes are related to one scalar sum.
* **Key-value cache file** (`KvCache`, `KvFormat`). Writer and reader of the nested, length-prefixed
  format, and where each byte of it stands.
* **Registry, settings, caches, locks and versions** (`Registry`, `SettingEdit`, `SettingDefaults`,
  `ManifestCache`, `CompileLocks`, `VersionMatch`).

Objects that the source updates in place are classes here, each with a function `State` or the
fields themselves as its value; the properties are proved about the functions that the methods
are tied to.

## Where the code does not do what its comments or names suggest

Each of these follows the code; the lemma that shows it is named.

* The dispatcher slices from the first open tag to the first close tag of its buffer. A close tag
  in the window in front of the open tag makes it panic or send an empty message. The exact
  condition is `Dispatcher.RequestCorrectIff`; `Dispatcher.TriggerLost` is an input.
* With dynamic triggers, an open tag can be shown to the user. The exact condition is
  `RouterTriggers.NoTagShownIff`: it never happens if and only if there are no dynamic triggers or
  the first one is part of the open tag. `RouterTriggers.TagIsShown` gives a token for every other
  list, and `RouterTriggers.TagShownIff` says when a single token shows the tag.
* The token that completes the open tag is not checked for a complete trigger: the interceptor
  passes on an empty message there and returns its answer (router.rs:866-869). A trigger that
  comes in one token is therefore only run by the fallback behind the stream, and only if it holds
  a `}`; `RouterSearch.InterceptorIsSearch`, `RouterRequests.EffectOfText`. Whether two cuttings of
  a text into tokens agree: `RouterSearch.CuttingsAgreeIff`, `RouterRequests.EffectsAgreeIff`.
* A closed trigger without `>` before its close tag makes the interceptor or the fallback panic:
  `RouterRequests.PanicInputs` gives inputs, `RouterRequests.PanicsOnTextIff` and
  `RouterRuns.AfterStreamPanicsIff` the conditions.
* With two triggers in a row, the cutting decides which tool runs: `RouterTools.TokensDecide`.
* A capture that is given back leaves text in the buffer, which is passed on twice:
  `RouterRequests.TextRepeated`. `RouterRuns.ConservationIff` is the exact condition.
* The kernels read 8 packed bytes for 32 weights, but only the first four of them are ever
  selected: `Avx2.UnpackedWeight`, `TernaryKernels.UpperBytesUnused`.
* The check and the insertion of a compilation lock are two steps. They are only safe with one
  requesting thread: `CompileLocks.LocksSoundIff`, `CompileLocks.RaceDoublesJob`.
* The agentic loop allows three iterations but never enters a third:
  `AgenticLoop.GenerateStream`.
* The CEL parser panics on some texts: `CelPanics.ClausePanics`, `CelPanics.ArgumentsPanic`,
  `CelPanics.ValuePanics`. `CelPanics.ParsePanicsIff` is the exact condition.
* The documented filter `status == "active"` compares with a text that starts with `=`:
  `CelStatementForms.DoubleEqualsText`. The documented call `invoke(fetch_users)` names no method and
  gets the method `default`: `CelForms.CallDefaults`.
* `else if (c) { .. }` is read as `else { .. }`, and text behind a block is dropped:
  `CelStatementForms.ElseIfIsElse`, `CelStatementForms.IfRestDropped`.
* A directive without parentheses gets its own name without the first character as argument:
  `CelForms.BareDirective`.
* An edit of a setting whose deletion of the cache file fails is not seen by later reads when it
  changes the parse: `ManifestCache.StaleRead`. The exact condition is
  `ManifestCache.RunReadIff` for runs, which `ManifestCache.EditReadIff` spells out for one edit.

## Model

| member | source | states |
|---|---|---|
| CelRoundTrip.RoundTrip | inference-cel/src/parser/lexer.rs:33-119 | for every printable tree, parsing the printed text gives exactly that tree when it nests at most 32 levels, and the depth error when it nests deeper |
| CelRoundTrip.ParsePrinted | inference-cel/src/parser/lexer.rs:37-119 | the same for a block at any depth: nested limits add up, and the first block beyond the limit fails the whole parse |
| CelRoundTrip.ParsePrintedStatement | inference-cel/src/parser/lexer.rs:52-115 | every printed statement (expression, let, if, if/else, foreach) is recognised as its own kind with its own parts |
| CelRoundTrip.PrintedPieces | inference-cel/src/parser/lexer.rs:121-141 | a printed block is split exactly at its own statements, however deeply the statements nest |
| CelPrintedOps.ParsePrintedPipeline | inference-cel/src/parser/lexer.rs:157-253 | a printed pipeline is cut at its own arrows, an engine directive is recognised as one, and every other segment gives its operation back |
| CelPrintedOps.ParsePrintedOp | inference-cel/src/parser/lexer.rs:202-253 | each printed operation of every kind is read back as the same operation, in spite of the order of the prefix tests |
| CelPrintedCalls.ParsePrintedDirective | inference-cel/src/parser/lexer.rs:161-200 | each of the four kinds of printed engine directive is read back with its name and argument |
| CelPrintedCalls.ParsePrintedInvoke | inference-cel/src/parser/lexer.rs:216-223 | the method and the payload of a printed action are read back, and a payload is found only when one was printed |
| CelPrintedCalls.ParsePrintedSimilar | inference-cel/src/parser/lexer.rs:238-242 | every printed vector of literals, the empty one too, and the metric behind it are read back |
| CelPrintedCalls.ParsePrintedProcess | inference-cel/src/parser/lexer.rs:209-215 | exactly the printed quotes are taken off the text of a process call |
| CelPrintedCalls.ParsePrintedCommand | inference-cel/src/parser/lexer.rs:334-371 | action, optional target and all arguments of a printed command are read back |
| CelPrintedOps.FindUser | inference-cel/src/parser/ast.rs:79 | the operation of the documented command `find User(age: >18)` is printable, so that the round trip covers it |
| CelPrintedCalls.ReadArgs | inference-cel/src/parser/lexer.rs:350-362 | in whatever order the arguments of a map were printed, reading them adds exactly that map |
| CelPrintedCalls.NamedAt | inference-cel/src/parser/lexer.rs:307-319 | a quoted argument is read up to its closing quote, whatever follows |
| CelPrintedValues.ParsePrintedCondition | inference-cel/src/parser/lexer.rs:284-305 | a printed condition is split at its own operator although shorter operators are part of longer ones |
| CelPrintedValues.PrintedOperator | inference-cel/src/parser/lexer.rs:284-305 | the first operator of the list that occurs in a printed condition is the one that was printed |
| CelPrintedValues.ParsePrintedValue | inference-cel/src/parser/lexer.rs:255-267 | every printed literal, variable, parameter and null is read back as the same value |
| CelBraces.SplitIsTheCut | inference-cel/src/parser/lexer.rs:121-141 | a list of pieces is what splitting yields if and only if it rejoins with `;` to the text and is cut exactly at the `;` of brace balance 0; only a blank tail is dropped |
| CelBraces.FindClosingBraceIsFirst | inference-cel/src/parser/lexer.rs:143-155 | from an open brace the result is the first index at which the balance returns to 0, and an error if and only if there is none |
| CelBraces.SplitStatementsLoop | inference-cel/src/parser/lexer.rs:121-141 | the character loop with its current piece and brace depth returns the split of the text |
| CelBraces.FindClosingBraceLoop | inference-cel/src/parser/lexer.rs:143-155 | the loop with its depth counter returns the closing brace of the text or the error |
| CelLexer.ValidatePluginName | inference-cel/src/parser/lexer.rs:10-29 | accepts exactly the names of 1 to 128 letters, digits, `-` and `_` |
| CelLexer.ParseValue | inference-cel/src/parser/lexer.rs:255-267 | never an error; panics exactly on a single quotation mark |
| CelLexer.OperatorIn | inference-cel/src/parser/lexer.rs:284-305 | the operator chosen occurs in the condition and none before it in the list does |
| CelForms.ConditionMeans | inference-cel/src/parser/lexer.rs:284-305 | for every field, value text and each of the eight operators written out: which comparison a condition is, on which field and value; a text without an operator is refused |
| CelForms.FirstCondition | inference-cel/src/parser/lexer.rs:269-282 | of several conditions the first one that is not blank becomes the operation, and each of the others only has to parse; the first failure is the result |
| CelForms.BareCommand | inference-cel/src/parser/lexer.rs:334-371 | a command without parentheses has all the rest as its target and no arguments |
| CelForms.OpenCommand | inference-cel/src/parser/lexer.rs:342-365 | an opening parenthesis without a closing one ends the target and gives no arguments |
| CelForms.InvokePlain | inference-cel/src/parser/lexer.rs:307-319 | a method and a payload without quotes are read up to the next comma |
| CelForms.WindowPlain | inference-cel/src/parser/lexer.rs:234-237 | the same for the size of a window |
| CelForms.MetricPlain | inference-cel/src/parser/lexer.rs:238-242 | the same for a metric, behind any bracketed parts |
| CelForms.LiteralsKept | inference-cel/src/parser/lexer.rs:321-332 | of the parts of a vector exactly the number literals are kept, in order |
| CelForms.CallDefaults | inference-cel/src/parser/lexer.rs:216-242 | a call that does not name its argument has the method `default`, the window `1h`, the metric `cosine` and an empty vector |
| CelForms.UnclosedCalls | inference-cel/src/parser/lexer.rs:209-242 | a call without a final `)` counts as one with nothing between its parentheses |
| CelForms.ProcessQuotes | inference-cel/src/parser/lexer.rs:209-215 | a process text loses single quotes, double quotes or none |
| CelForms.BareDirective | inference-cel/src/parser/lexer.rs:161-188 | a directive without parentheses takes its name without the first character as argument |
| CelForms.InvertedDirective | inference-cel/src/parser/lexer.rs:161-170 | a directive whose parentheses are inverted has an empty argument |
| CelLiterals.LiteralIffForm | inference-cel/src/parser/lexer.rs:265-266 | the number literals are exactly those of the grammar: a sign, digits on one side of an optional point, an optional exponent, or one of three words in any case |
| CelLiterals.ValueMeans | inference-cel/src/parser/lexer.rs:255-267 | which value each text is, the quoted, the special and the bare ones |
| CelStatementForms.BareCommandText | inference-cel/src/parser/lexer.rs:33-119 | the whole text `find User`, and every text of its form, parses to that one command |
| CelStatementForms.DoubleEqualsText | inference-cel/src/parser/lexer.rs:284-305 | a filter with `==` compares for equality with a text that starts with `=` |
| CelStatementForms.ElseIfIsElse | inference-cel/src/parser/lexer.rs:76-83 | whatever stands between `else` and its block, or behind the block, does not change the parse |
| CelStatementForms.IfRestDropped | inference-cel/src/parser/lexer.rs:71-90 | text behind the block of an `if` that does not start with `else` does not change the parse |
| CelStatementForms.ForeachRestDropped | inference-cel/src/parser/lexer.rs:91-110 | text behind the block of a `foreach` does not change the parse |
| CelStatementForms.MissingPart | inference-cel/src/parser/lexer.rs:58-103 | the error names the first part that a let, if or foreach statement misses |
| CelStatementForms.BlankText | inference-cel/src/parser/lexer.rs:33-40 | blank text is refused as empty |
| CelPanics.ParenArgsPanicIff | inference-cel/src/parser/lexer.rs:344-362 | the arguments of a command panic if and only if the last `)` stands in front of the first `(` or a value is a lone quotation mark |
| CelPanics.ParsePanicsIff | inference-cel/src/parser/lexer.rs:33-119 | parsing a text panics if and only if the guards of its first failing statement panic |
| CelPanics.ParseFaults | inference-cel/src/parser/lexer.rs:33-119 | whether a text parses, is refused or panics follows from the guards of the branches and slices alone |
| CelPanics.StatementFaults | inference-cel/src/parser/lexer.rs:52-115 | the same for expression, let, if and foreach, in the order in which they can fail |
| CelPanics.PipelinePanicsIff | inference-cel/src/parser/lexer.rs:157-253 | a pipeline panics if and only if it is a directive that reads a lone quotation mark or its first segment that fails panics |
| CelPanics.SegmentPanicsIff | inference-cel/src/parser/lexer.rs:203-253 | a segment panics if and only if it is a filter whose first failing condition has a lone quotation mark as its value, or a command with inverted parentheses or a lone quotation mark as an argument |
| CelPanics.NamedIsNoQuote | inference-cel/src/parser/lexer.rs:307-319 | a named argument is never a lone quotation mark, so that no call panics |
| CelPanics.ClausePanics | inference-cel/src/parser/lexer.rs:65-70 | a text that panics in a condition |
| CelPanics.ArgumentsPanic | inference-cel/src/parser/lexer.rs:344-351 | a text that panics in the parentheses of a command |
| CelPanics.ValuePanics | inference-cel/src/parser/lexer.rs:255-260 | a text that panics in a value |
| CelBounds.ParseBounded | inference-cel/src/parser/lexer.rs:37-119 | every tree that any text parses to nests at most 32 levels and imports only checked plugin names |
| CelBounds.ParseCelSound | inference-cel/src/parser/mod.rs:7-10 | every plan made from text is well formed at every depth, is the plan of the parsed tree, and loads only checked names; planning succeeds exactly when the parsed tree has no empty block or pipeline |
| CelBounds.LoadsAreImports | inference-cel/src/parser/planner.rs:130-256 | the plugins a plan loads anywhere are exactly the ones the decompiled tree imports |
| CelBounds.Reformat | inference-cel/src/parser/lexer.rs:33-119 | for text that parses to a printable tree, printing and parsing again changes nothing |
| CelBounds.PipelineChecked | inference-cel/src/parser/lexer.rs:157-208 | every import in a pipeline parsed from any text has a checked name |
| CelPlanner.BuildFaithful | inference-cel/src/parser/planner.rs:130-172 | planning succeeds if and only if no block and no pipeline at any depth is empty; the plan decompiles to the tree it was made from, and the fast-path flag marks exactly the pipelines with a fast process |
| CelPlanner.DecompileFaithful | inference-cel/src/parser/planner.rs:130-256 | a plan is the plan of the tree it decompiles to if and only if it is well formed |
| CelPlanner.PipelineFaithful | inference-cel/src/parser/planner.rs:174-256 | no operation of a pipeline is lost, reordered or changed, and the flag is right |
| CelPlanner.BuildPlanLoop | inference-cel/src/parser/planner.rs:130-172 | the loop that pushes blocks, with its recursion into nested blocks, returns the plan or the first error |
| CelPlanner.BuildPipelineLoop | inference-cel/src/parser/planner.rs:174-256 | the loop that pushes steps and sets the flag returns the pipeline's plan or the empty error |
| CelParserLoops.ParseInnerLoop | inference-cel/src/parser/lexer.rs:37-119 | the statement loop with its early returns gives the parse of the block, for every text and depth |
| CelParserLoops.ParseIfStep | inference-cel/src/parser/lexer.rs:65-90 | the if and else branch with its order of errors |
| CelParserLoops.ParseForeachStep | inference-cel/src/parser/lexer.rs:91-112 | the foreach branch with its order of errors |
| CelParserLoops.ParsePipelineLoop | inference-cel/src/parser/lexer.rs:157-253 | directive detection first, then the segments in order up to the first error |
| CelParserLoops.ParseSegmentsLoop | inference-cel/src/parser/lexer.rs:202-253 | the loop that pushes operations, skipping empty segments |
| CelParserLoops.ParseFiltersLoop | inference-cel/src/parser/lexer.rs:269-282 | the loop over comma-separated conditions, skipping blank ones |
| CelParserLoops.ParseSingleFilterLoop | inference-cel/src/parser/lexer.rs:284-305 | the search through the operator list with its early return |
| CelParserLoops.ParseGenericCommandLoop | inference-cel/src/parser/lexer.rs:334-371 | action, target and arguments of a generic command |
| CelParserLoops.CommandArgsLoop | inference-cel/src/parser/lexer.rs:350-362 | the argument loop: later arguments replace earlier ones of the same key |
| TriggerScan.WindowFind | Inference-engine/engines/src/api/router.rs:788-872 | with safely released text, searching the kept text and the new token finds exactly what searching everything finds |
| TriggerScan.TokensBeforeIs | interface-engines/dispatcher/src/lib.rs:239-257 | the number of tokens before a tag is complete is the one cut with no tag in front and one after the next token |
| RouterInterceptor.Conservation | Inference-engine/engines/src/api/router.rs:788-872 | for any triggers, tokens and answers of the caller, up to the first completed capture the text passed on followed by the text held equals the text received |
| RouterInterceptor.TakeConserves | Inference-engine/engines/src/api/router.rs:794-871 | one token is neither lost nor duplicated on any path through the callback |
| RouterSearch.InterceptorIsSearch | Inference-engine/engines/src/api/router.rs:788-880 | without dynamic triggers, what is shown, held and captured is a function of the text: the longest suffix that could start a tag is held, capture starts at the first tag and completes exactly when a close tag follows and a token has come in behind the one that completed the open tag |
| RouterSearch.CuttingsAgreeIff | Inference-engine/engines/src/api/router.rs:788-880 | two cuttings of the same text give the same view if and only if it has no closed trigger, or a token comes in behind the open tag in both or in neither |
| RouterSearch.ShownIndependent | Inference-engine/engines/src/api/router.rs:788-872 | in every case they show the same text and capture from the same place |
| RouterSearch.RunTracks | Inference-engine/engines/src/api/router.rs:788-872 | the invariant behind it, for every run: sent text plus held text is the text read, nothing released could start a tag, and a capture is checked on every token but its first |
| RouterTools.RequestOfKind | Inference-engine/engines/src/api/router.rs:886-908 | for a header with colons: the first part is the kind and the second the name of the tool, what stands behind a further colon is dropped, and the payload is that of the body |
| RouterTools.RequestOf | Inference-engine/engines/src/api/router.rs:886-908 | a header without a colon names an extension |
| RouterTools.PayloadMeans | Inference-engine/engines/src/api/router.rs:893-899 | the payload is the body without the white space around it, with exactly one closing brace instead of any number |
| RouterTools.WrittenToolRuns | Inference-engine/engines/src/api/router.rs:788-969 | for every text with one written trigger and every cutting: the stream and the fallback run the tool that the header names with the payload of the body, if a token comes in behind the open tag or a `}` stands behind it, and otherwise nothing |
| RouterTools.ShownBeforeTool | Inference-engine/engines/src/api/router.rs:788-969 | what the caller is shown of such a stream is exactly the text in front of the open tag |
| RouterTools.TokensDecide | Inference-engine/engines/src/api/router.rs:882-908 | two triggers in a row: the stream runs the tool of the first or of the second one, depending on where the text is cut |
| RouterRequests.PanicsOnTextIff | Inference-engine/engines/src/api/router.rs:884-901 | for texts whose first trigger is closed and followed by no open tag: the stream panics if and only if no `>` stands between the last open tag and the close tag and a token comes in behind the open tag; the whole request, also if the text holds a `}` |
| RouterRequests.EffectOfText | Inference-engine/engines/src/api/router.rs:866-969 | for such texts, stream and fallback together: they run the tool, or panic, as the text from the first open tag says, if a token comes in behind the open tag or the text holds a `}`, and otherwise do nothing |
| RouterRequests.EffectsAgreeIff | Inference-engine/engines/src/api/router.rs:866-969 | two cuttings of such a text have the same effect if and only if both act or neither does |
| RouterRequests.PanicsInStream | Inference-engine/engines/src/api/router.rs:884-901 | a family of token pairs that make the interceptor panic |
| RouterRequests.PanicsBehindStream | Inference-engine/engines/src/api/router.rs:937-951 | as one token they make the fallback panic if and only if they hold a `}` |
| RouterRequests.PanicInputs | Inference-engine/engines/src/api/router.rs:884-951 | one input of each kind |
| RouterRuns.AfterStreamPanicsIff | Inference-engine/engines/src/api/router.rs:937-969 | for any triggers, tokens and answers: the fallback panics behind a stream that did not if and only if the last token received began the capture, and this holds a `}` and a close tag without a `>` between its last open tag and that close tag |
| RouterRuns.OutcomePanicsIff | Inference-engine/engines/src/api/router.rs:788-969 | stream and fallback together, for every stream |
| RouterRequests.UnclosedGoesOn | Inference-engine/engines/src/api/router.rs:866-882 | a text whose first trigger is not closed never makes the interceptor panic or stop |
| RouterRuns.ConservationIff | Inference-engine/engines/src/api/router.rs:788-932 | over whole streams, for any triggers, tokens and answers and beyond any number of captures: what was passed on and is held is the text received if and only if no token gave back a capture behind whose first token more text had come in |
| RouterRuns.PassesOnFed | Inference-engine/engines/src/api/router.rs:788-932 | in every case it is the text received with each left-over buffer inserted once more |
| RouterRequests.TextRepeated | Inference-engine/engines/src/api/router.rs:866-927 | three tokens whose text is passed on twice, with the empty messages at which captures begin |
| RouterTriggers.NoTagShownIff | Inference-engine/engines/src/api/router.rs:797-871 | the exact condition: over all tokens and answers no open tag is passed on up to the first completed capture, if and only if there are no dynamic triggers or the first one is part of the open tag |
| RouterTriggers.FirstTriggerKeptOut | Inference-engine/engines/src/api/router.rs:797-871 | for any triggers, tokens and answers, the trigger that is looked for first is never passed on, not even across tokens |
| RouterTriggers.TagShownIff | Inference-engine/engines/src/api/router.rs:797-871 | for a token that brings in an open tag: what is passed on is the buffer up to a cut, and it shows the tag if and only if the cut lies behind the tag |
| RouterTriggers.TagIsShown | Inference-engine/engines/src/api/router.rs:797-816 | for every other first trigger a token that shows the tag |
| RouterScripts.FrontIs | Inference-engine/engines/src/api/router.rs:802-804 | the fixed front of a dynamic trigger is its text up to the first `->` or `{`, trimmed |
| RouterScripts.FirstOfList | Inference-engine/engines/src/api/router.rs:800-809 | the first trigger of the list whose front occurs decides, also behind ones that do not occur |
| RouterScripts.ScriptRuns | Inference-engine/engines/src/api/router.rs:788-922 | with one dynamic trigger and text without `<`, for every cutting: the script that is run starts at the first front of the trigger and ends with the first token that makes it whole (a pair of braces, or without one a line end or `>`); what stands in front is shown, and nothing else |
| RouterScripts.NoScriptRuns | Inference-engine/engines/src/api/router.rs:788-922 | as long as no such token comes in, nothing is run |
| RouterScripts.RefusalStops | Inference-engine/engines/src/api/router.rs:866-871 | text without `<` is passed on token by token, and the first token that the caller refuses is the last one |
| Continuation.TailRefused | Inference-engine/engines/src/api/router.rs:762-764 | a caller that refuses a token of the final answer in front of an open tag is given that token and no further one |
| Continuation.NoTriggerAfterTool | Inference-engine/engines/src/api/router.rs:747-768 | after a tool, the text passed on never contains an open tag, not even across tokens: the trim from over 30 to 20 characters cannot hide one |
| Continuation.TailIsSearch | Inference-engine/engines/src/api/router.rs:747-768 | with an accepting caller, exactly the tokens in front of the one that completes the first open tag are passed on |
| Continuation.TailInvariant | Inference-engine/engines/src/api/router.rs:751-764 | the accumulator is a suffix of the text read that still covers every possible start of a tag |
| Continuation.KeptLength | Inference-engine/engines/src/api/router.rs:757-761 | the accumulator keeps everything up to 30 characters and from then on 20 to 30 |
| Continuation.TailStream.OnToken | Inference-engine/engines/src/api/router.rs:751-764 | the continuation closure, as an update of its accumulator |
| RouterRuns.RunIsIntercept | Inference-engine/engines/src/api/router.rs:788-932 | until the first capture completes, the whole callback does what the run of the interceptor says |
| AgenticLoop.AgenticSafety | Inference-engine/engines/src/api/router.rs:735-1079 | every request calls the backend at most twice, runs at most one tool request, calls it twice exactly when one was run, and passes on no open tag afterwards |
| AgenticLoop.PanicsIff | Inference-engine/engines/src/api/router.rs:735-1079 | a request panics if and only if its first stream does, or that stream ends without an error on a token that begins a capture with a broken trigger |
| AgenticLoop.AnswerAfterTool | Inference-engine/engines/src/api/router.rs:735-768 | when the first stream runs a tool, exactly that tool is run, the backend is called twice, and an accepting caller receives exactly the tokens of the second generation in front of the one that completes an open tag |
| AgenticLoop.AnswerRefused | Inference-engine/engines/src/api/router.rs:751-766 | a caller that refuses one of these tokens receives the answer up to that token |
| AgenticLoop.WrittenRequest | Inference-engine/engines/src/api/router.rs:735-1079 | from text to text: a first generation with one written trigger, in any tokens of which one comes in behind the open tag, shows the text in front of the trigger, runs the named tool with its payload, and then passes the second generation on up to an open tag |
| AgenticLoop.GenerateStream | Inference-engine/engines/src/api/router.rs:735-1079 | the loop with its iteration budget and continuation flag returns the answer of that one intercepted and at most one final stream |
| AgenticLoop.TokenInterceptor.OnToken | Inference-engine/engines/src/api/router.rs:788-932 | the interceptor closure on its mutable state: the whole new state, the answer, and when it panics |
| AgenticLoop.TokenInterceptor.FindTrigger | Inference-engine/engines/src/api/router.rs:798-808 | the first dynamic trigger in list order that is in the buffer |
| AgenticLoop.TokenInterceptor.FindPartialTrigger | Inference-engine/engines/src/api/router.rs:820-834 | the place at which the first dynamic trigger in list order could be starting |
| AgenticLoop.TokenInterceptor.CheckComplete | Inference-engine/engines/src/api/router.rs:874-929 | a completed capture stops with its tool, or is given back and collection starts over with the buffer left stale |
| AgenticLoop.TokenInterceptor.CheckUnclosed | Inference-engine/engines/src/api/router.rs:937-969 | an unclosed capture with a `}` requests its tool when the stream has ended |
| AgenticLoop.TokenInterceptor.Stream | Inference-engine/engines/src/api/router.rs:788-935 | a stream of tokens up to the first answer that ends it |
| Dispatcher.RequestIsSearch | interface-engines/dispatcher/src/lib.rs:223-322 | for every cutting of a text into tokens the client gets the tokens before the first open tag and then one message, from the first open tag through the close tag or to the end of the text |
| Dispatcher.RequestCorrectIff | interface-engines/dispatcher/src/lib.rs:239-250 | a request with a trigger is answered like that if and only if no close tag stands in the part of the window in front of the open tag |
| Dispatcher.CloseInFront | interface-engines/dispatcher/src/lib.rs:243-249 | otherwise the message that should be the trigger is empty, if the first close tag of that part stands right in front of the open tag, and else it panics |
| Dispatcher.TriggerLost | interface-engines/dispatcher/src/lib.rs:243-245 | a request that loses its trigger |
| Dispatcher.ForwardsAll | interface-engines/dispatcher/src/lib.rs:251-260 | text without an open tag is forwarded token by token, and the buffer is its last 100 characters |
| Dispatcher.Catches | interface-engines/dispatcher/src/lib.rs:239-250 | from the token that completes the first open tag on nothing is forwarded until the one message |
| Dispatcher.NothingLeftToClose | interface-engines/dispatcher/src/lib.rs:303-312 | when generation ends the buffer never holds both tags, so that the final check only ever sends an unclosed trigger |
| Dispatcher.LaterAnswersIgnored | interface-engines/dispatcher/src/lib.rs:231-264 | a channel that takes every token in front of the first open tag gives the same request as one that takes everything |
| Dispatcher.RefusalEnds | interface-engines/dispatcher/src/lib.rs:259-263 | the first refused token in front of an open tag is the last thing the client is sent, not even a trigger follows |
| Dispatcher.CallbackData.Callback | interface-engines/dispatcher/src/lib.rs:223-264 | the callback on its buffer, flag and channel: the whole new state, the answer, and when it panics |
| Dispatcher.CallbackData.FinalCheck | interface-engines/dispatcher/src/lib.rs:303-322 | the final look at the buffer, unless the stream was cancelled |
| Avx2.UnpackedWeight | interface-engines/llama/src/asm_kernels.rs:43-54 | both unpacks give element `e` of a block the 2-bit field `e % 4` of packed byte `e % 16 / 4` |
| Avx2.Shift16Field | interface-engines/llama/src/asm_kernels.rs:47-50 | shifting 16-bit lanes under the mask picks the same field of each byte as shifting the bytes |
| Avx2.Shift32Field | interface-engines/llama/src/asm_kernels.rs:95-98 | the same for 32-bit lanes |
| TernaryKernels.MaddubsBlocks | interface-engines/llama/src/asm_kernels.rs:34-60 | after the loop each accumulator lane is its lane's sum of selected weights times activations over all blocks, modulo 2^32 |
| TernaryKernels.BitNet32Blocks | interface-engines/llama/src/asm_kernels.rs:82-126 | the same for the loop with 32-bit shifts and widened halves |
| TernaryKernels.MaddubsDotProduct | interface-engines/llama/src/asm_kernels.rs:23-63 | for every count: the status, and eight output lanes that hold the lane sums of the selected products (modulo 2^32), nothing else written |
| TernaryKernels.BitNet32DotProduct | interface-engines/llama/src/asm_kernels.rs:71-129 | the same for the 32-bit kernel with its own assignment of elements to lanes |
| TernaryKernels.DispatchDotProduct | interface-engines/llama/src/asm_kernels.rs:137-151 | the container format selects the kernel, and its result is the one of that kernel |
| TernaryKernels.KernelsAgree | interface-engines/llama/src/asm_kernels.rs:34-128 | for up to 1398101 blocks the output lanes of both kernels sum to the same integer, the scalar dot product of selected weights and activations |
| TernaryKernels.LanesAreDot | interface-engines/llama/src/asm_kernels.rs:56-128 | the eight lanes of either kernel cover every element exactly once |
| TernaryKernels.ExactIff | interface-engines/llama/src/asm_kernels.rs:38-125 | the lanes are exact for all operands if and only if there are at most 1398101 blocks |
| TernaryKernels.MaddubsLane | interface-engines/llama/src/asm_kernels.rs:56-58 | no 16-bit pair saturates: a lane of a block is the exact sum of its four products |
| TernaryKernels.LaneRange | interface-engines/llama/src/asm_kernels.rs:59-125 | after `b` blocks every lane lies within -1536 b and 1524 b |
| TernaryKernels.UpperBytesUnused | interface-engines/llama/src/asm_kernels.rs:43-54 | bytes 4 to 7 of each group of eight never influence a result |
| KvCache.LoadDumpIff | interface-engines/onnx/src/chat.rs:161-226 | loading a dump followed by any bytes restores the cache and consumes exactly the dump, if and only if the counts fit their 32-bit fields |
| KvCache.DumpLoad | interface-engines/onnx/src/chat.rs:161-226 | dumping whatever was loaded from any file gives the consumed bytes back |
| KvCache.TruncatedIsEof | interface-engines/onnx/src/chat.rs:191-226 | every proper prefix of a dump is refused as too short |
| KvCache.LoadGrows | interface-engines/onnx/src/chat.rs:191-226 | a result other than the end of the file does not depend on the bytes behind what was read |
| KvFormat.LowestFirst | interface-engines/onnx/src/chat.rs:167-185 | numbers of four and eight bytes are written with their lowest byte first |
| KvFormat.TensorLayout | interface-engines/onnx/src/chat.rs:172-185 | the offset of the rank, of every dimension, of the length and of every float of a tensor |
| KvFormat.FileLayout | interface-engines/onnx/src/chat.rs:165-186 | the tensors of a file stand one behind the other after their number |
| KvFormat.HugeLength | interface-engines/onnx/src/chat.rs:212-217 | a file that announces 2^61 floats panics for its capacity, one that announces 2^62 overflows, and a shorter one without the bytes is too short |
| KvCache.KvEngine.DumpKvCache | interface-engines/onnx/src/chat.rs:161-189 | the nested write loops produce the dump of the cache in memory |
| KvCache.KvEngine.LoadKvCache | interface-engines/onnx/src/chat.rs:191-226 | the nested read loops load the file completely, or leave the previous cache in place when the file is too short or a capacity panics; a buffer size that overflows is reported as such |
| Registry.LoadIndex | inference-cel/src/execution/registry_index.rs:131-180 | in whatever order the maps are drained, the four lists hold each entry as often as the registry does: enabled ones in the list of their strategy, the others in the disabled list |
| Registry.Drain | inference-cel/src/execution/registry_index.rs:134-145 | draining a component map adds each of its entries once, with its name |
| Registry.Partition | inference-cel/src/execution/registry_index.rs:147-180 | the four lists together are all entries |
| Registry.Boot | inference-cel/src/execution/activation_bus.rs:72-94 | after boot every event has each name as often as the enabled lazy entries under that name in the three maps of the registry list it, and no list is empty |
| Registry.BootOrderIrrelevant | inference-cel/src/execution/activation_bus.rs:72-94 | the order in which the maps were drained does not change, as a multiset, what an event fires |
| Registry.ListingsCount | inference-cel/src/execution/activation_bus.rs:72-94 | an event fires a name as often as the lazy entries of that name list the event |
| Registry.FiresListed | inference-cel/src/execution/activation_bus.rs:72-94 | the same for any drain order, as a statement about the registry file and one event |
| Registry.FiringKeys | inference-cel/src/execution/activation_bus.rs:37-43 | the keys that fire are `on_startup` and every text behind one of the four prefixes |
| Registry.ActivationEventBus.RegisterFromRegistry | inference-cel/src/execution/activation_bus.rs:72-94 | the nested loops append one name per listing to each event and change nothing else |
| Registry.ActivationEventBus.RegisterOne | inference-cel/src/execution/activation_bus.rs:96-106 | appends the name to its event and leaves every other event as it was |
| Registry.ActivationEventBus.Fire | inference-cel/src/execution/activation_bus.rs:114-141 | a valid key returns its names in order, an invalid or unknown one nothing |
| Registry.ActivationEventBus.DeregisterName | inference-cel/src/execution/activation_bus.rs:145-164 | every list loses the name and keeps the others in order, and no empty list stays |
| Registry.ActivationEventBus.Perform | inference-cel/src/execution/activation_bus.rs:96-164 | over every run of registrations and removals the bus is the model of sequences per event, without empty lists |
| Registry.WithoutCounts | inference-cel/src/execution/activation_bus.rs:145-158 | removal drops every occurrence of the name and keeps every other name as often as it was |
| Registry.WithoutCommutes | inference-cel/src/execution/activation_bus.rs:145-158 | two removals may be swapped |
| Registry.RegisterThenDeregister | inference-cel/src/execution/activation_bus.rs:96-164 | removing a name that was just added to lists without it restores every list |
| SettingEdit.EditIsLocal | cmd/src/cli/config_cmd.rs:200-285 | an edit changes at most one line, which lies in a settings block and belongs to the key, and gives its default the new value |
| SettingDefaults.EditExactly | cmd/src/cli/config_cmd.rs:200-285 | which line is rewritten, and how: the first one that holds a default of the key, on the line of the key or in its entry; every other line stays |
| SettingDefaults.InlineEntry | cmd/src/cli/config_cmd.rs:243-250 | the first key of a settings block with a default on its line has that line rewritten in place and no other |
| SettingDefaults.BlockEntry | cmd/src/cli/config_cmd.rs:251-279 | below a key without one, the first deeper `default:` line is written anew with its own indentation and no other line changes |
| SettingDefaults.QuotedDefault | cmd/src/cli/config_cmd.rs:290-326 | a quoted inline value becomes the new value in quotes, and every other character stays |
| SettingDefaults.UnclosedDefault | cmd/src/cli/config_cmd.rs:304-307 | an unclosed quotation mark makes the rest of the line the old value |
| SettingDefaults.PlainDefault | cmd/src/cli/config_cmd.rs:308-325 | a value without quotes is replaced up to the first `,` or `}` or the end of the line; the new one is quoted exactly when it is empty or holds a separator, a blank or a colon |
| SettingDefaults.QuotedSetting | cmd/src/cli/config_cmd.rs:200-326 | from manifest to manifest: the whole file after an edit of a quoted inline default |
| SettingDefaults.PlainSetting | cmd/src/cli/config_cmd.rs:200-326 | the same for a value without quotes |
| SettingEdit.EditIsIdempotent | cmd/src/cli/config_cmd.rs:200-326 | for keys not ending in `default` and values without quotes, newlines or tabs, a second identical edit changes nothing |
| SettingEdit.InlineTwice | cmd/src/cli/config_cmd.rs:290-326 | replacing an inline default keeps the text up to `default:` and repeating it changes nothing |
| SettingEdit.ReplaceTwice | cmd/src/cli/config_cmd.rs:300-325 | the extent of the replaced value is recognised again, quoted or not |
| SettingEdit.UpdateSettingDefault | cmd/src/cli/config_cmd.rs:200-285 | the line loop with its flags returns one line per input line, the edited text |
| ManifestCache.ReadsAreFresh | inference-cel/src/parser/metadata_parser.rs:181-255 | over every run of reads and edits whose deletions work, every read returns what a fresh parse of the current text would |
| ManifestCache.RunReadIff | inference-cel/src/parser/metadata_parser.rs:181-255 | over every run of reads, edits and rewrites in which writes and deletions may fail: the next read is fresh if and only if no readable cache is left or the text still parses to what it parsed to when the cache was filled |
| ManifestCache.StaleRead | cmd/src/cli/config_cmd.rs:178-182 | after a failed deletion a read returns the old parse |
| ManifestCache.ManifestStore.ReadManifest | inference-cel/src/parser/metadata_parser.rs:181-255 | fast path, slow path and cache write: result and new files |
| ManifestCache.ManifestStore.SaveSetting | cmd/src/cli/config_cmd.rs:173-182 | rewrites the text and deletes the cache: new files |
| CompileLocks.LocksSoundIff | Inference-engine/engines/src/api/router.rs:465-509 | in every reachable state the locks are exactly the busy paths and no path is compiled twice, if and only if at most one thread makes requests |
| CompileLocks.RunIsSound | Inference-engine/engines/src/api/router.rs:128-141 | the invariant for one requesting thread over every interleaving of checks, claims, launches (blocking or not) and ends of jobs |
| CompileLocks.RaceDoublesJob | Inference-engine/engines/src/api/router.rs:465-492 | a run of two requesting threads that compiles the same path twice |
| CompileLocks.BlockedUntilFinish | Inference-engine/engines/src/api/router.rs:502-509 | after a launch in place the thread does nothing else until a job for the path ends, over every interleaving; after a launch in the background it is free at once |
| CompileLocks.NothingLeftLocked | Inference-engine/engines/src/api/router.rs:582-592 | when the thread is idle and no job is left, no lock is held |
| VersionMatch.RequirementMeans | inference-drivers/src/resolution/resolver.rs:83-105 | what each of the five forms of a requirement means in the order of the parsed numbers, for every bound that does not itself start like an operator |
| VersionMatch.ExactlyOneMatches | inference-drivers/src/resolution/resolver.rs:83-105 | exactly one of below, equal and above matches, and at least is the negation of below |
| VersionMatch.UpwardClosed | inference-drivers/src/resolution/resolver.rs:83-105 | a version at least as great as one that satisfies a lower bound satisfies it, for every bound |
| VersionMatch.PartsOfPrinted | inference-drivers/src/resolution/resolver.rs:107-113 | from the decimal form of any list of numbers with points, exactly the numbers that fit 64 bits are recovered |
| VersionMatch.LessMeans | inference-drivers/src/resolution/resolver.rs:83-105 | one list of numbers is below another exactly when it is a proper prefix of it or has the smaller number where they first differ |
| VersionMatch.Trichotomy | inference-drivers/src/resolution/resolver.rs:83-105 | the order of the parsed numbers is total |

## Left out

- Characters: text is ASCII; white space, letters and digits are the ones of that range, and slices never fall inside a character.
- Floating-point values: a number in CEL text keeps its literal; rounding to 64 or 32 bits is not modelled. The accepted literals are the ones of the float parser. Cache floats are four bytes.
- The brace depth is unbounded; the overflow of a 32-bit depth after two thousand million braces is not modelled.
- The wording of error messages; errors are told apart by kind.
- CelRoundTrip.RoundTrip: the printer writes every kind of operation, but not every text. Braces and `;` are structure to the parser even inside quotes, so they cannot stand in a name, condition or argument, nor can `->` (a `>` that follows no `-` can); fields and values must not contain an operator that is searched for earlier. A chain must not start with the bare word `engine`, a statement not with the words `let`, `if` or `foreach`. Vectors as values and a system call with several arguments have no text that parses to them.
- AgenticLoop.AgenticSafety: counts tool requests. A request for a dynamic script may run several plan steps, which are opaque here, as are all tools and their results.
- The prompts of the agentic loop, the notices' wording and the tool results passed to the caller.
- Skill matching, embeddings, telemetry and context estimates: dynamic triggers are an input, and so are the caller's answers.
- Locks and channels inside one callback: a callback is one step. A message counts as sent when the callback sends it. Cancellation of a dispatcher stream by someone else is not part of a run.
- RouterInterceptor.Conservation: for runs up to the first completed capture; whole streams are in `RouterRuns.ConservationIff`.
- RouterRequests.EffectOfText: for texts in which the first trigger is closed and no open tag stands behind its close tag, and without dynamic triggers; `RouterTools.TokensDecide` shows that more cuttings differ beyond.
- RouterTriggers.NoTagShownIff: about runs up to the first completed capture.
- Memory: unaligned reads and the addresses of the kernels' operands. A KvCache data length from 2^61 on panics for its capacity; other exhaustion of memory is not modelled.
- KvCache.KvEngine.LoadKvCache: from a data length of 2^62 on, the size in bytes overflows 64 bits. That panics in a debug build and wraps in a release build; the model reports the overflow and says nothing about what follows.
- Input and output errors of the cache file other than its end.
- SettingEdit.EditIsIdempotent: about lines. Splitting the text into lines and joining them drops a final newline or blank line, which is not modelled.
- ManifestCache.ReadsAreFresh: link targets are fixed, so resolving links is part of the parse. Encoding and decoding are functions of which it is required that decoding an encoded value yields it or fails. Actions do not overlap.
- CompileLocks.LocksSoundIff: a job that is started ends by releasing its lock. A runtime that is shut down before it starts a job, and poisoned locks, are not modelled.
- Verification of binary hashes and reading the registry file from disk.
- Choosing a driver from a manifest (`resolve`): a search through a table with the version test modelled here.
- VersionMatch.RequirementMeans: for bounds that do not start like an operator; `>` in front of `=1` is the form `>=`.
- Servers, pipes, the terminal interface, downloads, foreign inference libraries and model loading.
