# Verified model of Eco Guardian

Eco Guardian checks game-ecology projects and lets an AI provider propose changes to them. This project models its graph
analyses, its formula language, the life of an AI job, two process-side state machines and its canonical encodings, and
proves properties of them for all inputs, all runs and all interleavings:

- **Cycle detection.** Tarjan's search is proved to return the strongly connected components of any finite graph. On top
  of it, trigger rules are unbounded exactly when a finding is reported, and a formula is reported exactly when it reads itself.
- **The formula language.** Lexer, precedence-climbing parser, type and unit inference, evaluator and read index, from source
  text to value: longest tokens and tiling, parses as the derivations of a stratified grammar, round trips, typing rules, values
  as the meaning of trees over exact numbers, explained errors and diagnostics, type soundness, and a dependency frame.
- **The AI job protocol.** Compare-and-swap job states, the lease registry with its two durable checks, and bounded repair,
  as interleaved atomic steps of any number of workers.
- **Process-side state machines.** The single open project with maintenance sessions and one-use tokens, and the
  single-flight cache with first-in-first-out eviction.
- **Canonical encodings.** Canonical JSON against the grammar of RFC 8259, the domain-separated audit chain, and the normal form and
  content hash of draft patches.

Each operation that works by updating state or by looping is a method or a class here, proved against a function; what the
system promises is proved about that function. Sorting is modelled by its contract alone (ordered, a permutation, nothing
about ties). Where a result could depend on ties, either it is proved to be unique or the exact condition for that is given.

Where a promise fails, the exact condition under which it holds is a theorem of its own:

- a cycle report is a function of its input if and only if no two edges collide (`FormulaCycles.DeterminedExactlyWithoutCollisions`,
  with a failing input in `FormulaCycles.ArrowInPathCollides`), and loop findings if and only if no sort meets a tie
  (`EventLoops.DeterminedExactlyWithoutTies`; names without a zero byte never tie);
- a formula that infers without issues and meets no numeric failure has a value if and only if the operands it reaches are numeric
  (`FormulaSoundness.RunsExactlyWithNumericOperands`, with a failing input in `FormulaSoundness.BooleanSumSlipsThrough`);
- a printed tree is read back if and only if it is writable, and a tree of known names if and only if no call in it has a reserved
  name (`FormulaRoundTrip.ReadsBackExactly`, `FormulaRoundTrip.CallNamesSurvive`). With any registry that the constructor accepts
  the second condition is free (`FormulaRoundTrip.RegisteredNamesAreFree`); it fails only without a registry
  (`FormulaRoundTrip.UnregisteredNumberIsLost`), as `internal/validation/references.go:101` parses;
- a tree with spellable names has a source text if and only if it is writable and free of inequality (`FormulaSpelling.HasSourceExactly`);
- one lock is held exactly while a project is active if and only if no refused installation kept its lock
  (`ProjectManager.OneLockExactlyWithoutLeaks`), and the active handle is a closed one if and only if a close was left half done
  (`ProjectManager.ClosedHandleExactlyAfterHalfClose`).

| files | contents |
|---|---|
| `Wrappers`, `Text`, `Ordering` | options and results; text formats; string order, sorting, permutations |
| `Graph`, `Tarjan`, `EventLoops`, `FormulaCycles` | reachability, the search, both callers |
| `FormulaAst`, `FormulaLexer`, `FormulaTokens`, `FormulaTiling` | tokens |
| `FormulaParser`, `FormulaShape`, `FormulaErrors`, `FormulaRoundTrip`, `FormulaSpelling`, `FormulaGrammar` | syntax |
| `FormulaSemantics`, `FormulaTyping`, `FormulaMeaning`, `FormulaSoundness`, `FormulaIndex`, `FormulaCompile` | inference, evaluation, reads, compilation |
| `JobProtocol`, `Cancellation`, `RepairLineage` | the AI job |
| `SingleFlight`, `ProjectManager` | process state |
| `CanonicalJson`, `CanonicalInjective`, `CanonicalGrammar`, `AuditChain`, `DraftPatch`, `DraftNormal`, `DraftHash` | encodings |

`dafny verify dfyconfig.toml` checks everything.

## Parameters and assumptions

- Decimal arithmetic is a parameter with partial operations. Its parser and printer appear as one function from literals to
  canonical texts. The meaning of trees is over the real numbers; the value laws that need no exactness hold for any arithmetic.
- The Unicode letter and digit classes are parameters; what is said of the kinds of tokens assumes only what they are on ASCII, that
  no white space is a letter or digit, and that no digit is a letter. UTF-8 decoding and white space are concrete. The exact
  conditions on printed trees assume what the decimal printer guarantees, that its texts are numerals and print as themselves.
- SHA-256 is a parameter. Results that need it collision-free say so of the finitely many texts they compare, never of all texts.
- Strings are sequences of characters. In the lexer one character is one byte; elsewhere it is one code point.
- Closing a handle or giving back a lock can fail; a failed close leaves the handle open, a failed give-back leaves the lock held.
- Where the code and its documentation differ, the code is followed. `FormulaCycles` keeps the sort by edge text, so a report depends
  on the order of the input when two edges share a text, although it is documented as canonically ordered. `FormulaParser` keeps the
  matcher that compares kinds and texts alike. The grammar in `internal/formula/dsl-v1.ebnf` also differs from the parser: it has the
  inequality operator, which no source lexes to; one comparison per level, where the parser chains them; and one sign per operand,
  where the parser nests them.

## Model

| member | source | states |
|---|---|---|
| `Ordering.SortSlice` | internal/validation/safety.go:68-70 | Sorting without stability: the result is a permutation whose keys do not descend; nothing is promised about ties |
| `Ordering.SortedUnique` | internal/ai/contract/canonical.go:588-592 | Two sorts of the same elements agree when equal keys mean equal elements, so an unstable sort has one result |
| `Ordering.AscendingUnique` | internal/validation/safety.go:110-114 | Distinct strings have exactly one ascending listing: map iteration order does not show after sorting |
| `Tarjan.Enter` | internal/validation/safety.go:122-127 | Numbering and pushing a node starts a scan: every entry below reaches it, the number is the largest, and the finished part stays edge-closed |
| `Tarjan.ScanSeen` | internal/validation/safety.go:134-136 | One loop round over an already numbered successor keeps the scan invariant: `low` stays the number of a reachable stack entry and bounds all crossing edges seen |
| `Tarjan.ScanVisited` | internal/validation/safety.go:129-133 | One loop round around a nested visit keeps the scan invariant, whether the nested visit left its node on the stack or popped it |
| `Tarjan.Leave` | internal/validation/safety.go:138-140 | Returning early is right: an older stack entry is reachable, so the node belongs to an unfinished component |
| `Tarjan.Pop` | internal/validation/safety.go:141-152 | Popping is right: the popped entries are pairwise mutually reachable, nothing outside them is, and the emitted components still partition the finished nodes |
| `Tarjan.Finished` | internal/validation/safety.go:154-158 | With every node numbered and no visit open, the stack is empty and the components partition all nodes |
| `Graph.ClosureLeast` | internal/validation/safety.go:128-137 | What the search visits is the least edge-closed set that holds the given nodes |
| `Tarjan.Search.Visit` | internal/validation/safety.go:122-153 | The recursive closure ends, numbers its node, extends the old state only, and leaves the node on the stack with an attained `low` or in a finished component |
| `Tarjan.Search.PopTo` | internal/validation/safety.go:142-150 | The popping loop removes exactly the entries from the node upward, once each, and clears exactly their flags |
| `Tarjan.Components` | internal/validation/safety.go:109-158 | For every finite graph: terminates with a partition of the nodes and everything they reach, in which two nodes share a component exactly when each reaches the other |
| `Tarjan.StringScc` | internal/validation/safety.go:109-161 | The same partition for every graph, each component ascending, components in the order of their joined node lists |
| `Tarjan.IsCyclic` | internal/validation/safety.go:49-59 | The two-nodes-or-self-edge test holds exactly when a non-empty path leads from the component back to itself |
| `Tarjan.SortTargets` | internal/validation/safety.go:39-41 | Every adjacency list comes out sorted, with its repetitions, and no other list changes |
| `Tarjan.SortingKeepsEdges` | internal/validation/safety.go:39-41 | Sorting the adjacency lists changes no edge |
| `EventLoops.Collect` | internal/validation/safety.go:27-41 | The kept edges are, in order, those with two ends and no positive bound; the nodes are their ends, and the adjacency list of a node is the sorted list of its targets, repetitions included |
| `EventLoops.InsideEdges` | internal/validation/safety.go:60-67 | The edges with both ends in the component, in input order |
| `EventLoops.Describe` | internal/validation/safety.go:60-76 | A finding carries its component, all its unbounded inner edges as a sorted multiset, and the digest of both lists |
| `EventLoops.UnboundedEventLoops` | internal/validation/safety.go:26-79 | The findings are exactly the cyclic components of the unbounded graph, in component order, each with its complete evidence |
| `EventLoops.FindingHasClosedWalk` | internal/validation/safety.go:44-77 | From every node of a finding starts a closed walk of unbounded edges listed in that finding |
| `EventLoops.RankOfQuietGraph` | internal/validation/safety.go:23-26 | Without findings a rank falls along every unbounded edge and stays below the number of nodes |
| `EventLoops.WalkDescends` | internal/validation/safety.go:23-26 | Without findings every walk is no longer than the rank it starts at |
| `EventLoops.QuietExactlyWhenRunsAreBounded` | internal/validation/safety.go:23-26 | Nothing is found if and only if every walk of unbounded edges has fewer edges than there are nodes |
| `EventLoops.QuietExactlyWhenRanked` | internal/validation/safety.go:23-26 | Nothing is found if and only if some rank falls along every unbounded edge |
| `EventLoops.ClosedWalkUnranked` | internal/validation/safety.go:23-26 | No rank survives a closed walk |
| `EventLoops.DeterminedExactlyWithoutTies` | internal/validation/safety.go:68-78 | The findings are a function of the edges if and only if no two different inner edges of a cyclic component, and no two cyclic components, have the same sort key |
| `EventLoops.EdgesSwapped` | internal/validation/safety.go:68-70 | Two tied inner edges can be exchanged: another list of findings is just as right |
| `EventLoops.FindingsSwapped` | internal/validation/safety.go:159 | So can two findings whose components have the same joined name |
| `EventLoops.NamesWithoutZeroNeverTie` | internal/validation/safety.go:68-70 | Node names without a zero byte never tie, so for them the findings are determined |
| `FormulaCycles.IndexByKey` | internal/validation/graph.go:37-44 | Every key of a node or an edge end is indexed, and the node indexed is the last one with that key in the order of the loops |
| `FormulaCycles.Adjacencies` | internal/validation/graph.go:45-56 | The adjacency list of a key is the sorted list of the keys its edges lead to, repetitions included |
| `FormulaCycles.InsideEdges` | internal/validation/graph.go:111-118 | The edges with both end keys in the component, in input order |
| `FormulaCycles.Describe` | internal/validation/graph.go:105-122 | Evidence of a component: its nodes in key order, exactly its inner edges as a sorted multiset, and the digest of both |
| `FormulaCycles.StaticFormulaCycles` | internal/validation/graph.go:36-134 | A node is reported exactly when a non-empty path leads back to it, exactly once, in key order; members of a component carry the same nodes, edges and hash |
| `FormulaCycles.PermutedInputs` | internal/validation/graph.go:33-56 | Whatever report is right for an input is right for every permutation of its nodes and edges |
| `FormulaCycles.SameReport` | internal/validation/graph.go:119-132 | With injective node keys and no two inner edges of one text, two runs give the same report, whatever the unstable sorts do |
| `FormulaCycles.DeterminedExactlyWithoutCollisions` | internal/validation/graph.go:119-132 | The report is a function of the input if and only if no two different edges inside one cycle have the same text; the claim that permuting the input changes nothing fails otherwise |
| `FormulaCycles.Swapped` | internal/validation/graph.go:119-121 | If two such edges exist, exchanging them gives a different report that is just as right |
| `FormulaCycles.ArrowInPathCollides` | internal/validation/graph.go:18-20 | Such edges exist whatever the ids are and though the keys differ: a field path that contains the arrow, given concretely |
| `FormulaLexer.SkipNumber` | internal/formula/parser.go:69-87 | The digit, fraction and exponent loops stop where the number grammar says |
| `FormulaLexer.SkipIdentifier` | internal/formula/parser.go:92-100 | The identifier loop stops at the first rune that is no letter, digit or underscore |
| `FormulaLexer.Advance` | internal/formula/parser.go:35-106 | One round always moves forward, stays inside the source and classifies the piece as the case order says |
| `FormulaLexer.Lex` | internal/formula/parser.go:33-109 | The whole loop terminates and yields the token and error lists of the recursive specification |
| `FormulaTokens.DecodesEncoded` | internal/formula/parser.go:37 | Every scalar value is decoded from its UTF-8 form (section 3 of RFC 3629), whatever follows |
| `FormulaTokens.DecodesOnlyEncoded` | internal/formula/parser.go:37 | And whatever decodes to anything but the one-byte replacement rune starts with such a form |
| `FormulaTokens.NumbersAreLongest` | internal/formula/parser.go:69-87 | The loops skip exactly the longest text of the shape: digits, optionally a point and digits, optionally e or E, an optional sign and digits |
| `FormulaTokens.IdentifiersAreWholeWords` | internal/formula/parser.go:92-100 | The identifier loop takes exactly the run of letters, digits and underscores, rune by rune |
| `FormulaTokens.KindByFirstRune` | internal/formula/parser.go:38-106 | What the first piece of a text is, by its first rune: white space, one of ten punctuation marks, one of five operator marks, a dollar with a brace, a digit or point, a letter or underscore |
| `FormulaTokens.OperatorsAreLongest` | internal/formula/parser.go:47-56 | An operator token is the longest text at the front among the twelve that can be one |
| `FormulaTokens.SelectorsEndAtTheFirstBrace` | internal/formula/parser.go:57-67 | A selector ends at the first closing brace, and takes all of the source if there is none |
| `FormulaTokens.WordsAndNumbers` | internal/formula/parser.go:68-103 | A number is its first rune with the longest tail, an identifier its first rune with the whole run behind it |
| `FormulaTokens.SingleRunes` | internal/formula/parser.go:38-46 | White space, punctuation and what starts no token are one rune each |
| `FormulaTokens.TokensAreLongest` | internal/formula/parser.go:33-109 | Every token of every source is one of the five kinds and the longest of its kind at its place |
| `FormulaTokens.OpenSelectorsAreReported` | internal/formula/parser.go:58-63 | An unterminated selector is reported exactly for the token that could not be closed |
| `FormulaTiling.LexerTiling` | internal/formula/parser.go:33-109 | On every input: spans in bounds, increasing and disjoint, texts equal to their slices, and every uncovered byte is white space or inside a reported unsupported character |
| `FormulaTiling.NoInequality` | internal/formula/parser.go:42-56 | No token of any source has the text of the inequality operator |
| `FormulaTiling.BangIsAlone` | internal/formula/parser.go:42-46 | An exclamation mark is always a token by itself, whatever follows |
| `FormulaTiling.SourceParses` | internal/formula/parser.go:23-31 | Every source has a parse of checkable shape; an error-free one uses all of the source and nests every span inside it |
| `FormulaParser.Parser.Take` | internal/formula/parser.go:119-125 | Returns the current token and never moves past the end marker |
| `FormulaParser.Parser.Match` | internal/formula/parser.go:129-136 | Consumes the token exactly when its kind or its text is the wanted one |
| `FormulaParser.Parser.Expression` | internal/formula/parser.go:137 | Terminates on every terminated token list, with the specified tree, position and errors |
| `FormulaParser.Parser.Binary` | internal/formula/parser.go:153-166 | The climbing loop builds the tree of the recursive specification, for every minimum level |
| `FormulaParser.Parser.Operation` | internal/formula/parser.go:157-163 | One round takes an operator and its tighter right operand and moves forward |
| `FormulaParser.Parser.Primary` | internal/formula/parser.go:167-253 | All primary forms with their error branches; recursion ends because each form consumes a token first |
| `FormulaParser.Parser.Number` | internal/formula/parser.go:180-203 | Plain and unit-bearing literals with their four error reports |
| `FormulaParser.Parser.SelectorOf` | internal/formula/parser.go:206-217 | Selectors split at the first colon; an unknown scope is reported and still yields a selector |
| `FormulaParser.Parser.Named` | internal/formula/parser.go:219-248 | Booleans, bare names and calls |
| `FormulaParser.Parser.Args` | internal/formula/parser.go:228-235 | The argument loop reads one expression, and more after each comma |
| `FormulaParser.Parse` | internal/formula/parser.go:23-31 | The whole parse, with an error for anything left over |
| `FormulaShape.ParseIsShaped` | internal/formula/parser.go:167-253 | On every token list, errors or not, unary and binary nodes have the operand counts that inference indexes, and leaves have none |
| `FormulaShape.ErrorFreeParse` | internal/formula/parser.go:23-31 | An error-free parse consumes every token before the end marker and yields nested, ordered child spans |
| `FormulaErrors.SyntaxErrorsAreExplained` | internal/formula/parser.go:167-253 | Every error of the parser stands at a token of which it tells the truth, for each of the eleven messages |
| `FormulaErrors.SpansStayInside` | internal/formula/parser.go:23-253 | In the tree of every source, errors or not, every span runs forward inside the source, and no node reaches past what was read |
| `FormulaGrammar.LevelsAgree` | internal/formula/parser.go:138-152 | The climbing levels are the five operator classes of the grammar, written with their operators, loosest first |
| `FormulaGrammar.ErrorFreeIsDerived` | internal/formula/parser.go:137-253 | Whatever parses without errors is derived, with exactly this tree, by a stratified grammar: or, and, comparison, sum, product, operand |
| `FormulaGrammar.ParsesExactlyWhatIsDerived` | internal/formula/parser.go:137-253 | If the matcher mistakes nothing but names, the error-free parses are exactly the derivations, tree by tree |
| `FormulaGrammar.GrammarIsUnambiguous` | internal/formula/parser.go:137-166 | Then the grammar gives a token list at most one tree |
| `FormulaGrammar.ThreeOperands` | internal/formula/parser.go:153-166 | Three operands without parentheses group to the right exactly when the second operator is of a strictly tighter class, and to the left otherwise |
| `FormulaGrammar.LexedIsPlain` | internal/formula/parser.go:129-136 | On the tokens of any source the matcher mistakes nothing but names, and these only for literals |
| `FormulaGrammar.SourceParsesExactly` | internal/formula/parser.go:23-253 | Of all sources exactly the ones the grammar derives parse without errors, and to the derived tree |
| `FormulaRoundTrip.PrimaryReads` | internal/formula/parser.go:167-253 | A printed operand is read back as itself, up to spans, and reading stops right behind it |
| `FormulaRoundTrip.SpineReads` | internal/formula/parser.go:153-166 | Reading a printed left spine and climbing on equals climbing on from that tree: left associativity needs no parentheses |
| `FormulaRoundTrip.ExpressionReads` | internal/formula/parser.go:137-166 | A printed expression is read back whole when no operator or suffix follows |
| `FormulaRoundTrip.ArgsRead` | internal/formula/parser.go:227-241 | Printed arguments are read back in order up to the closing parenthesis |
| `FormulaRoundTrip.ParsePrint` | internal/formula/parser.go:137-253 | Printing any well-formed tree, with parentheses only where precedence or left associativity needs them, and parsing the tokens gives the same tree up to spans, without errors; the inequality operator included |
| `FormulaRoundTrip.ReservedNamesAreNeverCalled` | internal/formula/parser.go:129-136 | On every token list, errors or not, no call in the tree, however deep, has a name that the matcher takes for something else: such a function cannot be called |
| `FormulaRoundTrip.CallNamesSurvive` | internal/formula/parser.go:129-253 | A printed tree that is well formed up to its call names is read back without errors if and only if no call in it, with whatever arguments and nesting, has one of the seven reserved names |
| `FormulaRoundTrip.RegisteredNamesAreFree` | internal/formula/registry.go:92-131 | With any registry that the constructor accepts every known function name is free, so the condition always holds |
| `FormulaRoundTrip.UnregisteredNumberIsLost` | internal/validation/references.go:101 | Without a registry it can fail: a call of `number` with any arguments is not read back |
| `FormulaRoundTrip.ErrorFreeIsWritable` | internal/formula/parser.go:23-253 | Whatever parses without errors is a writable tree |
| `FormulaRoundTrip.ReadsBackExactly` | internal/formula/parser.go:23-253 | Of all trees, well formed or not, exactly the writable ones are read back from their printed tokens |
| `FormulaRoundTrip.ReprintReadsBack` | internal/formula/parser.go:23-253 | Printing what an error-free parse returned and parsing again returns it again |
| `FormulaSpelling.ScanBefore` | internal/formula/parser.go:35-106 | What is recognized at the front of a text does not change when a separator and more text follow |
| `FormulaSpelling.LexSpelled` | internal/formula/parser.go:33-109 | Lexemes written with spaces between them lex back to themselves, without errors |
| `FormulaSpelling.OperatorLexes` | internal/formula/parser.go:47-56 | Every operator but inequality lexes back to itself |
| `FormulaSpelling.PrintLexes` | internal/formula/parser.go:33-109 | Every lexeme of a printed tree lexes back to itself, provided its names and numerals do |
| `FormulaSpelling.SourceRoundTrip` | internal/formula/parser.go:23-253 | Spelling a well-formed tree without inequality as text, lexing and parsing gives the tree back without errors |
| `FormulaSpelling.SourceAvoidsInequality` | internal/formula/parser.go:33-109 | The converse: no parse of any source, with errors or without, contains the inequality operator |
| `FormulaSpelling.HasSourceExactly` | internal/formula/parser.go:23-253 | A tree whose names and numerals can be spelled has a source text that parses to it without errors if and only if it is writable and free of inequality |
| `FormulaSpelling.SourceReprints` | internal/formula/parser.go:23-253 | Any error-free source parses to a tree that survives printing and parsing again |
| `FormulaSoundness.ArgumentsInfer` | internal/formula/semantic.go:141-150 | A call without issues has issue-free arguments of one type and dimension |
| `FormulaSoundness.CallArguments` | internal/formula/semantic.go:102-151 | An issue-free call has arguments, all issue-free, and the type of the first |
| `FormulaSoundness.WellTypedRuns` | internal/formula/semantic.go:195-348 | Over every table whose values agree with their types: a tree that infers without issues never dereferences nil or indexes out of range, and its result is Boolean exactly when its type is |
| `FormulaSoundness.OnlyNumericIssues` | internal/formula/semantic.go:195-348 | If moreover no arithmetic, comparison or numeric call has a Boolean operand and the four rounding functions succeed, only division by zero and numeric range remain |
| `FormulaSoundness.EvaluationIsTyped` | internal/formula/semantic.go:183-194 | The same for the public entry point, which infers first |
| `FormulaSoundness.BooleanSumSlipsThrough` | internal/formula/registry.go:36-45 | The operand condition is not implied: a sum of Booleans infers without issues and stops with a type mismatch, given concretely |
| `FormulaSoundness.ValueNeedsNumericOperands` | internal/formula/semantic.go:195-348 | A value is produced only if every operand that evaluation reaches is numeric where a number is wanted |
| `FormulaSoundness.RunsExactlyWithNumericOperands` | internal/formula/semantic.go:195-348 | Over all trees, short-circuiting operators and `if` included: an issue-free formula that meets no numeric failure produces a value if and only if every operand that evaluation reaches is numeric where a number is wanted |
| `FormulaSoundness.OnlyNumericWhereReached` | internal/formula/semantic.go:195-348 | With numeric operands where evaluation reaches, only division by zero and numeric range can stop it |
| `FormulaSoundness.StraightReachesAll` | internal/formula/semantic.go:244-291 | Without short-circuiting the operands that are reached are all of them |
| `FormulaTyping.InfersExactlyTheType` | internal/formula/semantic.go:47-155 | Inference finds no issue exactly when the typing rules, one per construct, give a type, and then it finds that type |
| `FormulaTyping.TypesAreUnique` | internal/formula/semantic.go:47-155 | The rules give a formula at most one type |
| `FormulaTyping.IssuesAreExplained` | internal/formula/semantic.go:47-155 | Every issue names a rule that some node of the tree breaks, with the code and the place of that rule |
| `FormulaMeaning.EvaluatesToMeaning` | internal/formula/semantic.go:195-348 | With exact arithmetic, whatever a tree evaluates to is what it means: the real numbers and truth values of its operators, `if`, `min`, `max`, `clamp` and roundings |
| `FormulaMeaning.ValuesAreMeanings` | internal/formula/semantic.go:195-348 | With exact arithmetic that never overflows, a tree evaluates to a value if and only if it means one, and to that one |
| `FormulaMeaning.EntryPointMeans` | internal/formula/semantic.go:183-194 | So does the public entry point, with the inferred type |
| `FormulaMeaning.OperatorLaws` | internal/formula/semantic.go:227-291 | For any arithmetic: each operator applies its own operation to the left and the right operand, in that order, and compares by the sign |
| `FormulaMeaning.MinAndMax` | internal/formula/semantic.go:314-322 | `min` and `max` return the first of their arguments that bounds all others, if the comparison is a total order |
| `FormulaMeaning.ClampIsInside` | internal/formula/semantic.go:323-331 | `clamp` returns one of its arguments, inside the bounds whenever these are in order |
| `FormulaMeaning.StopsAreExplained` | internal/formula/semantic.go:195-348 | Every diagnostic of an evaluation names a node that could not be computed, with the reason and the place |
| `FormulaIndex.Visit` | internal/validation/formula_index.go:75-83 | The closure appends exactly the selectors of the tree, in visiting order |
| `FormulaIndex.FormulaReads` | internal/validation/formula_index.go:73-87 | The reads are the selector occurrences, sorted by scope and symbol |
| `FormulaIndex.ReadsAreTheSelectors` | internal/validation/formula_index.go:73-83 | The reads are exactly the selectors that occur in the tree, at whatever depth, each with its own place |
| `FormulaIndex.InferFrame` | internal/formula/semantic.go:47-155 | Inference gives the same answer in any two environments that agree on the listed reads |
| `FormulaIndex.EvaluateFrame` | internal/formula/semantic.go:195-348 | So does evaluation |
| `FormulaIndex.IndexedReadsSuffice` | internal/validation/formula_index.go:73-87 | The indexed reads are a complete dependency set of the whole evaluation, inference included |
| `FormulaIndex.EveryReadIsNeeded` | internal/validation/formula_index.go:73-87 | And a minimal one for inference: a formula without issues has every listed read bound |
| `FormulaCompile.CompileOne` | internal/validation/formula_index.go:39-47 | Parsing and inference of one source text |
| `FormulaCompile.CompileFormulaBindings` | internal/validation/formula_index.go:36-72 | Exactly the bindings without syntax and typing issues are recorded, every issue of every binding is reported once, both lists sorted, every record with its sorted reads |
| `FormulaCompile.RecordsAreTheCompiled` | internal/validation/formula_index.go:48-65 | A record exists for a binding if and only if it compiled |
| `FormulaCompile.ReportedExactly` | internal/validation/formula_index.go:39-47 | Exactly the syntax errors and typing issues of the bindings are reported, each with its binding, code and place |
| `FormulaCompile.RecordedExactlyWithoutIssues` | internal/validation/formula_index.go:48-65 | A binding is recorded if and only if it has no issue of its own |
| `FormulaCompile.NumericFrame` | internal/formula/semantic.go:195-348 | Whether operands are numeric depends on the listed reads only |
| `FormulaCompile.CompiledFormulasRun` | internal/validation/formula_index.go:36-72 | From text to value: in any table that supplies the indexed reads with their types a recorded formula infers as it did, never panics and yields a value of the inferred kind, or stops with a numeric issue if its operands are numeric |
| `JobProtocol.SqliteConforms` | internal/storage/sqlite/ai_jobs.go:134-185 | The SQLite transition meets the contract of the interface: commits only on a full match, replays only an identical outcome, otherwise changes nothing |
| `JobProtocol.CommitEffect` | internal/ai/orchestration/job_controller.go:181-260 | What any commit does, from whatever snapshot: raises the stage, keeps or advances the phase by one, sets the owner only by a claim, succeeds only by sealing |
| `JobProtocol.CommitExactly` | internal/ai/orchestration/job_controller.go:181-260 | The whole state that each kind of commit leaves, field by field |
| `JobProtocol.SettlementEnds` | internal/ai/orchestration/job_controller.go:223-238 | A committed settlement ends the job as canceled if and only if the remote stop is confirmed, else as interrupted; it keeps phase and generation, clears the owner, and is the last commit |
| `JobProtocol.FreshCallsCommit` | internal/ai/orchestration/job_controller.go:181-260 | A call on what is stored commits exactly when the protocol allows it |
| `JobProtocol.SettledAlready` | internal/ai/orchestration/job_controller.go:230-234 | Exactly when a settlement is told of success without a commit, and what it is told |
| `JobProtocol.StatusGraph` | internal/job/job.go:45-56 | The status graph, by target: who may start, succeed, fail, be canceled or interrupted |
| `JobProtocol.CancelsExactly` | internal/storage/sqlite/ai_jobs.go:82-132 | A first cancellation is accepted exactly where the status graph leads to canceled; it ends every job but a running one, which keeps its owner |
| `JobProtocol.PrintableOwners` | internal/ai/orchestration/job_controller.go:262-267 | A printable name may own a job exactly if it has between 1 and 128 characters |
| `JobProtocol.RunReachable` | internal/ai/orchestration/job_controller.go:83-97 | Every committed state is valid and reachable by the protocol |
| `JobProtocol.RunGrows` | internal/ai/orchestration/job_controller.go:181-260 | Along a run generations and phases never fall, stages rise, finished states do not change and a running job keeps its owner |
| `JobProtocol.OneClaim` | internal/ai/orchestration/job_controller.go:181-186 | Over all interleavings of any number of workers at most one claim commits |
| `JobProtocol.SuccessfulClaimsAgree` | internal/ai/orchestration/job_controller.go:181-260 | All claims that are told of success in a run, by commit or by replay, name the same owner |
| `JobProtocol.PhasesInOrder` | internal/ai/orchestration/job_controller.go:73-75 | The committed phase counts the advances: five phases, in order, none skipped or repeated |
| `JobProtocol.StaleWorkerIsStopped` | internal/ai/orchestration/job_controller.go:240-260 | No action from a snapshot older than a cancellation ever commits after it |
| `JobProtocol.StaleWorkerGetsNoSuccess` | internal/ai/orchestration/job_controller.go:240-260 | Nor is any action from such a snapshot told of success, not even by a replay, and it changes nothing |
| `JobProtocol.SuccessIsSealed` | internal/ai/orchestration/job_controller.go:195-204 | A succeeded job is sealed, ownerless, last in its run, after four advances, and links the patch of the sealing commit |
| `JobProtocol.RunIsShort` | internal/ai/orchestration/job_controller.go:181-260 | A job commits at most seven times, whatever the workers do |
| `JobProtocol.ContractAllowsSealAfterReread` | internal/ai/orchestration/job_controller.go:137-139 | The interface alone lets a worker that reads again after a cancellation seal; SQLite refuses that |
| `JobProtocol.SqliteSuccessIsUncancelled` | internal/storage/sqlite/ai_jobs.go:158-160 | Against SQLite a job that succeeded was never cancelled |
| `JobProtocol.SqliteNeverSealsCancelled` | internal/storage/sqlite/ai_jobs.go:100-105 | Against SQLite a cancelled job never succeeds, at any earlier or later moment |
| `JobProtocol.Repository.GetAIJob` | internal/storage/sqlite/ai_jobs.go:71-80 | The stored state or a not-found error |
| `JobProtocol.Repository.TransitionAIJob` | internal/storage/sqlite/ai_jobs.go:134-185 | Replay, refusal or commit in the order of the checks, on that job alone |
| `JobProtocol.Repository.RequestAIJobCancellation` | internal/storage/sqlite/ai_jobs.go:82-132 | Replay, refusal or first cancellation with its new status and owner |
| `JobProtocol.Controller.Claim` | internal/ai/orchestration/job_controller.go:181-186 | The guard on the snapshot and on the format of the owner, then the transition to running under the new owner |
| `JobProtocol.Controller.Advance` | internal/ai/orchestration/job_controller.go:188-193 | The guard, then the transition to the next phase |
| `JobProtocol.Controller.SealPatch` | internal/ai/orchestration/job_controller.go:195-204 | The guard, then the transition to success with the canonical patch link |
| `JobProtocol.Controller.SettleCancellation` | internal/ai/orchestration/job_controller.go:223-238 | Idempotent settling, or the transition to canceled or interrupted |
| `JobProtocol.Controller.Transit` | internal/ai/orchestration/job_controller.go:240-260 | Sends every expected field and checks the answer before passing it on |
| `JobProtocol.CallsAreCommits` | internal/ai/orchestration/job_controller.go:181-260 | Every controller call that changes the stored job is a commit of the run model |
| `Cancellation.InvocationCancellationRegistry.Register` | internal/ai/orchestration/cancellation.go:69-92 | A lease under the job unless the state may not call or an older generation has been signaled |
| `Cancellation.InvocationCancellationRegistry.Signal` | internal/ai/orchestration/cancellation.go:94-116 | The loop over the active leases ends exactly the older ones, in any iteration order, and the generation only rises |
| `Cancellation.InvocationCancellationRegistry.Release` | internal/ai/orchestration/cancellation.go:118-132 | Ends and removes the lease, and forgets a job without leases and signals; a second release does nothing |
| `Cancellation.StepKeeps` | internal/ai/orchestration/cancellation.go:140-173 | Every atomic step of any interleaving of calls, commits, signals and releases keeps the whole system in order |
| `Cancellation.RunRegistryGrows` | internal/ai/orchestration/cancellation.go:24-132 | Along a run leases keep their identity, ended contexts stay ended, signaled and durable generations never fall |
| `Cancellation.SignaledLeasesEnd` | internal/ai/orchestration/cancellation.go:94-116 | Once a generation has been signaled, every unreleased older lease of the job is ended, at every later moment |
| `Cancellation.LateRegistrationFails` | internal/ai/orchestration/cancellation.go:86-89 | And no later registration with an older generation succeeds |
| `Cancellation.SignaledExactly` | internal/ai/orchestration/cancellation.go:94-116 | A generation of a job counts as signaled exactly if a signal for that job was sent |
| `Cancellation.RemembersExactly` | internal/ai/orchestration/cancellation.go:118-132 | The registry remembers a job exactly while it has an unreleased lease, or once a signal for it was sent |
| `Cancellation.CallsGoOnExactly` | internal/ai/orchestration/cancellation.go:143-161 | Each stage of a call is passed exactly while the stored job still runs in the same phase under the same owner, never cancelled; registering, exactly while nothing was signaled |
| `Cancellation.NoLeaseAfterCommit` | internal/ai/orchestration/cancellation.go:143-161 | After a durable cancellation no call returns a lease any more, whether it starts later or was under way |
| `Cancellation.ReturnedLeasesEnd` | internal/ai/orchestration/cancellation.go:163-173 | After the signal every lease ever returned for the job is released or ended |
| `Cancellation.AcceptedBeforeCancellation` | internal/ai/orchestration/cancellation.go:194-216 | A result is accepted only if at the read the job runs with the owner and generation of the lease, and no cancellation had been committed before |
| `Cancellation.LeaseEndsExactly` | internal/ai/orchestration/cancellation.go:94-132 | The context of a lease has ended if and only if some step ended it: its own end, its release, a failed confirmation, or a signal newer than it |
| `Cancellation.CancelledExactly` | internal/ai/orchestration/cancellation.go:163-173 | A job is cancelled if and only if it was so from the start or a cancellation of it was committed |
| `Cancellation.VerdictExactly` | internal/ai/orchestration/cancellation.go:194-216 | Over every run: a result is late after a cancellation, accepted while its owner runs the job and nothing has ended the lease, and invalid otherwise |
| `RepairLineage.RepairController.constructor` | internal/ai/orchestration/repair_controller.go:78-94 | The round limit is the smallest of the budget, three and the provider turns less one |
| `RepairLineage.RepairController.HandleFailure` | internal/ai/orchestration/repair_controller.go:99-167 | One failure: refused, committed as terminal, or committed with exactly one linked next attempt; a failed commit changes nothing |
| `RepairLineage.HandleEffect` | internal/ai/orchestration/repair_controller.go:99-167 | A call adds one terminal record or nothing; a plan is returned exactly when a round is added |
| `RepairLineage.HandleKeepsLineage` | internal/ai/orchestration/repair_controller.go:117-166 | Every call keeps the lineage: contiguous ordinals and rounds, parents linked, manifests frozen but for the attempt id |
| `RepairLineage.EveryRunIsALineage` | internal/ai/orchestration/repair_controller.go:78-167 | Over any failure sequence the log is one lineage with at most that many repairs |
| `RepairLineage.LogIsAppendOnly` | internal/ai/orchestration/repair_controller.go:110-112 | Ended attempts are never rewritten and closed is absorbing |
| `RepairLineage.OneEndPerAttempt` | internal/ai/orchestration/repair_controller.go:136-138 | No attempt id is ended twice |
| `RepairLineage.AnswersExactly` | internal/ai/orchestration/repair_controller.go:99-167 | Exactly when a plan is returned, from the calls alone: open, fewer than three and than both limits planned, a failure of format, a new attempt id; and the exact condition of each refusal |
| `RepairLineage.PlansTheNextAttempt` | internal/ai/orchestration/repair_controller.go:117-166 | A plan repairs the running attempt, the one of the latest plan, under the new id and the next round |
| `SingleFlight.RuntimeActionHandler.Enter` | internal/httpapi/runtime_actions.go:75-93 | Cached answer, joined call or newly opened call, in that order |
| `SingleFlight.RuntimeActionHandler.Finish` | internal/httpapi/runtime_actions.go:104-113 | The result moves from in flight to completed and the oldest may be evicted; the cache stays consistent |
| `SingleFlight.SettleKeeps` | internal/httpapi/runtime_actions.go:104-113 | Order and completed keys coincide without duplicates, at most 256, and no key is both in flight and completed |
| `SingleFlight.StepKeeps` | internal/httpapi/runtime_actions.go:75-115 | Every interleaving step keeps the cache and the threads in order; at most one effect per key runs |
| `SingleFlight.RunOk` | internal/httpapi/runtime_actions.go:75-115 | Hence at every moment of every run |
| `SingleFlight.AnswersAgree` | internal/httpapi/runtime_actions.go:82-90 | Everyone answered from one call gets the same result |
| `SingleFlight.CachedExactlySinceFinish` | internal/httpapi/runtime_actions.go:104-113 | A key is remembered with a result if and only if its last finish had that result and the key has been held ever since |
| `SingleFlight.CacheAnswersTheFinishedResult` | internal/httpapi/runtime_actions.go:78-81 | A caller is answered from the cache with a result if and only if that is the result its key finished with, still held |
| `SingleFlight.CacheKeysSeparate` | internal/httpapi/runtime_actions.go:76 | Action and idempotency key can be read off the cache key when action names have no zero byte |
| `SingleFlight.KeptExactly` | internal/httpapi/runtime_actions.go:104-113 | A result is kept exactly as long as fewer than 256 other keys have finished since |
| `SingleFlight.AtMost256` | internal/httpapi/runtime_actions.go:109-112 | At most 256 results are kept |
| `SingleFlight.RerunsAfterEviction` | internal/httpapi/runtime_actions.go:78-81 | A finished key runs again only after 256 different other keys have finished in between |
| `ProjectManager.TokenStore.Issue` | internal/project/project.go:112-127 | The token is stored with its directory and expiry |
| `ProjectManager.TokenStore.Consume` | internal/project/project.go:128-137 | The token is gone afterwards in every case and valid only before its expiry |
| `ProjectManager.Manager.Install` | internal/project/project.go:254-289 | Refused while active or in maintenance without consuming the token; otherwise token, lock, open, record; a failure gives the lock back, and if that fails too the lock stays held |
| `ProjectManager.Manager.ActiveHandle` | internal/project/project.go:298-305 | No handle during maintenance or without a project |
| `ProjectManager.Manager.Close` | internal/project/project.go:326-349 | Refused in maintenance; otherwise guard, handle, lock, in that order: a failed close changes nothing, a failed give-back leaves the project active with a closed handle |
| `ProjectManager.Manager.AcquireMaintenance` | internal/project/project.go:366-382 | A session exactly when this project is open with a handle and not in maintenance, and the guard passes |
| `ProjectManager.Manager.AcquireRestoredTarget` | internal/project/project.go:387-403 | A session over a handed-over lock exactly when nothing is active |
| `ProjectManager.MaintenanceSession.MarkNonInterruptible` | internal/project/project.go:417-428 | Marks the maintenance of its own project only |
| `ProjectManager.MaintenanceSession.CloseConnections` | internal/project/project.go:430-455 | Drops the handle of its own project once it is closed; a restored target has none to drop |
| `ProjectManager.MaintenanceSession.Reopen` | internal/project/project.go:457-482 | Installs a handle only if its id is the session's; every failure leaves no handle |
| `ProjectManager.MaintenanceSession.Release` | internal/project/project.go:484-508 | Ends maintenance, giving the lock back first if a restored target was never reopened; if that fails maintenance goes on; a second release does nothing |
| `ProjectManager.StepKeepsManager` | internal/project/project.go:254-508 | Every step keeps: the lock of the active project is held, besides it only leaked ones, maintenance is of the active project, a handle is missing only in maintenance, an installed handle has the active id |
| `ProjectManager.StepKeepsSessions` | internal/project/project.go:366-508 | Every step keeps: exactly one unreleased session exactly in maintenance |
| `ProjectManager.OneProjectOneSession` | internal/project/project.go:254-508 | Hence at every moment of every run |
| `ProjectManager.OneLockExactlyWithoutLeaks` | internal/project/project.go:254-289 | One lock is held exactly while a project is active, if and only if no refused installation has failed to give its lock back |
| `ProjectManager.ClosedHandleExactlyAfterHalfClose` | internal/project/project.go:326-349 | The active handle is a closed one if and only if a close shut it, could not give back the lock, and the handle has not been replaced since |
| `ProjectManager.CloseNeverPanics` | internal/project/project.go:326-349 | Closing never dereferences a missing handle, and a successful close leaves no project and no lock of its own |
| `ProjectManager.TokensAreSingleUse` | internal/project/project.go:112-137 | Every token is consumed successfully at most once, only if issued, only before it expires |
| `ProjectManager.TokenIsAsIssued` | internal/project/project.go:112-127 | Every stored token has the directory and expiry it was issued with |
| `ProjectManager.InChargeExactly` | internal/project/project.go:254-508 | A project is active at a path if and only if it was brought in there, by its token or as a restored target, and since then no guarded close and no giving up of the target has succeeded |
| `ProjectManager.HandleComesAndGoes` | internal/project/project.go:430-482 | A project that stays loses its handle exactly when a session closes it after preparing, and gets one exactly when a session reopens the same project |
| `ProjectManager.SessionsBeginExactly` | internal/project/project.go:366-403 | A session begins exactly on the open project with a passing guard, or on a restored target while nothing is active |
| `ProjectManager.OpenSessionKnowsTheProject` | internal/project/project.go:366-403 | A session that is not released names the active project and its path |
| `ProjectManager.NonInterruptibleExactly` | internal/project/project.go:417-428 | Maintenance is not interruptible exactly from the moment a session of the project says so until it ends |
| `ProjectManager.MaintenanceEndsExactly` | internal/project/project.go:484-508 | Maintenance ends exactly when its session is released with the project open again, or gives up a restored target with its lock |
| `CanonicalJson.WriteCanonical` | internal/ai/contract/canonical.go:515-564 | The writer appends exactly the specified text, or fails exactly when some number is not accepted |
| `CanonicalJson.WriteItems` | internal/ai/contract/canonical.go:530-540 | The item loop puts commas between items only |
| `CanonicalJson.WriteMembers` | internal/ai/contract/canonical.go:541-559 | The member loop writes members in ascending key order |
| `CanonicalJson.KeysInOrder` | internal/domain/canonical.go:32-36 | Collecting map keys in any order and sorting gives the one ascending listing |
| `CanonicalInjective.EscapePrefixFree` | internal/domain/canonical.go:42-43 | An escaped character can be told apart from whatever follows it (section 7 of RFC 8259) |
| `CanonicalInjective.QuotePrefixFree` | internal/domain/canonical.go:42-43 | So can a quoted string |
| `CanonicalInjective.NumberPrefixFree` | internal/domain/canonical.go:61-66 | A number text can be told apart from what follows it if a delimiter follows |
| `CanonicalInjective.ValuePrefixFree` | internal/domain/canonical.go:29-71 | The text of any value, followed by a delimiter or the end, determines the value and the rest |
| `CanonicalInjective.ItemsPrefixFree` | internal/domain/canonical.go:50-60 | The same for item lists |
| `CanonicalInjective.MembersPrefixFree` | internal/domain/canonical.go:37-49 | The same for member lists |
| `CanonicalInjective.CanonicalIsInjective` | internal/domain/canonical.go:11-27 | Canonical texts are equal if and only if the values are |
| `CanonicalInjective.MemberOrderIsIrrelevant` | internal/domain/canonical.go:31-36 | The order in which members arrive does not reach the text |
| `CanonicalInjective.AcceptedExactly` | internal/ai/contract/canonical.go:524-529 | A value has a canonical text if and only if every number in it, however deep, is accepted |
| `CanonicalInjective.ContractCanonicalForm` | internal/ai/contract/canonical.go:515-564 | In the contract version accepted trees hold only numbers that are their own canonical text, and equal texts mean equal trees |
| `CanonicalGrammar.EscapedExactly` | internal/domain/canonical.go:42-43 | Exactly which characters are escaped, which in two characters, and that hexadecimal digits are lower case |
| `CanonicalGrammar.TextDenotes` | internal/ai/contract/canonical.go:515-564 | Every canonical text denotes its value by the grammar of RFC 8259, written without the encoder: literals, string spellings, items in order, each member once in ascending order |
| `CanonicalGrammar.ObjectReads` | internal/ai/contract/canonical.go:541-559 | The members of an object can be read off its text in the order of its sorted keys |
| `AuditChain.DomainsSeparate` | internal/ai/contract/canonical.go:445-454 | Domain and text can be read off a preimage: different domains never share one |
| `AuditChain.RegisteredDomainsHaveNoZero` | internal/ai/contract/canonical.go:16-33 | None of the sixteen registered domain names contains a zero byte |
| `AuditChain.RecordJsonDetermines` | internal/ai/contract/canonical.go:414-420 | Canonical records are equal if and only if the records are, up to the order of versions |
| `AuditChain.RecordReads` | internal/ai/contract/canonical.go:167-173 | The canonical text of a record lists exactly its five members, by name and in order |
| `AuditChain.VersionReads` | internal/ai/contract/types.go:205-209 | The text of a version lists hash, id and version |
| `AuditChain.EntryReads` | internal/ai/contract/canonical.go:427-443 | What a link hashes is the record, after the previous hash unless it is the first |
| `AuditChain.AppendExactly` | internal/ai/contract/canonical.go:427-454 | A link can be appended exactly to nothing or a well-formed hash, for a valid record with a writable number; its hash is taken of the chain domain, a zero byte and the text |
| `AuditChain.LinkDetermines` | internal/ai/contract/canonical.go:427-443 | If the two hashed texts do not collide, one link hash determines the hash before it and its record |
| `AuditChain.SameHashSameHistory` | internal/ai/contract/canonical.go:427-454 | If no two of the texts hashed in two chains collide, chains from the empty hash that end alike have the same length and the same records |
| `AuditChain.PrefixHashesDiffer` | internal/ai/contract/canonical.go:427-454 | Nor can a chain end like one of its own prefixes |
| `DraftPatch.CheckOperation` | internal/ai/contract/types.go:452-467 | Positive ordinal, a well-formed pointer, and a non-empty list of well-formed evidence ids without repetition |
| `Text.CheckPointer` | internal/ai/contract/types.go:633-647 | The loop accepts exactly the one-line pointers in which every tilde starts an escape |
| `DraftPatch.CheckTarget` | internal/ai/contract/types.go:476-491 | Well-formed entity id and kind, positive version, valid operations, ordinals all different |
| `DraftPatch.CheckPatch` | internal/ai/contract/types.go:504-529 | Identities, rationale, assumptions and hash well formed, targets present, valid and of different entities |
| `DraftPatch.CheckCollection` | internal/ai/patch/decode.go:347-367 | Counting equal canonical texts decides equality of values: adding needs an absent element, removing exactly one occurrence |
| `DraftPatch.CheckValue` | internal/ai/patch/decode.go:199-225 | The value at a path has the scoped type, collections are edited unambiguously, the schema check passes; a refusal carries the code of the first check that failed |
| `DraftPatch.ValidateOperations` | internal/ai/patch/decode.go:183-231 | The loop accepts exactly when ordinals and paths are all different, ordinals stay within the count and every operation is in scope; a refusal carries the code of the first fault, in source order, of the first faulty operation |
| `DraftPatch.ValidateTarget` | internal/ai/patch/decode.go:179-235 | A target is accepted exactly when it is known, unchanged, non-empty and its operations are |
| `DraftPatch.ValidateScope` | internal/ai/patch/decode.go:166-242 | No error if and only if the patch is accepted as specified; otherwise the code is that of the first fault of the first refused operation of the first refused target |
| `DraftPatch.RefusalIsDetermined` | internal/ai/patch/decode.go:166-242 | A patch and a scope have at most one refusal code, and none if the patch is accepted |
| `DraftPatch.RefusalsAreExplained` | internal/ai/patch/decode.go:166-242 | Every refusal code tells the truth: about the form of the patch, a target, or one operation, code by code |
| `DraftPatch.OrdinalsAreContiguous` | internal/ai/patch/decode.go:183-235 | Accepted ordinals are exactly one to the number of operations, in every target |
| `DraftPatch.AcceptedIsInScope` | internal/ai/patch/decode.go:166-242 | Every accepted operation is allowed by the frozen input on that entity, version and path, avoids forbidden paths and cites known evidence |
| `DraftPatch.EditsByPlaces` | internal/ai/patch/decode.go:347-367 | An edit is unambiguous if and only if an added value is at no place of the collection, or a removed one at exactly one |
| `DraftPatch.TypesByText` | internal/ai/patch/decode.go:313-345 | The type of a value can be read off the first character of its canonical text |
| `DraftPatch.AcceptedEdits` | internal/ai/patch/decode.go:183-231 | Every accepted replacement has the type of its path; every accepted edit adds an absent element or removes one from its only place |
| `DraftNormal.AcceptanceIgnoresOrder` | internal/ai/patch/decode.go:166-242 | Validity and acceptance are invariant under permuting targets, operations and evidence |
| `DraftNormal.OperationOrder` | internal/ai/patch/decode.go:249-255 | The sort key orders operations by path and then by ordinal |
| `DraftNormal.NormalizeOperation` | internal/ai/patch/decode.go:256-261 | Evidence comes out ascending |
| `DraftNormal.NormalizeTarget` | internal/ai/patch/decode.go:247-262 | Operations come out in path and ordinal order although the sort is unstable |
| `DraftNormal.Normalize` | internal/ai/patch/decode.go:244-265 | The normal form, level by level |
| `DraftNormal.NormalIsRearranged` | internal/ai/patch/decode.go:244-265 | Normalizing changes order only |
| `DraftNormal.AnySortOfOperations` | internal/ai/patch/decode.go:248-255 | Any sort of the operations of any rearrangement gives the same normal operations |
| `DraftNormal.AnySortOfTargets` | internal/ai/patch/decode.go:246 | The same for targets |
| `DraftNormal.NormalFormIsUnique` | internal/ai/contract/canonical.go:351-372 | Two valid patches have the same normal form if and only if one is a rearrangement of the other |
| `DraftNormal.NormalIsIdempotent` | internal/ai/patch/decode.go:244-265 | Normalizing again changes nothing |
| `DraftHash.BytesAreContent` | internal/ai/contract/canonical.go:351-372 | Canonical bytes are equal if and only if the patches are rearrangements of each other |
| `DraftHash.HashIgnoresIdentity` | internal/ai/contract/canonical.go:374-377 | The hash is the same for patches that differ in id, stored hash and order only |
| `DraftHash.PatchReads` | internal/ai/contract/types.go:493-502 | The canonical bytes of a patch list exactly its members, by name and in order |
| `DraftHash.HashedReads` | internal/ai/contract/canonical.go:374-377 | What is hashed lists the same members without the id and the stored hash |
| `DraftHash.OperationReads` | internal/ai/contract/types.go:444-450 | The text of an operation lists its five members |
| `DraftHash.TargetReads` | internal/ai/contract/types.go:469-474 | The text of a target lists its four members |
| `DraftHash.BaseReads` | internal/ai/contract/types.go:215-224 | The text of the frozen base lists its eight members |
| `DraftHash.HashIsOfTheDomain` | internal/ai/contract/canonical.go:475-490 | The hash is taken of the draft-patch domain, a zero byte and that text |
| `DraftHash.HashIsContent` | internal/ai/contract/canonical.go:475-490 | If the two hashed texts do not collide, hashes are equal if and only if the content is |
| `DraftHash.HashPatch` | internal/ai/contract/canonical.go:374-377 | The hash as it is computed, refusals included |
| `DraftHash.PatchBytes` | internal/ai/contract/canonical.go:351-372 | The canonical bytes as they are computed, refusals included |
| `DraftHash.Stored` | internal/ai/patch/decode.go:154-163 | The stored hash is a fixed point: hashing the stored patch gives it again |
| `DraftHash.DecodeV1` | internal/ai/patch/decode.go:125-164 | Success if and only if identities match, the patch is accepted and has canonical bytes; the result is a normal, accepted rearrangement whose stored hash is its own hash and whose bytes are canonical |

## Left out

- Tarjan.Components: one search serves both copies in the repository. The formula copy emits its findings inside the search; here they are built from the finished components and then sorted, as there.
- EventLoops.UnboundedEventLoops: takes edges as given; their extraction from rules, whose two ends use different naming, is not part of this model.
- FormulaSpelling.SourceRoundTrip: spells with one space after each lexeme; other white space is covered by the tiling only. Trees with the inequality operator have no source text at all, which SourceAvoidsInequality states.
- FormulaSoundness.OnlyNumericIssues: assumes numeric operands and total rounding, because inference does not imply them.
- FormulaCompile.CompileFormulaBindings: formula and tree hashes are functions of the recorded expression and tree and are not computed; encoding a tree to JSON does not fail here.
- JobProtocol.CommitEffect: admission, identifiers, clocks and event publication are not part of the state.
- JobProtocol.Controller.SealPatch: the format of the patch identifier is not checked, because the UUID parser is a library outside the repository.
- Cancellation.StepKeeps: goroutines are interleaved atomic steps, one per durable read, commit or locked region. Settling through the coordinator is the controller's transition followed by a release.
- Cancellation.AcceptedBeforeCancellation: publishing the late-result event is not modelled.
- RepairLineage.RepairController.constructor: the check that the input hash belongs to the first manifest, and the format checks of manifests, are not modelled.
- RepairLineage.RepairController.HandleFailure: whether the response is well sealed, the classified failure and the size of the instruction arrive as inputs of the call.
- SingleFlight.RuntimeActionHandler.Enter: an effect that panics, and the registry of actions in front of the handler, are not modelled.
- ProjectManager.Manager.Install: the recent list, selection dialogs and closing another instance are not modelled; their outcomes are inputs. Whether a session can act after its release is not claimed, as the other session operations do not check for it.
- CanonicalJson.WriteCanonical: marshalling Go values and decoding JSON text are not modelled; values are decoded trees.
- DraftPatch.CheckValue: the JSON schemas of values are functions of the scope, because the schema validator is a library outside the repository.
- DraftPatch.ValidateScope: the list of forbidden paths is a function of the scope.
- DraftHash.DecodeV1: starts from the decoded members; size limits, duplicate members and unknown fields are rejected before that.
- SQL statements, HTTP routing, provider and graph clients, files, dialogs, process supervision and the web client are input and output around the modelled parts.
- Redaction, path safety and credentials, stack-rule checks, package assembly and capability projections are separate from the parts above and are not modelled.
