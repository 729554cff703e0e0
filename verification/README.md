# Verified models of a Datalog engine, a crawler and their plumbing

A Dafny project that models five parts of the repository and proves what they are for. Each module
follows one component; `dafny verify dfyconfig.toml` checks everything.

- **The stratified Datalog engine** (`Solver`, `Semantics`, `Formulas`, `Stratification`,
  `StrataCap`, `Derivation`, `Strata`, `Program`, `RoundCap`) and **its reader** (`SExprs`, `Lexer`,
  `Numerals`, `Reader`, `Loader`). The solver is modelled branch by branch, against an independent
  meaning of rule bodies (`Semantics.Sat`) and of the formulas that they spell (`Formulas.Holds`).
  Well-moded bodies are those where `not` meets bound variables only, `=` has a bound side, and
  `exists` quantifies fresh names that cover what its operand leaves unbound; for them the engine
  computes least models stratum by stratum. The closure of the final facts, the bounds and the frame
  property hold for all bodies.
- **The crawler's state machines** (`Sorting`, `Frontier`, `Workers`, `GraphStore`, `Discovery`,
  `UrlNormal`). A `Scheduler` method is one stretch of a worker between two suspensions, so that any
  sequence of calls is an interleaving; what holds of every reachable state is its `Valid`.
- **The model filter** (`Glob`, `FilterRules`, `FilterEngine`): pruning by coverage and caching
  agree with the simple things they speed up.
- **The WebSocket side** (`WsCodec`, `WsAssembly`, `WsPacked`): frames per sections 5.2 to 5.4 of
  RFC 6455, fragments, out-of-order chunks, and packed messages with a key table. Bytes are the
  numbers below 256; exclusive or and the header bits are written as arithmetic.
- **Benchmark scores** (`Scoring`), over real numbers.

`Wrappers` and `Basics` hold what several of them share.

Where the code does not meet a property one would expect, the property is stated with the exact
condition under which it does, next to an input that shows the difference:

- strata beyond the pass cap: `StrataCap.CapSufficesIff` with `StrataCap.ChainOutruns`;
- facts beyond the other cap: `RoundCap.MissingSufficesIff` with `RoundCap.LadderCaps`;
- the backoff that counts for the API gate: `Workers.CurrentBackoffRespected` and
  `Workers.BackoffIgnored`;
- redirects and canonical links at the node cap: `Discovery.Weaver.RecordRedirect` with
  `Discovery.RedirectLeadsNowhere`, and `Discovery.Weaver.RecordCanonical` with
  `Discovery.CanonicalLeadsNowhere`;
- edge identifiers when a server's content type has a bar in it: `Graph.ContentEdgesClashIff` and
  `Discovery.Weaver.RecordContent` with `Discovery.ContentEdgeLost`; no other edges clash,
  `Graph.LinkEdgeUnique`;
- filter patterns with blanks around them: `FilterRules.CallerMergeFaithfulIff` with
  `FilterRules.PaddedNameLost`, and `FilterRules.SmartMergeAntichainIff` with
  `FilterRules.PaddedNameCovers`. The input fields strip what they pass on
  (model_filter_gui.py:1239 and 2610-2613), the context menu passes a model's name as it is
  (model_filter_gui.py:3479-3493);
- parameters that compare as equal: `UrlNormal.OrderInsensitiveIffTieFree` with
  `UrlNormal.TiedEitherWay`;
- timeouts inside a frame: `WsCodec.PatientReadsIff` and `WsCodec.ReadOnIff` with
  `WsCodec.TimeoutMisreads`;
- what comes between fragments: `WsAssembly.DeliveredIff` with `WsAssembly.PongLosesText`;
- values and keys that JSON does not have in packed messages: `WsPacked.MessageRoundTrip`
  with `WsPacked.OneShadowsOne`.

## Model

| member | source | states |
|---|---|---|
| `Semantics.UnifySound` | artifacts/python/eta_mu_lisp_datalog.py:159-179 | A unifier keeps the environment, binds exactly the pattern's variables besides, and makes pattern and datum equal. |
| `Semantics.UnifyComplete` | artifacts/python/eta_mu_lisp_datalog.py:159-179 | If any valuation above the environment makes pattern and datum equal, unification succeeds and that valuation extends its result. |
| `Semantics.SolveSound` | artifacts/python/eta_mu_lisp_datalog.py:182-250 | For a well-moded body every environment yielded extends the input, binds just the body's variables, and satisfies the body under an independent meaning of bodies. |
| `Semantics.SolveComplete` | artifacts/python/eta_mu_lisp_datalog.py:182-250 | Every valuation that extends the input and satisfies a well-moded body extends some environment yielded. |
| `Formulas.FormulaMeans` | artifacts/python/eta_mu_lisp_datalog.py:147-271 | A body means what the formula that it spells does: conjunction, negation, equation, quantifier or atom by its leading word and its parts; anything else is never true. |
| `Formulas.FormulaOf` | artifacts/python/eta_mu_lisp_datalog.py:133-157 | Every tree spells a formula. |
| `Semantics.SolveExistsIff` | artifacts/python/eta_mu_lisp_datalog.py:230-241 | A well-moded `exists` is a test: it yields its input unchanged if it holds, and otherwise nothing. |
| `Semantics.UnboundEquationUnlinked` | artifacts/python/eta_mu_lisp_datalog.py:206-228 | An equation between two unbound variables succeeds without linking them: its one answer extends to valuations under which it is false. |
| `Semantics.ExistsKeepsInput` | artifacts/python/eta_mu_lisp_datalog.py:233-240 | The answer of `exists` extends its input if and only if none of the quantified names was bound before. |
| `Semantics.SatMonotone` | artifacts/python/eta_mu_lisp_datalog.py:182-250 | A body stays true when facts are added, as long as those read below `not` stay. |
| `Semantics.SatSameNegatives` | artifacts/python/eta_mu_lisp_datalog.py:253-271 | Below `not` a body depends only on predicates that the dependency list marks negative, nested `not` included. |
| `Solver.SolveReadsOnlyDeps` | artifacts/python/eta_mu_lisp_datalog.py:182-271 | Solving gives the same answers over any two fact indexes that agree on the predicates in the dependency list, `not` and `exists` included. |
| `Solver.DepsIff` | artifacts/python/eta_mu_lisp_datalog.py:253-271 | The dependency list marks a predicate negative, or positive, if and only if a path through operands leads to it that passes, or does not pass, a `not`. |
| `Stratification.Stratify` | artifacts/python/eta_mu_lisp_datalog.py:274-290 | The nested loops compute what the lemmas below are about, and whether they left by the pass that changed nothing. |
| `Stratification.StratifyLeast` | artifacts/python/eta_mu_lisp_datalog.py:274-290 | Leaving by a pass without change, the stratifier returns the pointwise least stratification, whatever the number of predicates. |
| `Stratification.StratifyConverges` | artifacts/python/eta_mu_lisp_datalog.py:276-289 | If a stratification exists, up to 256 head predicates end with that exit, and up to 257 end with the least stratification. |
| `Stratification.StratifiableIffNoCycle` | artifacts/python/eta_mu_lisp_datalog.py:274-290 | A stratification exists if and only if no dependency cycle passes through negation. |
| `Stratification.StratifyExact` | artifacts/python/eta_mu_lisp_datalog.py:277-289 | With at most 256 head predicates the exit without change is reached if and only if no cycle passes through negation. |
| `Stratification.LeastStratificationUnique` | artifacts/python/eta_mu_lisp_datalog.py:274-290 | Rule lists with the same members have the same least stratification. |
| `StrataCap.ChainOutruns` | artifacts/python/eta_mu_lisp_datalog.py:277-290 | A chain of n predicates, each the negation of the one before, has n heads and a stratification; for any cap below n the run ends without a pass that changes nothing, and for one below n - 1 with strata that are none. The cap of the stratifier is 256. |
| `StrataCap.CapSufficesIff` | artifacts/python/eta_mu_lisp_datalog.py:274-290 | For any cap: all stratifiable rules with n head predicates get their least stratification if and only if n is at most the cap plus one; for any positive cap they end with a pass that changes nothing if and only if n is at most the cap. |
| `Derivation.RunGrows` | artifacts/python/eta_mu_lisp_datalog.py:299-303 | Deriving facts only adds facts, and only of the predicates the rules define. |
| `Derivation.ActiveDomainBounds` | artifacts/python/eta_mu_lisp_datalog.py:315-339 | Every fact derived is made of constants of the initial facts and the rules, and a run has no more steps than there are such facts still missing. |
| `Derivation.ClosureIsLeastModel` | artifacts/python/eta_mu_lisp_datalog.py:308-339 | A run that ends closed has the least fact set that contains the earlier facts and is closed under the rules of the stratum. |
| `Derivation.LeastModelUnique` | artifacts/python/eta_mu_lisp_datalog.py:308-339 | There is one least set, whatever the order and multiplicity of the rules. |
| `StrataRuns.ComputesPerfectModel` | artifacts/python/eta_mu_lisp_datalog.py:308-339 | A run through ascending strata computes the least model of each stratum over what came before. |
| `StrataRuns.OrderIrrelevant` | artifacts/python/eta_mu_lisp_datalog.py:308-339 | Two completed evaluations of the same rules over the same facts, each in any order, end with the same facts. |
| `StrataRuns.FinalFactsClosed` | artifacts/python/eta_mu_lisp_datalog.py:308-339 | With converged strata and no cap hit the final facts are closed under every rule, also rules with `not` or `exists` last evaluated long before later strata ran. |
| `StrataRuns.FinalFactsAreSupportedModel` | artifacts/python/eta_mu_lisp_datalog.py:308-339 | The final facts are a model of all rules at once, negation read in the final facts, and each derived one has a rule instance that holds in them. |
| `Evaluation.Program.AddFact` | artifacts/python/eta_mu_lisp_datalog.py:299-303 | Adds a fact once, at the end of its predicate's list; a fact that cannot be hashed raises and changes nothing. |
| `Evaluation.Program.Query` | artifacts/python/eta_mu_lisp_datalog.py:341-342 | Exactly the facts of the predicate, each once. |
| `Evaluation.Program.Derive` | artifacts/python/eta_mu_lisp_datalog.py:321-337 | Adds at most the fact whose arguments are the values of the head's terms, in order, under an answer; an unbound head variable skips it, an unhashable argument raises. |
| `Evaluation.Program.HeadArgs` | artifacts/python/eta_mu_lisp_datalog.py:321-333 | The values of the head's terms, in order; none if and only if one of them is unbound. |
| `Evaluation.Program.Fire` | artifacts/python/eta_mu_lisp_datalog.py:319-337 | Firing a rule derives only what it can derive; without a change, or with a single-literal body even with changes, the facts are closed under it afterwards. |
| `Evaluation.Program.FireLiteral` | artifacts/python/eta_mu_lisp_datalog.py:243-250 | A single-literal body walks the very list its head is appended to; it ends, and the facts are then closed under the rule. |
| `Evaluation.Program.RunStratum` | artifacts/python/eta_mu_lisp_datalog.py:314-339 | Without a cap the stratum ends closed; hitting the cap means exactly 1024 passes, each of which added a fact. |
| `Evaluation.Program.Run` | artifacts/python/eta_mu_lisp_datalog.py:308-339 | The whole evaluation: it goes through the strata pass by pass, at most 1024 that add facts in each; a completed one is a run through all strata, and closed if they converged; every fact stays in the active domain; a cap needs 1024 possible facts missing at the start. |
| `RoundCap.MissingSufficesIff` | artifacts/python/eta_mu_lisp_datalog.py:308-339 | With n possible facts missing at the start, evaluation never hits the cap if and only if n is below 1024; and, with converged strata, always ends closed under all rules if and only if n is at most 1024. |
| `RoundCap.LadderCaps` | artifacts/python/eta_mu_lisp_datalog.py:315-339 | Rules that each read the fact of the one behind them make a pass add one fact only: with 1024 of them or more evaluation stops at the cap, with more than that too early. |
| `Loader.LoadMuProgram` | artifacts/python/eta_mu_lisp_datalog.py:345-379 | Loading fails exactly for text that does not read and for facts that cannot be hashed, and otherwise holds exactly the facts that some form states, and the rules that the forms state, in their order. |
| `Loader.CompileFactIff` | artifacts/python/eta_mu_lisp_datalog.py:345-353 | A form compiles to a fact if and only if it spells the predicate and, in order, the arguments of the fact. |
| `Loader.CompileRuleIff` | artifacts/python/eta_mu_lisp_datalog.py:356-365 | A form compiles to a rule if and only if it spells its head, with the words for variables as variables, and has its body. |
| `Loader.LoadPrinted` | artifacts/python/eta_mu_lisp_datalog.py:345-379 | Loading the printed form of any facts and rules, in any layout, gives exactly those facts and those rules. |
| `Loader.SourceOrderIrrelevant` | artifacts/python/eta_mu_lisp_datalog.py:345-379 | Two source texts with the same forms, in any order and layout, evaluate to the same facts. |
| `Lexer.Tokenize` | artifacts/python/eta_mu_lisp_datalog.py:23-65 | The scanning loops produce the tokens that the lexical grammar of the lemmas below gives, or its error. |
| `Lexer.SpacesAre` | artifacts/python/eta_mu_lisp_datalog.py:23-65 | The 29 characters that are blanks, as Python has them. |
| `Lexer.LexRender` | artifacts/python/eta_mu_lisp_datalog.py:23-65 | Tokenizing a text laid out with any blanks and comments between tokens gives back exactly the tokens, strings unescaped. |
| `Reader.ParseAll` | artifacts/python/eta_mu_lisp_datalog.py:79-105 | The parser with its moving position returns the trees of the token grammar, or its error. |
| `Reader.AtomIff` | artifacts/python/eta_mu_lisp_datalog.py:68-76 | A token is a string between quotes, otherwise the integer or else the float that it spells, otherwise a symbol. |
| `Reader.ParseIffBalanced` | artifacts/python/eta_mu_lisp_datalog.py:79-105 | Parsing succeeds on a token list if and only if its parentheses balance. |
| `Reader.ReadUndoesPrint` | artifacts/python/eta_mu_lisp_datalog.py:23-105 | Reading undoes printing for every forest of well-formed symbols, numbers and arbitrary strings, in every layout. |
| `Reader.ReadIsStable` | artifacts/python/eta_mu_lisp_datalog.py:23-105 | Whatever a text reads as can be printed, and any printing of it reads as the same again. |
| `Reader.PlainLayout` | artifacts/python/eta_mu_lisp_datalog.py:23-105 | Every printable forest has a layout, so that the round trip is never empty. |
| `Numerals.PrintIntReads` | artifacts/python/eta_mu_lisp_datalog.py:68-76 | Every integer in decimal reads back as itself and is never taken for a symbol or a float. |
| `Numerals.IntIff` | artifacts/python/eta_mu_lisp_datalog.py:68-76 | Integers are digits behind an optional sign, and negative behind a minus. |
| `Numerals.DigitsValueIff` | artifacts/python/eta_mu_lisp_datalog.py:68-76 | Digits have a value if and only if, but for underscores and leading zeros, they are how it is printed. |
| `Numerals.FloatIff` | artifacts/python/eta_mu_lisp_datalog.py:68-76 | Floats have an optional sign, digits with a point in front, behind, between or not at all, and an optional exponent. |
| `Glob.GlobMatchIff` | docker-llm-proxy/src/proxy_app/model_filter_gui.py:287-310 | A text matches a pattern if and only if it falls into pieces, one for each character of the pattern: anything for a star, any one character for a question mark, the character itself otherwise. |
| `Glob.CoverageSound` | docker-llm-proxy/src/proxy_app/model_filter_gui.py:312-347 | Every string that matches a pattern matches all patterns that the coverage test says cover it. |
| `Glob.CoverageExact` | docker-llm-proxy/src/proxy_app/model_filter_gui.py:312-347 | Between literals and literal prefixes the test holds if and only if one pattern's strings are all matched by the other. |
| `Glob.PrefixPatternIff` | docker-llm-proxy/src/proxy_app/model_filter_gui.py:312-347 | These are the literals, and the literals with a star behind them. |
| `Glob.CoverageTransitive` | docker-llm-proxy/src/proxy_app/model_filter_gui.py:312-347 | Coverage is transitive, so that pruning by it never loses a chain of covers. |
| `Glob.PaddedCoverage` | docker-llm-proxy/src/proxy_app/model_filter_gui.py:312-347 | A pattern with blanks around it, found covered by a prefix pattern, is still covered after stripping if and only if the stripped text is as long as the prefix. |
| `FilterRules.NameAddFaithfulIff` | docker-llm-proxy/src/proxy_app/model_filter_gui.py:3479-3493 | One smart add of a name without wildcards, blanks around it or not, matches the same models as keeping it too, if and only if it is not skipped, nothing is left of it, or its stripped form is matched by an existing pattern; if it has a slash, a few test names under providers decide. |
| `FilterRules.CallerMergeFaithfulIff` | docker-llm-proxy/src/proxy_app/model_filter_gui.py:3272-3298 | Over any run of what the callers pass, patterns without blanks around them and names without wildcards, the models matched stay those of a list that keeps every pattern if and only if each skipped name passes that test. |
| `FilterRules.SmartMergeFaithfulIff` | docker-llm-proxy/src/proxy_app/model_filter_gui.py:3272-3298 | Over any run of any patterns, padded ones with wildcards included, that is so if and only if what is left of each skipped pattern is matched already. |
| `FilterRules.StrippedRunFaithful` | docker-llm-proxy/src/proxy_app/model_filter_gui.py:2608-2623 | Patterns without blanks around them, all that the input fields pass on, are never such a loss. |
| `FilterRules.SmartMergeFaithful` | docker-llm-proxy/src/proxy_app/model_filter_gui.py:3272-3298 | After such a run the models matched are those of the list that kept every pattern. |
| `FilterRules.NameKnownIff` | docker-llm-proxy/src/proxy_app/model_filter_gui.py:287-310 | All models of a name are matched already if and only if an existing pattern matches the name itself, or, with a slash in it, its model and finitely many of it under providers spelt with a character of no pattern. |
| `FilterRules.SmartAddAntichainIff` | docker-llm-proxy/src/proxy_app/model_filter_gui.py:3272-3298 | A smart add leaves no pattern covered by another if and only if the pattern has no blanks around it, is skipped, or its stripped form is nothing new or stands apart from all others. |
| `FilterRules.SmartMergeAntichainIff` | docker-llm-proxy/src/proxy_app/model_filter_gui.py:3272-3298 | Over any run of smart adds no pattern ever covers another if and only if every step is of that kind, as all steps without blanks are. |
| `FilterRules.PaddedNameLost` | docker-llm-proxy/src/proxy_app/model_filter_gui.py:3479-3493 | Adding the model "p/a " from the context menu beside "a *" loses models: its name is skipped, its stripped name is new. |
| `FilterRules.PaddedNameCovers` | docker-llm-proxy/src/proxy_app/model_filter_gui.py:3479-3493 | Adding the model "p/a* " beside "ab" leaves "ab" covered by "a*". |
| `Filtering.ChargedToFirstMatch` | docker-llm-proxy/src/proxy_app/model_filter_gui.py:375-404 | A model is whitelisted, ignored or normal as the patterns say, whitelist first, and charged to the first rule that matches. |
| `Filtering.CountsAddUp` | docker-llm-proxy/src/proxy_app/model_filter_gui.py:412-452 | Available models and the charges of the ignore rules add up to all models. |
| `Filtering.FilterEngine.AddRule` | docker-llm-proxy/src/proxy_app/model_filter_gui.py:231-267 | Adds the stripped pattern as a new rule unless it is empty or there already, and then drops the cache. |
| `Filtering.FilterEngine.RemoveRule` | docker-llm-proxy/src/proxy_app/model_filter_gui.py:269-285 | Removes the one rule with the pattern and drops the cache, or changes nothing. |
| `Filtering.FilterEngine.AddPattern` | docker-llm-proxy/src/proxy_app/model_filter_gui.py:3272-3328 | The interface's add is the smart merge, or the plain add when the coverage check is skipped; the other list is untouched. |
| `Filtering.FilterEngine.RebuildCache` | docker-llm-proxy/src/proxy_app/model_filter_gui.py:412-434 | After a rebuild every model is cached with its status and charged to its first matching rule in order, and the counts add up. |
| `Filtering.FilterEngine.GetAllStatuses` | docker-llm-proxy/src/proxy_app/model_filter_gui.py:436-440 | For any list passed, cached or not, the answers are the recomputed ones. |
| `Filtering.FilterEngine.GetModelStatus` | docker-llm-proxy/src/proxy_app/model_filter_gui.py:406-410 | A cached answer is the recomputed one. |
| `Filtering.FilterEngine.GetAvailableCount` | docker-llm-proxy/src/proxy_app/model_filter_gui.py:448-452 | Recomputes the counts exactly when the cache is invalid. |
| `Sorting.StableSortUnique` | part64/code/web_graph_weaver.js:1269-1276 | There is only one sorted order that keeps equals as they were, so that the sort used does not matter. |
| `Sorting.SortStable` | part64/code/web_graph_weaver.js:1269-1276 | Items with the same ready time and priority keep their insertion order. |
| `Sorting.SortHead` | part64/code/web_graph_weaver.js:1280-1289 | The head of the sorted list is the least item, the earliest of equals, and the tail is the sort of the others. |
| `Frontier.FrontierQueue.Push` | part64/code/web_graph_weaver.js:1262-1278 | Refuses items without a URL or already queued; otherwise the queue holds the item besides, sorted, with its URL set exact. |
| `Frontier.FrontierQueue.PopReady` | part64/code/web_graph_weaver.js:1280-1289 | Returns an item if and only if one is ready, and then the one due first, of those due at the same time one of highest priority, of those the first pushed; everything else stays in order. |
| `Workers.AllSpacedOut` | part64/code/web_graph_weaver.js:2932-2938 | Of any two requests to the API the later one was let through at least the larger of the minimum delay and the earlier one's backoff after it. |
| `Workers.FewActive` | part64/code/web_graph_weaver.js:3066-3083 | Hosts with a request in flight are no more than the workers there are. |
| `Workers.Scheduler.HostStateFor` | part64/code/web_graph_weaver.js:1653-1667 | Finds or makes the entry; the table stays within its bound plus one and loses no entry with a request in flight. |
| `Workers.Scheduler.Prune` | part64/code/web_graph_weaver.js:1669-1692 | Leaves the table without its oldest idle entries, at the trim target; the second pass, which would evict entries in use, never does anything. |
| `Workers.Scheduler.Tick` | part64/code/web_graph_weaver.js:2512-2943 | One round of the scheduling loop up to the first suspension: the branch taken, from host limit and crawl delay to the gate, what a request charged to the gate leaves behind, and what stays; four clock readings in turn. |
| `Workers.Scheduler.PolicyArrived` | part64/code/web_graph_weaver.js:2602-2641 | The page request is charged after the wait for the policy, whatever happened in between. |
| `Workers.FailuresDouble` | part64/code/web_graph_weaver.js:2683-2690 | Failures in a row double the backoff from the larger of its least and its first value until it stays at the cap, within both bounds. |
| `Workers.SuccessesDecay` | part64/code/web_graph_weaver.js:2683-2690 | Answers without failure in a row leave the backoff divided by two to their number, rounded down: nothing after as many as it has binary digits. |
| `Workers.Scheduler.Finished` | part64/code/web_graph_weaver.js:3057-3063 | The request's charge on its host, and on the gate for an API request, is taken back once and never below zero. |
| `Workers.Scheduler.Retire` | part64/code/web_graph_weaver.js:3066-3083 | A settled worker gives its place back. |
| `Workers.Scheduler.Start` | part64/code/web_graph_weaver.js:3085-3137 | Concurrency is clamped to 24 and the per-host limit to 12, with workers of an earlier crawl still counted. |
| `Workers.GateReopens` | part64/code/web_graph_weaver.js:2913-2938 | In every reachable state after a first request, the next one of any host is let through if and only if none is in flight, its host has room and no delay, and the gap due at the last one has passed. |
| `Workers.DecidedIff` | part64/code/web_graph_weaver.js:2553-2943 | In every reachable state and for every request: a page waits for its policy if and only if its host has room and no delay; a search is sent if and only if, besides, its query is proper, no request is in flight and the gap is over; and everything put off is put off to a later time. |
| `Workers.CurrentBackoffRespected` | part64/code/web_graph_weaver.js:2932-2976 | In every reachable state after a first request, the next one of a host keeps the distance that its current backoff asks for, whenever from now on it is let through, if and only if none can be let through for now, or the backoff is within the gap already due, or the delay of its host covers it, or it is over. |
| `Workers.BackoffIgnored` | part64/code/web_graph_weaver.js:2932-2976 | A run of the scheduler in which a host is asked 3100 after the last request although its backoff is 6000: it answered 429, and another host was asked in between. |
| `Graph.NodeIdInjective` | part64/code/web_graph_weaver.js:1300-1306 | Node identifiers of different kinds or names never clash. |
| `Graph.LinkEdgeUnique` | part64/code/web_graph_weaver.js:1300-1306 | Edges between normalised URLs, and from one to a domain, never share an identifier, bars in the URLs or not. |
| `Graph.ContentEdgesClashIff` | part64/code/web_graph_weaver.js:2742-2747 | The edges of two pages to their content types share an identifier if and only if they are the same, or one URL goes on from the other with a content node behind a bar whose rest the other content type spells out. |
| `Graph.LinkEdgeIsThere` | part64/code/web_graph_weaver.js:1426-1441 | In a graph of such edges a link edge whose identifier is taken is there itself. |
| `Graph.GraphStore.InsertNode` | part64/code/web_graph_weaver.js:1308-1320 | The URL node count equals the number of URL nodes and passes no cap there has been; only URL nodes are refused. |
| `Graph.GraphStore.UpsertUrl` | part64/code/web_graph_weaver.js:1352-1389 | Rejected if and only if new at the cap; what is reported as created is exactly what is new. |
| `Graph.GraphStore.UpsertEdge` | part64/code/web_graph_weaver.js:1426-1441 | An edge keeps the graph free of loose ends if and only if it was there already or both its ends are nodes. |
| `Graph.GraphStore.SetCap` | part64/code/web_graph_weaver.js:3137-3137 | A lower cap drops nothing; the bound is the highest cap there has been. |
| `Discovery.Weaver.EnqueueUrl` | part64/code/web_graph_weaver.js:2387-2473 | The outcome in the order of the checks; refused URLs change nothing, pushing never fails, and no loose edge comes about, at the cap too and whatever edges there were before; the new node has the depth and source it was found with, is queued, and nothing else changes; what is new is announced with the reason. |
| `Discovery.Weaver.IngestSemanticReferences` | part64/code/web_graph_weaver.js:2278-2370 | Every usable reference becomes an edge unless the cap refuses its target; no loose edge comes about. What is queued comes from references that ask for it, are not marked nofollow and have depth left, with this page as source and one more depth; the target of each such reference is queued afterwards, or in flight, cooling down or refused by the cap. |
| `Discovery.TargetIff` | part64/code/web_graph_weaver.js:2287-2295 | A reference leads to where its address, as it stands in the page, is normalised to, unless that is nowhere or the page itself. |
| `Discovery.Weaver.TakeItem` | part64/code/web_graph_weaver.js:1280-1289 | What comes out of the queue is a node of the graph, and so is its source, as linking from it needs. |
| `Discovery.Weaver.ActivateNode` | part64/code/web_graph_weaver.js:1803-1877 | What touching a node comes to, in the order of the checks: cooldown, threshold, then those of the queue; it is queued again exactly if these let it, with the source and depth recorded for it; its rounded potential and its count rise, it pays the threshold when queued, and no loose edge comes about. |
| `Discovery.PotentialBounds` | part64/code/web_graph_weaver.js:1803-1877 | A raised potential stays within its bounds after rounding, and rounding moves it by at most half a unit. |
| `Discovery.TouchAdds` | part64/code/web_graph_weaver.js:1803-1877 | A touch adds its delta, 0.35 if none is given, to the potential within its bounds; that sum decides whether the node is ripe, and what is left after paying is rounded. |
| `Discovery.CooldownIff` | part64/code/web_graph_weaver.js:1731-1741 | Time is left if and only if the URL is a node whose cooldown ends that much later. |
| `Discovery.CooldownSet` | part64/code/web_graph_weaver.js:1391-1411 | Setting a cooldown blocks the URL until then, and no other. |
| `Discovery.Weaver.RecordRedirect` | part64/code/web_graph_weaver.js:2662-2681 | A redirect adds a loose edge if and only if its target is another URL, new, at the cap, and the edge is new. |
| `Discovery.RedirectLeadsNowhere` | part64/code/web_graph_weaver.js:2662-2681 | With room for one page, that page queued and redirected to any other, the graph has a loose edge. |
| `Discovery.Weaver.RecordCanonical` | part64/code/web_graph_weaver.js:2775-2794 | The same for the canonical link of a page. |
| `Discovery.CanonicalLeadsNowhere` | part64/code/web_graph_weaver.js:2775-2794 | And a run that ends with such an edge. |
| `Discovery.Weaver.RecordContent` | part64/code/web_graph_weaver.js:2742-2752 | The content type becomes a node, and the page is joined to it if and only if no content edge in the graph overlaps with the new one. |
| `Discovery.ContentEdgeLost` | part64/code/web_graph_weaver.js:2742-2752 | Two pages of one host, the first with a bar in its content type and the second with one in its path: the second is not joined to its content type. |
| `UrlNormal.NormalPathSpelling` | part64/code/web_graph_weaver.js:264-269 | The normal path is spelt by the nonempty names between slashes, and by nothing else. |
| `UrlNormal.SameNormalPath` | part64/code/web_graph_weaver.js:264-269 | Two paths have the same normal form if and only if they have the same names in the same order. |
| `UrlNormal.NormalPathIdempotent` | part64/code/web_graph_weaver.js:264-269 | Normalising a path again changes nothing. |
| `UrlNormal.AnySortAgrees` | part64/code/web_graph_weaver.js:270-279 | If different strings never compare as equal, a list is a sorted permutation of the parameters if and only if it is the one computed, whatever the sorting algorithm. |
| `UrlNormal.ConsistentIff` | part64/code/web_graph_weaver.js:270-275 | The comparison passed to the sort is consistent, as JavaScript asks, if and only if no two different strings compare as equal or all do. |
| `UrlNormal.StableSortAgrees` | part64/code/web_graph_weaver.js:270-279 | For a consistent comparison the sort computed here is the only stable one, as JavaScript promises its sort to be. |
| `UrlNormal.SortedAgain` | part64/code/web_graph_weaver.js:270-279 | Then sorting the sorted parameters again, by any stable algorithm, changes nothing. |
| `UrlNormal.OrderInsensitiveIffTieFree` | part64/code/web_graph_weaver.js:270-279 | The order in which parameters are given never matters if and only if different strings never compare as equal. |
| `UrlNormal.TiedEitherWay` | part64/code/web_graph_weaver.js:270-279 | Two parameters whose names compare as equal stay in the order in which they are given. |
| `UrlNormal.SortMultiset` | part64/code/web_graph_weaver.js:270-279 | No parameter gets lost or doubled. |
| `UrlNormal.SortAscends` | part64/code/web_graph_weaver.js:270-279 | If different strings never compare as equal, sorted parameters go up by name, and by value under the same name. |
| `UrlNormal.Url.Normalize` | part64/code/web_graph_weaver.js:249-284 | Normalising in place gives the normal parts for http and https, and refuses anything else unchanged. |
| `UrlNormal.NormalPartsIdempotent` | part64/code/web_graph_weaver.js:249-284 | Normalising a normalised address changes nothing. |
| `UrlNormal.SameNormalParts` | part64/code/web_graph_weaver.js:249-284 | Addresses normalise alike if and only if they agree up to the default port, empty names in the path and the order of parameters. |
| `WsCodec.WebsocketFrameText` | part64/scripts/bench_sim_ws_pipeline.py:66-78 | Writes the text frame of the codec, with the length code that its size calls for. |
| `WsCodec.SendWsControl` | part64/scripts/bench_sim_ws_pipeline.py:252-272 | Writes the masked control frame of the codec. |
| `WsCodec.MaskedTwice` | part64/scripts/bench_sim_ws_pipeline.py:245-258 | Masking twice with the same key gives the payload back. |
| `WsCodec.XorBitIff` | part64/scripts/bench_sim_ws_pipeline.py:245-258 | A bit of a masked byte is set if and only if it is set in the byte or in the key, and not in both. |
| `WsCodec.ValueLeads` | part64/scripts/bench_sim_ws_pipeline.py:66-78 | Of the bytes of a length the first counts most. |
| `WsCodec.HelloFrames` | part64/scripts/bench_sim_ws_pipeline.py:66-78 | The two frames of the text "Hello" in section 5.7 of RFC 6455, byte by byte. |
| `WsCodec.DecodeEncode` | part64/scripts/bench_sim_ws_pipeline.py:219-249 | Decoding an encoded frame gives back every field of it, at every length and whatever follows. |
| `WsCodec.EncodeDecode` | part64/scripts/bench_sim_ws_pipeline.py:219-249 | Encoding a decoded frame gives back the bytes if and only if the reserved bits are clear and the length is in its shortest form. |
| `WsCodec.TruncatedFrame` | part64/scripts/bench_sim_ws_pipeline.py:219-249 | No proper beginning of a frame is read as a frame. |
| `WsCodec.ReadFrameDecodes` | part64/scripts/bench_sim_ws_pipeline.py:204-249 | Reading from a socket decodes the bytes that come, in whatever pieces they come. |
| `WsCodec.FramesReadBack` | part64/scripts/bench_sim_ws_pipeline.py:66-272 | Frames written one after the other are read back as the same opcodes and payloads, however the bytes are split. |
| `WsCodec.Socket.RecvExact` | part64/scripts/bench_sim_ws_pipeline.py:204-216 | The receiving loop takes exactly the bytes asked for, or fails at a timeout or the end. |
| `WsCodec.Socket.ReadWsFrame` | part64/scripts/bench_sim_ws_pipeline.py:219-249 | The reader step by step, and what it leaves unread. |
| `WsCodec.ExactReadsIff` | part64/scripts/bench_sim_ws_pipeline.py:204-249 | This reader reads a frame that has come in whatever pieces if and only if no timeout comes before its last byte. |
| `WsCodec.Socket.RecvPatiently` | part64/scripts/homeostasis_soak_probe.py:97-111 | The other receiving loop sits out timeouts once the first byte has come. |
| `WsCodec.Socket.ReadWsFramePatiently` | part64/scripts/homeostasis_soak_probe.py:114-133 | The other reader step by step, and what it leaves unread. |
| `WsCodec.PatientReadsIff` | part64/scripts/homeostasis_soak_probe.py:97-133 | A frame that has come in whatever pieces and with whatever pauses is read if and only if no timeout comes where one of its parts begins; one before the frame takes nothing but itself. |
| `WsCodec.ReadOnIff` | part64/scripts/homeostasis_soak_probe.py:581-589 | Reading on after timeouts, all frames of an unmasked stream are read and nothing else if and only if none of them is interrupted where one of its parts begins. |
| `WsCodec.NoneLost` | part64/scripts/homeostasis_soak_probe.py:581-589 | Without such an interruption all frames are read, masked or not. |
| `WsCodec.MaskMisreadsTheSame` | part64/scripts/homeostasis_soak_probe.py:114-133 | A masked frame that is interrupted can be read by accident, its mask being taken for a frame that says the same. |
| `WsCodec.TimeoutMisreads` | part64/scripts/homeostasis_soak_probe.py:97-133 | After a timeout between the header and the payload of a text "hello", the next read takes its bytes for a header and returns a closing frame of 101 bytes. |
| `WsAssembly.FragmentReader.Receive` | part64/scripts/homeostasis_soak_probe.py:581-619 | One round of the monitor's loop on opcode, final bit and payload. |
| `WsAssembly.DeliveredIff` | part64/scripts/homeostasis_soak_probe.py:581-619 | For all sequences of frames: a frame behind no close delivers a message if and only if it is a whole text, or the last fragment of a text since whose first fragment there were only pings, whole texts and further fragments; and then exactly that. |
| `WsAssembly.PongLosesText` | part64/scripts/homeostasis_soak_probe.py:614-617 | A pong between two fragments loses a text that is delivered without it. |
| `WsAssembly.PingsAnswered` | part64/scripts/homeostasis_soak_probe.py:592-594 | Every ping before the first close is answered, in turn, with at most 125 bytes of it. |
| `WsAssembly.ClosedIsOver` | part64/scripts/homeostasis_soak_probe.py:590-591 | Behind a close nothing is handled any more. |
| `WsAssembly.Monitor` | part64/scripts/homeostasis_soak_probe.py:581-619 | The loop that reads from the socket, goes on after timeouts and ends at a close, has just the events of the frames read on. |
| `WsAssembly.ChunkReader.Record` | part64/scripts/homeostasis_soak_probe.py:496-546 | One chunk row against the buffers: the slot count is right, an entry has an empty slot, and there are at most 129 buffers. |
| `WsAssembly.FilledAll` | part64/scripts/homeostasis_soak_probe.py:525-536 | As many slots are filled as there are exactly when each one is, so that the second completeness test never fails. |
| `WsAssembly.StoreKeepsValid` | part64/scripts/homeostasis_soak_probe.py:496-546 | These invariants hold of every run. |
| `WsAssembly.ChunkedMessage` | part64/scripts/homeostasis_soak_probe.py:496-546 | A message in chunks is assembled in index order, once, when its last slot is filled and not before, whatever the order, duplicates and other messages in between. |
| `WsAssembly.IdsSufficeIff` | part64/scripts/homeostasis_soak_probe.py:510-511 | A set of identifiers is such that no buffer is ever thrown away, whatever chunks come under them, if and only if there are at most 128 of them. |
| `WsAssembly.ResetForgets` | part64/scripts/homeostasis_soak_probe.py:510-523 | Beyond that, or when a message changes its number of chunks, everything received of it is lost. |
| `WsPacked.UnpackPack` | part64/code/world_web/server.py:1476-1521 | Unpacking any packed value with any extension of the key table gives its survivor: non-finite numbers have become the string "0", other values and keys what is shown for them. |
| `WsPacked.PackedExample` | part64/code/world_web/server.py:1476-1521 | The packed form of one message with its tags, slots and key table in full. |
| `WsPacked.SettledIs` | part64/code/world_web/server.py:1502-1513 | Among keys shown alike, each is left once, where it is shown first, with what survives of the last value. |
| `WsPacked.MessageRoundTrip` | part64/scripts/bench_sim_ws_pipeline.py:81-131 | A client gets back the survivor of the object the server packed, and the object unchanged if and only if it holds finite numbers, no values but those of JSON, and strings for keys. |
| `WsPacked.NoMessage` | part64/scripts/bench_sim_ws_pipeline.py:114-123 | A list that is too short, or under another name than the schema's, is not a message. |
| `WsPacked.SurvivesIff` | part64/code/world_web/server.py:1476-1514 | A payload survives unchanged if and only if it is of that kind. |
| `WsPacked.OneShadowsOne` | part64/code/world_web/server.py:1502-1513 | With the keys 1 and "1" only the value of the second is left. |
| `WsPacked.DecodePackedNode` | part64/scripts/bench_sim_ws_pipeline.py:81-113 | The decoder with its loop over slots and values returns what the lemmas are about, or the exception of a bad flag. |
| `WsPacked.Packer.PackValue` | part64/code/world_web/server.py:1476-1514 | The encoder that fills table and index in place keeps every key in the table once and its index right. |
| `Scoring.NormalizeRange` | part64/scripts/benchmark_runner.py:813-837 | A normalized score is in the unit interval, for every goal and every list of values. |
| `Scoring.NormalizeMonotone` | part64/scripts/benchmark_runner.py:813-837 | A value at least as good for the goal has at least the score. |
| `Scoring.NormalizeIsAffine` | part64/scripts/benchmark_runner.py:813-837 | A value scores its share of the way from the worst value to the best or to the target, one if there is no way to go; clamping never cuts anything off. |
| `Scoring.NormalizeOrders` | part64/scripts/benchmark_runner.py:813-837 | Of two values of a criterion the first scores at least as much if and only if it is at least as good. |
| `Scoring.TotalIsWeightedMean` | part64/scripts/benchmark_runner.py:873-885 | With distinct ids the weight total is the sum of the weights of the criteria with a value, the total times it is the sum of weight times normalized score over them, and there is a total if and only if some criterion has a value. |
| `Scoring.CriterionValueIff` | part64/scripts/benchmark_runner.py:793-811 | Only a successful case of a runner that the criterion is for has a value, that of its metric or expression. |
| `Scoring.FailuresDontCount` | part64/scripts/benchmark_runner.py:840-885 | Failed cases get no score and do not change those of the others. |
| `Scoring.TotalInUnitInterval` | part64/scripts/benchmark_runner.py:840-885 | With positive weights every total is in the unit interval. |
| `Scoring.TotalRespectsDominance` | part64/scripts/benchmark_runner.py:840-885 | A case with the same applicable criteria and at least as good on each has at least the total. |
| `Scoring.LeaderboardContents` | part64/scripts/benchmark_runner.py:904-935 | Exactly the successful rows with a total are ranked, best first and faster first among equals. |
| `Scoring.LeaderboardRespectsDominance` | part64/scripts/benchmark_runner.py:904-935 | A case listed before one that dominates it has the same total and no greater latency. |
| `Scoring.ScoreResults` | part64/scripts/benchmark_runner.py:840-935 | The loops over dictionaries and running sums compute rows and board of the lemmas above. |

## Left out

- Observation forms in the Datalog file, with their clocks and hashes.
- Evaluating floats: the reader keeps the spelling of a float, and Python's equality across integers,
  floats and booleans is not modelled.
- Letters and digits beyond ASCII in the reader (upper case of variables, blanks, numerals), and the
  interpreter's limits on recursion depth and on the digits of an integer.
- `exists` outside the well-moded discipline in the least-model theorems, because its first answer
  depends on the order of facts; the closure theorem covers it.
- Workers.Scheduler.Tick: says nothing about the queue, the URLs in flight and the node cooldown; its
  argument tells whether the item was refused before the host lookup, and times come as arguments.
- Per-host limits and crawl delays as invariants for ordinary pages: they are checked before a wait
  and charged after it, and `Workers.Scheduler.PolicyArrived` models just that.
- What robots policies, fetching and page extraction find; they are arguments.
- Discovery.Weaver.ActivateNode: leaves out the times and sources of interactions that it records
  besides, and its events; the potential is a real number, rounded to four places.
- The priority of a queued URL, which has a random part and looks the host up: it is an argument, and
  the lookup is `Workers.Scheduler.TouchHost`.
- Graph snapshots, entities, statistics and all events but graph deltas.
- Pruning the content hash index, which is like the second pass over the host table.
- Discovery.Weaver.constructor: takes it as given that normalising yields http or https URLs without
  a double slash behind the scheme, and that a host's name has no bar in it, as the URL standard
  has it; the kinds of semantic references are the plain words that the page search produces.
- Parsing and percent-encoding of URLs, which `UrlNormal.Parts` takes as done; the comparison of
  strings is a parameter, antisymmetric and, where the lemmas say so, transitive.
- UrlNormal.Url.Normalize: takes the stable insertion sort for the built-in sort. They agree if
  different strings never compare as equal (`UrlNormal.AnySortAgrees`); for a comparison that is not
  consistent (`UrlNormal.ConsistentIff`) the language leaves the result open.
- FilterRules.SmartMergeFaithfulIff: for a skipped pattern with blanks around it and wildcards in
  it, which only a model with wildcards in its name gives, the condition speaks of all models; for
  all other patterns `FilterRules.CallerMergeFaithfulIff` has one that can be tested.
- Bracket sets in filter patterns, case folding of the platform's file names, and counts asked for
  another list than the one the cache was built with.
- Filtering.FilterEngine.AddRule: one method with a kind argument stands for the two methods of the
  source, as do the other members with such an argument.
- Loading and saving filter rules, previews, and the whole user interface.
- JSON text and UTF-8: the monitor's messages are byte sequences, chunk rows and packed trees come
  parsed. A completed chunk text that is itself a chunk row is the next row of the run.
- Integers and floats that are equal as numbers are one in `WsPacked`.
- WsPacked.DecodePackedNode: how values of a wrong type become integers and strings is a parameter.
- Expressions in benchmark criteria: their finite values are given with the results.
- Rounding: scores, times and latencies are real numbers.
- The small modules for cooldowns, session identifiers, quotas, accounts, attribution, world life and
  catalog data: each of them is a few assignments or one lookup.
