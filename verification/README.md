# A verified model of the build loop

This project models the algorithmic core of the build loop and its benches, and proves properties of it:

- the L* learner of `buildloop/lstar.py`, with its bounded W-method equivalence check;
- macro compression of statement streams: one-sided matching, greedy rewriting, description-length pricing
  (`buildloop/mdl_macros.py`), mining by anti-unification and table collection (`buildloop/recurrence.py`), and
  the expansion that undoes a rewriting (`generators/reading.py`);
- the LPT shard balancer of `run_regression.py`;
- the wave bench of `bench/bench_formalize.py`: greedy growth, prequential pricing, resume from a checkpoint;
- the budgeted import wave of `buildloop/import_driver.py`, killed between any two durable writes;
- the miss scheduler of `buildloop/loop.py` with its refusal memory;
- the generator library under its description-length gate (`buildloop/mdl.py`, `buildloop/admission.py`).

## How the files hang together

Code that updates things step by step is a method or a class with the fields of the original, proved against
a specification function or predicate; the theorems are lemmas about those specifications.

| files | content |
|---|---|
| `Wrappers.dfy`, `Order.dfy` | options; Python's ordering of strings and `sorted` |
| `Automata.dfy`, `WMethod.dfy`, `Observations.dfy`, `Lstar.dfy`, `ConformanceTest.dfy`, `ShortestTest.dfy`, `UntestedWord.dfy`, `Learn.dfy` | Mealy machines, Chow's theorem, observation tables, the oracle and table classes, the conformance test, when it finds a shortest disagreement, an input where it does not, the learning loop |
| `Templates.dfy`, `Rewriting.dfy`, `Expansion.dfy`, `Pricing.dfy` | JSON and templates, the greedy pass and its iteration, expansion, description length and its memo |
| `AntiUnification.dfy`, `MinedBodies.dfy`, `Lookalikes.dfy`, `Mining.dfy`, `MinedTables.dfy`, `Growth.dfy` | least general generalization, when it matches what it generalizes, what look-alike strings do to it, clustering and admission, when a name stands for one macro, growing and collecting the table |
| `Scheduling.dfy`, `Shards.dfy` | list scheduling and LPT, the shards of the test files |
| `Waves.dfy` | the arms of the wave bench over their shared checkpoint |
| `ImportDriver.dfy`, `ImportLedger.dfy`, `ImportWave.dfy` | the import wave as a machine with a kill step, what holds of every run of it, and the driver as a class on its files |
| `MissScheduler.dfy` | scoring, the event log, one iteration, whole runs |
| `Mdl.dfy`, `Subsumption.dfy` | chains, totals, the gate, register-then-retire, and what that does to reach and totals |

Inputs and outputs of the modelled code stand for what lies outside: the incumbent is a total Mealy machine,
the author and the certifier are functions or arbitrary replies, the miner of the wave bench is any function
that proposes non-empty bodies, the demand windows and the filters of the miner are parameters, and whether a
scheduler move is refused is an input of each iteration.

Where the code and its documentation differ, or what it is for has exceptions, the model follows the code:

- The oracle's documentation says a sequence is sent to the incumbent at most once. Every batch is run twice,
  so every cached sequence is sent exactly twice (`Lstar.Oracle.Valid`).
- `w_method_ce` documents the shortest disagreement. It returns a shortest failing test. That is a shortest
  disagreement for every incumbent if and only if every word shorter than some test is a test
  (`ShortestTest.ShortestExactly`; `ShortestTest.ShortestForTable` says the same for the incumbents a given table may
  come from). `UntestedWord.ShorterUntested` is a first table of the learner where the counterexample has five inputs
  and a word of four disagrees as well.
- A mined body matches its occurrences if and only if no literal "$p0", "$p1", ... that all of them share is also the
  name of a generated parameter (`MinedBodies.MinedMatches`). `Lookalikes.LookalikeRejected` is a cluster that passes
  the concreteness filter and is dropped by the verification.
- The name of a mined macro is taken of its body alone. Clusters with one body give one macro if and only if they have
  equally many differing tuples (`MinedTables.SameMacro`); `Lookalikes.OneBodyTwoMacros` is an input where they have not.
  For any data and names, all that is still offered when growth ends has a namesake in the table
  (`MinedTables.OnlyNamesakesLeft`).
- `_expand_macros` documents that no bound is needed for admitted tables. The default bound of 16 passes
  resolves 15 levels, so an acyclic table with a tower of 16 levels is refused (`Expansion.DeepTowerRefused`);
  `Expansion.RoundTrip` says exactly when a rewritten stream comes back.
- The ledger of the import driver can lose a row for good when both arms are used
  (`ImportLedger.TwoArmsCanStrand`). `ImportLedger.LostRowComesBack` says, from the state a wave is opened in,
  exactly when a missing row comes back, and `ImportLedger.WaveStrands` exactly which rows a wave has lost when it ends,
  from its opening and from what it settled.
- Refusals of a math demand with an empty id are not counted, so such a demand is picked forever
  (`MissScheduler.NamelessPickedForever`); `MissScheduler.RefusedRunConverges` is an equivalence with that condition.
- The gate of the generator library prices the candidate before its build artifacts are recorded, so an
  admission can raise the total (`Subsumption.ArtifactsCanRaiseTotal`); `Subsumption.AdmissionTotals` says exactly
  when.

## Model

| member | source | states |
|---|---|---|
| `Lstar.Oracle.RunBatch` | buildloop/lstar.py:154-174 | one sandbox run answers every sequence from the initial state, and every sequence of it is counted as sent |
| `Lstar.Oracle.Prefill` | buildloop/lstar.py:176-195 | afterwards exactly the old keys and the asked ones are cached; no run if nothing was missing, otherwise two runs of one batch; kept by it: every cached sequence has been sent exactly twice in the whole life of the oracle |
| `Lstar.Oracle.OutSeq` | buildloop/lstar.py:197-202 | the answer is the incumbent's output, and only a new sequence costs runs |
| `Lstar.Table.FillAndClose` | buildloop/lstar.py:293-311 | terminates; all cells are cached, every one-letter extension has a known row, each word added to S is the first extension whose row was unknown then, and `Valid` keeps S prefix-closed with distinct rows and E suffix-closed |
| `Observations.ClosedUpUnique` | buildloop/lstar.py:293-311 | closing a table up has one outcome |
| `Lstar.Table.AddUnknownRow` | buildloop/lstar.py:299-311 | either S grows by the first extension with an unknown row or the table is closed |
| `Lstar.Table.AddSuffix` | buildloop/lstar.py:313-319 | E gains exactly the non-empty suffixes of the word and stays suffix-closed |
| `Lstar.Table.Hypothesis` | buildloop/lstar.py:321-338 | the machine whose k-th state is the k-th access word: transitions go to the state with the successor's row, outputs are the incumbent's |
| `Observations.AccessBounded` | buildloop/lstar.py:275-311 | S is never longer than the incumbent has states |
| `Observations.ReachesOwnState` | buildloop/lstar.py:321-338 | every access string reaches its own state in the hypothesis |
| `Observations.ReproducesCells` | buildloop/lstar.py:287-338 | the hypothesis reproduces every cell of the table |
| `Observations.DerivedSeparated` | buildloop/lstar.py:366-370 | the experiments of the table tell all hypothesis states apart, as the W of the W-method must |
| `Observations.BreakPointSplits` | buildloop/lstar.py:386-405 | at a break point the rest of the counterexample is not empty and separates two words with equal rows |
| `Observations.SplittingOpens` | buildloop/lstar.py:428-441 | with a separating suffix among the experiments the table is not closed |
| `ConformanceTest.StateCover` | buildloop/lstar.py:353-363 | breadth-first search lists one word for every state of a reachable machine, and none could be shorter |
| `ConformanceTest.SigmaUpTo` | buildloop/lstar.py:344-350 | exactly the words over the alphabet of at most the given length |
| `ConformanceTest.ShortWordsAreTests` | buildloop/lstar.py:366-383 | every word of at most Depth + 1 inputs is a test |
| `ConformanceTest.WMethodCe` | buildloop/lstar.py:366-383 | no counterexample means all tests P.Sigma^(<= max(0, n - m) + 1).W pass; a counterexample is a test that fails, no test fails that is shorter or comes before it in the order of words, and no disagreement at all of at most Depth + 1 inputs is shorter |
| `ShortestTest.ShortestExactly` | buildloop/lstar.py:366-383 | for given hypothesis, cover, experiments, depth and known answers: the shortest failing test is a shortest disagreement for every total incumbent with these answers, if and only if every word shorter than some test is a test, leaving aside words and tests that known answers begin with |
| `ShortestTest.ShortestForTable` | buildloop/lstar.py:366-383 | the same for all incumbents from which a given table and hypothesis may come |
| `UntestedWord.FirstTable` | buildloop/lstar.py:275-338 | for an incumbent of five states: the access words and experiments of the learner's first table, and its hypothesis of three states |
| `UntestedWord.ShorterUntested` | buildloop/lstar.py:366-383 | with that hypothesis and state bound 4, whatever shortest state cover is used, "baaba" is a shortest failing test, and the shorter "aaba" is answered differently too |
| `WMethod.Completeness` | buildloop/lstar.py:344-383 | W-method completeness: with all tests passed and an incumbent of at most n states, outputs agree on input sequences of any length |
| `WMethod.Minimal` | buildloop/lstar.py:321-338 | no machine with the behaviour of a covered, separated machine is smaller |
| `Learn.BreakPoint` | buildloop/lstar.py:396-403 | the scan always finds a position that does not match and whose successor does: the fallback is never reached |
| `Learn.RivestSchapire` | buildloop/lstar.py:386-405 | for any counterexample to a table-derived hypothesis the suffix is what follows the first position behind which the scan matches; it is not empty and separates two words of equal rows |
| `Learn.SuffixMakesProgress` | buildloop/lstar.py:428-441 | adding the suffix and closing again makes at least one more access word |
| `Learn.Refine` | buildloop/lstar.py:428-441 | a round adds the suffixes of such a suffix, closes the table up, never stalls and makes the hypothesis strictly larger |
| `Learn.HypothesisFacts` | buildloop/lstar.py:321-383 | every table-derived hypothesis is total, reachable, at most as large as the incumbent, minimal for its behaviour, and equivalent to the incumbent once conformant with a bound that is large enough |
| `Learn.LStar` | buildloop/lstar.py:408-447 | never stalled; every counterexample refutes the hypothesis of its round and the next hypothesis is larger; fewer rounds than states; `converged` exactly if a round was left; converged models are conformant, and equivalent if the incumbent has at most n states; with at least as many rounds as states it converges |
| `Templates.FitsIsSubst` | buildloop/mdl_macros.py:95-115 | fitting a template under a binding is the same as being its substitution instance, so the matcher and `_macro_subst` are inverse |
| `Templates.FitsDetermines` | buildloop/mdl_macros.py:95-115 | a fit determines the binding on the template's parameters |
| `Templates.Unify` | buildloop/mdl_macros.py:95-115 | succeeds exactly if some extension of the binding fits, and then returns the least such extension |
| `Rewriting.MatchAt` | buildloop/mdl_macros.py:118-132 | returns the one covering binding under which the body is the window, if there is one |
| `Rewriting.SigRejects` | buildloop/mdl_macros.py:205-232 | the key-set fast reject only skips macros that do not match |
| `Rewriting.FindHit` | buildloop/mdl_macros.py:235-243 | with the fast reject, still the first macro in order that matches |
| `Rewriting.RewritePass` | buildloop/mdl_macros.py:215-252 | the output is the specified pass; `changed` and `used` tell exactly what the pass made |
| `Rewriting.TraceTiles` | buildloop/mdl_macros.py:228-252 | the copied positions and matched windows of a pass tile the stream; copied positions match nothing |
| `Rewriting.UnchangedPass` | buildloop/mdl_macros.py:320-323 | a pass that makes nothing returns the same stream, and no macro matches anywhere in it |
| `Rewriting.MatchUsesMade` | buildloop/mdl_macros.py:271-280 | any match in the output of a pass uses an item the pass made |
| `Rewriting.MatchNeedsTower` | buildloop/mdl_macros.py:288-290 | a match that is left after k passes rests on a tower of k + 1 macros invoking one another |
| `Rewriting.PassBound` | buildloop/mdl_macros.py:288-290 | for an acyclic table as many passes as macros reach a stream that no macro matches |
| `Rewriting.FlatTable` | buildloop/mdl_macros.py:282-286 | for a table without macro-invoking bodies nothing matches after the first pass, in any order of the macros |
| `Rewriting.SettledPass` | buildloop/mdl_macros.py:320-323 | a stream that no macro matches is a fixpoint of the pass |
| `Expansion.ExpandMacros` | generators/reading.py:227-261 | returns the full expansion if it is reached in fewer than `bound` levels and fails otherwise |
| `Expansion.ExpandsExactly` | generators/reading.py:185-202 | an invocation of a macro of the table expands if and only if every parameter and every placeholder of the body has an argument, and then to what the templates fit under the arguments |
| `Expansion.NothingElseExpands` | generators/reading.py:185-196 | nothing expands that has another field, names no macro of the table, or whose arguments are neither an object nor false |
| `Expansion.Lossless` | buildloop/mdl_macros.py:215-252 | after any number of passes over any table, expanding every invocation transitively gives exactly the original logical forms |
| `Expansion.DepthDecides` | generators/reading.py:227-261 | a stream with a finite expansion expands within d levels exactly if its invocations nest at most d deep |
| `Expansion.RoundTrip` | generators/reading.py:217-261 | `_expand_macros` undoes a rewriting if and only if the invocations nest less deep than its bound, and never returns anything else |
| `Expansion.DeepTowerRefused` | generators/reading.py:205-261 | a table of 16 levels, each invoking only macros of lower rank, that expands and is refused by the default bound |
| `Pricing.LeafCount` | buildloop/mdl_macros.py:59-66 | one per key, list element and scalar, whatever the order of the keys |
| `Pricing.PriceList` | buildloop/mdl_macros.py:59-92 | the prices of a form with a list, its statement, an invocation with two parameters and a macro that has them |
| `Pricing.PassSaves` | buildloop/mdl_macros.py:228-252 | what a pass saves is exactly what the collapsed windows cost, less two tokens and one per parameter for each invocation |
| `Pricing.SortedMacros` | buildloop/mdl_macros.py:316-317 | the listing of the table in its one order; `PassIsGreedy` says which macro that order lets win |
| `Pricing.InOrderUnique` | buildloop/mdl_macros.py:316-317 | a table has only one listing in that order, so pricing does not depend on the table's order |
| `Pricing.PassIsGreedy` | buildloop/mdl_macros.py:235-252 | said without an order of the macros: in a pass a window is collapsed by the longest macro of the table that matches there, of equally long ones by the first name, and a position is copied exactly if none matches; there is one such pass, and it is the one that is priced |
| `Pricing.PricedGreedily` | buildloop/mdl_macros.py:309-333 | the cost, the count and the used names of a reading are those of the last stream of its run of such passes, as many as the table has macros and at least one |
| `Pricing.SomeGreedyRun` | buildloop/mdl_macros.py:309-333 | every reading has such a run |
| `Pricing.Recode` | buildloop/mdl_macros.py:315-333 | the early exit of the pass loop gives the same cost, count and used names as running all passes |
| `Pricing.PassesAfterSettling` | buildloop/mdl_macros.py:320-323 | passes behind a settled one change neither the stream nor the used names |
| `Pricing.PricedStreamSettled` | buildloop/mdl_macros.py:288-323 | for an acyclic table the stream that is priced matches no macro any more |
| `Pricing.ReadingsDlConcat` | bench/bench_formalize.py:453-455 | what readings cost adds up over concatenation |
| `Pricing.SameMacrosSameTable` | buildloop/mdl_macros.py:182-189 | the content key of a table determines the table |
| `Pricing.PricingMemo.ReadingStats` | buildloop/mdl_macros.py:260-333 | with any memo state the result is that of recomputation, and the memo stays within its cap |
| `Pricing.PricingMemo.Corpus` | buildloop/mdl_macros.py:348-372 | definition costs plus reading costs, and how many readings use a macro |
| `Pricing.UsesCount` | buildloop/mdl_macros.py:348-372 | a macro's uses are the readings with a window it collapsed |
| `AntiUnification.Antiunify` | buildloop/recurrence.py:263-285 | the result generalizes the values position by position; the memo only grows, by exactly the tuples that differ, its names stay the first ones and distinct, and every new name occurs in the result |
| `AntiUnification.AntiunifyWindows` | buildloop/recurrence.py:288-299 | column by column, under one memo whose tuples are exactly those that differ, named in the order of their first occurrence; the parameters are exactly the memo's names, each once and sorted |
| `AntiUnification.NamedInOrder` | buildloop/recurrence.py:281-285 | the number of a tuple's name is the number of distinct tuples met before it |
| `AntiUnification.MinedUnique` | buildloop/recurrence.py:288-299 | body, parameters and memo are functions of the windows, and the parameters depend on the number of differing tuples alone |
| `MinedBodies.GeneralizationFits` | buildloop/recurrence.py:263-285 | a binding fits a generalization to the n-th value if and only if it binds every literal placeholder all values share to itself and every generated name to the n-th entry of its tuple |
| `MinedBodies.MinedMatches` | buildloop/recurrence.py:391-399 | every occurrence matches the body mined from it if and only if the logical forms are objects and no shared literal placeholder has a generated parameter's name |
| `MinedBodies.DollarFreeIsClean` | buildloop/recurrence.py:391-399 | occurrences without strings that start with "$" always meet that condition |
| `MinedBodies.Verifies` | buildloop/recurrence.py:391-399 | true exactly if every occurrence matches |
| `MinedBodies.Candidate` | buildloop/recurrence.py:457-465 | the candidate is the generalization of its occurrences, and the verification accepts it if and only if the condition of `MinedMatches` holds of the occurrences |
| `AntiUnification.LeastGeneral` | buildloop/recurrence.py:263-299 | any other body that matches all occurrences matches the mined body too, by one substitution |
| `Lookalikes.LookalikeRejected` | buildloop/recurrence.py:458-465 | two windows of two statements that share the literal "$p0": their body passes the concreteness filter and matches neither of them |
| `Lookalikes.OneBodyTwoMacros` | buildloop/recurrence.py:386-388 | two clusters (of two corpora) whose one body passes the concreteness filter and the verification, with one parameter and with two |
| `Mining.Clusters` | buildloop/recurrence.py:438-445 | under each key exactly the windows of that key whose logical forms are objects, in reading order |
| `Mining.ClusterHolds` | buildloop/recurrence.py:438-445 | an occurrence is in a cluster if and only if it is a window of that key of that reading, all of its logical forms objects |
| `Mining.HasTwoReadings` | buildloop/recurrence.py:455 | true exactly if two occurrences come from different readings |
| `Mining.Offer` | buildloop/recurrence.py:453-474 | there is a candidate if and only if the cluster has two readings, the filters accept the one macro its windows give, no literal collides, and the macro pays; the candidate is that macro, matches every window, strictly shortens the corpus by its saving and is used by two readings |
| `Mining.Mine` | buildloop/recurrence.py:402-476 | a candidate for exactly the clusters that pass, one each, each sound, sorted by saving and name |
| `Mining.ListedBestFirst` | buildloop/recurrence.py:475 | no candidate makes the corpus shorter than one listed before it does, of equal lengths the smaller name comes first, and the saving listed is what the corpus gets shorter by |
| `MinedTables.OfferedIsAdmissible` | buildloop/recurrence.py:466-474 | whatever a miner that returns what `Mine` returns offers for a table clears the admission gate for it |
| `MinedTables.OfferedIff` | buildloop/recurrence.py:402-476 | nothing is offered if and only if no cluster passes |
| `MinedTables.OfferedExactly` | buildloop/recurrence.py:402-476 | a macro is offered if and only if some key earns it: two readings share the key, the macro is mined from all its windows, passes the filters, makes the corpus strictly shorter and collapses a window in two readings |
| `MinedTables.SameMacro` | buildloop/recurrence.py:386-388 | two sets of windows give one macro if and only if they give one body and have equally many differing tuples |
| `MinedTables.NameFixesMacro` | buildloop/recurrence.py:386-388 | two candidates of one body, from any corpora and tables, have one name, and are the same macro if and only if their clusters have equally many differing tuples |
| `MinedTables.PlainDataFixesMacro` | buildloop/recurrence.py:263-299 | without strings "$p0", "$p1", ... in the data they always have |
| `MinedTables.OnlyNamesakesLeft` | bench/bench_formalize.py:300-318 | for any data and names, whatever is still offered for the grown table clears the gate and is passed over because the table has a different macro of its name |
| `MinedTables.MinedPasses` | bench/bench_formalize.py:300-318 | for a table without different macros of the names that the corpus gives: a candidate is new to it and passes the gate, so the first candidate of the list is the one admitted |
| `MinedTables.GrownIsMinedOut` | bench/bench_formalize.py:300-318 | if moreover clusters of the corpus whose bodies get one name have one body and equally many differing tuples, the miner offers nothing more for the grown table |
| `Growth.AdmissionDecision` | buildloop/mdl_macros.py:375-406 | admitted exactly if the corpus of the witnesses gets strictly shorter and two of them use the macro |
| `Growth.AdmittedExactly` | buildloop/mdl_macros.py:375-406 | the gate lets a macro through if and only if the corpus gets strictly shorter and it collapses a window in two different readings |
| `Growth.WitnessesAre` | buildloop/mdl_macros.py:375-406 | the witnesses are all readings, or under the filter exactly those of exogenous origin |
| `Growth.GreedyGrow` | bench/bench_formalize.py:300-318 | terminates, with the specified table: the first new candidate that clears the gate, again and again |
| `Growth.GrowthPays` | bench/bench_formalize.py:300-318 | old macros stay, each admission strictly shortens the corpus, and no candidate still offered clears the gate |
| `Growth.GcTable` | buildloop/recurrence.py:536-577 | retires, one at a time, the first macro by name whose removal does not lengthen the corpus; never lengthens the corpus, retires each name once, and afterwards removing any macro strictly lengthens it |
| `Growth.GcMacros` | buildloop/recurrence.py:480-532 | retires, one at a time, the first macro used by fewer than two readings whose removal shortens the corpus, or if there is none the first macro of all whose removal does; each retirement strictly shortens the corpus, and afterwards no single removal does |
| `Scheduling.ListSchedulingBound` | run_regression.py:213-216 | jobs put on a lightest machine in any order: no load above 2 - 1/n times the heaviest of any other placement |
| `Scheduling.BigJobsFit` | run_regression.py:213-216 | jobs heavier than a third of a bound, heaviest first: optimal |
| `Scheduling.LptBound` | run_regression.py:213-216 | heaviest first: no load above 4/3 - 1/(3n) times the heaviest of any other placement |
| `Shards.Lightest` | run_regression.py:214 | the first shard of least load |
| `Shards.Balance` | run_regression.py:211-216 | the shard is read off the greedy placement of the visiting order |
| `Shards.PytestShard` | run_regression.py:189-217 | the call returns its part of the plan: parity without a weights file, otherwise greedy and sorted by name |
| `Shards.PlanUnique` | run_regression.py:189-217 | all calls with the same arguments use one and the same plan |
| `Shards.HeaviestFirst` | run_regression.py:213 | with a weights file the plan places no file before a heavier one, and equally heavy ones by name |
| `Shards.ParityShard` | run_regression.py:205 | without one the k-th file of shard i is the one at position i + k n |
| `Shards.WeighedBy` | run_regression.py:207-209 | the weight of a file: its number, 1 or 0 for a boolean, and 1.0 without either |
| `Shards.ShardsPartition` | run_regression.py:190-199 | the n shards of n independent calls hold every file exactly as often as given, whatever the weights are |
| `Shards.ShardsBalanced` | run_regression.py:193-198 | with non-negative weights no shard exceeds 4/3 - 1/(3n) times the heaviest part of any other division into n parts |
| `Waves.Checkpoint.constructor` | bench/bench_formalize.py:248-259 | loading keeps the last line of each (source, arm) |
| `Waves.Checkpoint.Write` | bench/bench_formalize.py:268-277 | one line is appended, and the records follow |
| `Waves.AuthorMissing` | bench/bench_formalize.py:408-418 | exactly the sources of the wave without a record are authored, against the frozen table |
| `Waves.RunWave` | bench/bench_formalize.py:404-450 | started from the uninterrupted run's state, a wave ends in it, whichever of its records were there before and whatever lines other arms have written |
| `Waves.Close` | bench/bench_formalize.py:452-475 | new readings are charged under the table they were authored with, then the table grows, then the row is priced (its columns: `RowsAreSums`) |
| `Waves.RunArm` | bench/bench_formalize.py:384-476 | resumed from any file whose lines of this arm are lines of its uninterrupted run, with any lines of other arms and of dreams between them: the same rows and tables as uninterrupted (their columns: `RowsAreSums`), and exactly the missing lines are appended |
| `Waves.RunArms` | bench/bench_formalize.py:928-955 | both arms over the one checkpoint a killed run left: each ends with the rows and tables of its uninterrupted run |
| `Waves.PrefixResumable` | bench/bench_formalize.py:244-277 | a kill after any checkpoint write leaves such a file: of this arm the first k lines, interleaved in any way with lines of other arms |
| `Waves.FreshOfArm` | bench/bench_formalize.py:248-259 | whether a file can be resumed for an arm depends on that arm's own lines only |
| `Waves.CountersAreSums` | bench/bench_formalize.py:420-450 | after any number of waves the token and certificate counters are the sums over the checkpoint lines of the sources so far, and the readings are those of the lines in order |
| `Waves.RowsAreSums` | bench/bench_formalize.py:452-489 | row i of any run: tokens and certificates are the sums over the lines of the first 8 (i + 1) sources, the prequential length what each of their readings costs under its own frozen table, the reported length that of their readings under the table grown behind the wave, and the audited table the one in front of it |
| `Waves.LinesAre` | bench/bench_formalize.py:404-440 | the k-th line is the record of the k-th source, authored in wave k / 8 against that wave's table |
| `Waves.RecordHolds` | bench/bench_formalize.py:426-440 | a record repeats the author's answer, or holds no reading and no tokens if the author failed |
| `Waves.HindsightBelowPrequential` | bench/bench_formalize.py:452-467 | on the governed arm, in every row of every run, the corpus length under the grown table is at most the prequential sum |
| `ImportDriver.BudgetIsLeast` | buildloop/import_driver.py:805-817 | the budget is the least of the limits that apply |
| `ImportDriver.RefusedBecause` | buildloop/import_driver.py:290-321 | the reason for which a grant is refused, in the order missing, without expiry, expired, spent, unknown mode, and what an allowed one leaves |
| `ImportDriver.RefusalThreshold` | buildloop/import_driver.py:405-421 | the refusal breaker fires exactly at 13 refusals among the last 20 outcomes |
| `ImportDriver.MedianSplits` | buildloop/import_driver.py:424-437 | half of the cost history is at most the median and half at least; of an even number it is the mean of the two middle costs |
| `ImportDriver.CostThreshold` | buildloop/import_driver.py:424-437 | the cost breaker fires exactly if there is a history, there have been five outcomes, and more than three times the median has been spent for each certified one |
| `ImportDriver.AnswerDecides` | buildloop/import_driver.py:943-981 | one answer adds its outcome, its tokens and its row, settles its declaration, and halts a running wave exactly by the refusal rule, and otherwise by the cost rule |
| `ImportDriver.EndsDecide` | buildloop/import_driver.py:1019-1128 | otherwise a wave ends by a quota signal behind its batch, a spent budget in front of a batch, or an exhausted frontier; its row has the tokens per certified statement |
| `ImportDriver.StartDecides` | buildloop/import_driver.py:795-841 | a wave opens with a budget that is positive and not above what was asked, the costs of the ledger, and the pending declarations |
| `ImportDriver.PendingInOrder` | buildloop/import_driver.py:833-834 | the pending declarations keep the order of the queue |
| `ImportDriver.HistoryIs` | buildloop/import_driver.py:345-356 | the cost history holds the positive costs of the wave rows |
| `ImportDriver.KeepsTake` | buildloop/import_driver.py:999-1015 | scanning a frontier row, replaying a lost ledger row or joining the batch, keeps the invariant of the machine |
| `ImportDriver.KeepsSave` | buildloop/import_driver.py:939-942 | writing the checkpoint line first keeps it |
| `ImportDriver.KeepsPost` | buildloop/import_driver.py:943-981 | the ledger row, the bill and the breakers behind it keep it |
| `ImportDriver.AllKeep` | buildloop/import_driver.py:754-1128 | every run of steps and kills keeps the invariant: one item row per key, rows repeat checkpoint lines, tokens are accounted for, the grant bound, and no scanned line without its row |
| `ImportLedger.LedgerExactlyOnce` | buildloop/import_driver.py:1003-1015 | over any run with any kills no (decl, arm) has two item rows, every item row repeats a checkpoint line, and every checkpointed key the scan has passed has its row, except the one being written |
| `ImportLedger.NeverAuthoredAgain` | buildloop/import_driver.py:1003-1015 | once a (decl, arm) has a checkpoint line, the author is never called for it again |
| `ImportLedger.TokensConserved` | buildloop/import_driver.py:338-342 | every token the author returned is in the ledger, in a checkpoint line without a row, in memory, or was swallowed by a kill; without kills the ledger total is the total paid |
| `ImportLedger.GrantBound` | buildloop/import_driver.py:290-321 | under a fixed grant the ledger total is below the grant plus the last batch plus the rows replayed after kills; without kills nothing is replayed |
| `ImportLedger.DispatchGuarded` | buildloop/import_driver.py:1019-1023 | at every dispatch the budget is not spent, no breaker fires, at most 12 of the last 20 outcomes are refusals, and from five outcomes on at most three times the median has been spent for each certified one |
| `ImportLedger.BatchesAreFull` | buildloop/import_driver.py:999-1036 | every batch holds as many declarations as there may be calls at a time, or the last of the frontier, and each is sent once, in order, to the wave's arm |
| `ImportLedger.NeverStuck` | buildloop/import_driver.py:985-1128 | a wave in progress can always take a step of its own, until it has rewritten the queue |
| `ImportLedger.WaveSpends` | buildloop/import_driver.py:943-981 | what has been paid since a wave was opened is what it has billed and the answers it has not recorded yet |
| `ImportLedger.StrandedForever` | buildloop/import_driver.py:833-834 | a checkpointed row that is missing while its declaration is settled stays missing in every run |
| `ImportLedger.GrantDecides` | buildloop/import_driver.py:290-321 | once the ledger total has reached a fixed grant, no continuation of the history changes anything; until then another wave can be opened |
| `ImportLedger.LostRowComesBack` | buildloop/import_driver.py:1003-1014 | a row that is missing when a wave opens is in the ledger when the wave ends with an exhausted frontier if and only if the wave is on its arm and its declaration was pending at the opening; otherwise it is stranded |
| `ImportLedger.WaveStrands` | buildloop/import_driver.py:1126-1128 | a completed wave leaves stranded exactly the rows that were missing at its opening, whose declarations are settled at its end, and that were settled before or belong to another arm |
| `ImportLedger.RunningStrandsNothing` | buildloop/import_driver.py:833-834 | until its queue rewrite, killed or not, a wave changes nothing about which rows are stranded |
| `ImportLedger.OneArmStrandsNothing` | buildloop/import_driver.py:1003-1014 | with all waves on one arm no row is ever stranded |
| `ImportLedger.TwoArmsCanStrand` | buildloop/import_driver.py:833-841 | a run with one kill and two arms that loses a paid row for good |
| `ImportWave.Driver.FillBatch` | buildloop/import_driver.py:999-1017 | the batch is full or the frontier exhausted, by steps of the machine |
| `ImportWave.Driver.RecordAnswer` | buildloop/import_driver.py:900-981 | checkpoint, ledger, bill and breakers in this order are steps of the machine |
| `ImportWave.Driver.RecordBatch` | buildloop/import_driver.py:1036-1055 | all replies of a batch are recorded in frontier order before any halt takes effect |
| `ImportWave.Driver.RunWave` | buildloop/import_driver.py:754-1128 | the wave is a run of the machine from its start to the rewritten queue with the author's replies; it declines exactly if grant or budget rule it out, with the first reason that applies; it reports the halt and the tokens of the wave at its end; an exhausted frontier leaves everything settled and posted |
| `MissScheduler.ListMaths` | buildloop/loop.py:333-360 | one move per unserved exogenous math row, at its net score |
| `MissScheduler.ListTolls` | buildloop/loop.py:397-411 | one move per open caged incumbent, with the evidence its refusal would be remembered by (which rows share it: `TollRememberedByCase`) |
| `MissScheduler.RowsWithMoves` | buildloop/loop.py:333-411 | a toll move for exactly the open caged incumbents, a math move for exactly the exogenous math sources that are neither retired nor served |
| `MissScheduler.WorthPicking` | buildloop/loop.py:333-411 | a math row scores positive exactly below 384 bytes, a toll exactly if its capped stock outweighs the replacement, and no toll is worth more than an uncovered row |
| `MissScheduler.PickIsBest` | buildloop/loop.py:451-454 | the pick is eligible and ranks before every other eligible move; nothing is picked exactly if nothing is eligible |
| `MissScheduler.PickScoresHighest` | buildloop/loop.py:451-454 | no move that scores and is not suppressed has a higher score than the pick; equal scores go by kind (coverage, request, recurrence, toll, math) and then by key |
| `MissScheduler.Registry.ScoreMoves` | buildloop/loop.py:414-463 | all moves of the snapshot, ranked, each marked by the refusal memory, and the first eligible one |
| `MissScheduler.Registry.RunIteration` | buildloop/loop.py:732-782 | the log grows by a miss per move, the refusal of the pick if it was refused, and the decision |
| `MissScheduler.IterationLog` | buildloop/loop.py:732-782 | a miss for every move, marked if suppressed, then the refusal of the pick by its evidence or id, then the decision |
| `MissScheduler.MathRefusedTwiceAtMost` | buildloop/loop.py:31-36 | over any run and any snapshots a math demand with an id is picked and refused at most twice |
| `MissScheduler.TollRefusedOnceAtMost` | buildloop/loop.py:387-394 | over any run a toll is picked and refused at most once per evidence |
| `MissScheduler.SuppressedExactly` | buildloop/loop.py:435-449 | a math move is suppressed exactly if its demand has an id and was picked and refused twice; coverage, request and recurrence moves never are |
| `MissScheduler.TollRememberedByCase` | buildloop/loop.py:387-449 | after any run the toll of a row is suppressed if and only if the toll of a row with the same lift bound and the same tool surface was picked and refused |
| `MissScheduler.EveryTollTried` | buildloop/loop.py:387-463 | in a converged run of refusals every open caged row whose calls outweigh its replacement has had a refusal of its own lift bound and surface |
| `MissScheduler.RefusalsBounded` | buildloop/loop.py:414-463 | the refusals of a run are at most one per toll and two per math move they are among |
| `MissScheduler.StaysConverged` | buildloop/loop.py:732-782 | an unchanged snapshot that has converged stays converged |
| `MissScheduler.RefusedRunConverges` | buildloop/loop.py:414-463 | toll and math moves, all refused, no change of the snapshot: after #toll + MATH_MAX_ATTEMPTS * #math iterations nothing is picked, if and only if every math move worth picking has an id |
| `MissScheduler.NamelessPickedForever` | buildloop/loop.py:414-463 | one exogenous math row with an empty id, always refused, is picked after any number of iterations |
| `MissScheduler.CapsAre` | buildloop/loop.py:31-36 | the bound counts the toll moves once and the math moves twice |
| `Mdl.ChainLengthFor` | buildloop/mdl.py:25-46 | the length of the shortest chain of at most two generators, or none |
| `Mdl.TotalDl` | buildloop/mdl.py:54-66 | generator lengths plus what covered and uncovered specs cost, and how many are covered |
| `Mdl.AdmissionDecision` | buildloop/mdl.py:69-84 | the decision of the gate (which one: `GateExactly`) |
| `Mdl.FindSubsumed` | buildloop/mdl.py:87-102 | the live entries that are subsumed, in order (which ones: `SubsumedAre`) |
| `Mdl.Registry.Admit` | buildloop/admission.py:201-246 | nothing changes unless the gate admits; then the entry replaces one of the same hash and everything it subsumes is retired |
| `Subsumption.GateExactly` | buildloop/mdl.py:69-84 | a candidate is admitted if and only if it lowers the total or gives a spec of the backlog its first chain, and as an expansion if and only if only the latter |
| `Subsumption.OfferTaken` | buildloop/admission.py:201-246 | no reach on offer is declined: behind an offer a spec of its backlog has a chain if and only if it has one with the candidate among the live generators |
| `Subsumption.OfferDeclined` | buildloop/admission.py:201-246 | an offer that neither lowers the total nor covers a new spec changes nothing |
| `Subsumption.ChainsAre` | buildloop/mdl.py:20-46 | length 1 if a codec takes the spec with all its atoms, otherwise 2 if a generator does whose declared output a codec takes, otherwise none |
| `Subsumption.SubsumedAre` | buildloop/mdl.py:87-102 | exactly the live entries of another hash with the same languages and output, strictly fewer atoms, and not universal |
| `Subsumption.TotalsAre` | buildloop/mdl.py:49-66 | 1 for 64 bytes of a generator; for a spec 50 without a chain, otherwise its length and 1 for 256 bytes |
| `Subsumption.SameChains` | buildloop/mdl.py:87-102 | dropping subsumed entries changes no chain length |
| `Subsumption.AdmittedReaches` | buildloop/admission.py:213-246 | across an admission no covered pair is lost or gets a longer chain |
| `Subsumption.ReachMonotone` | buildloop/admission.py:201-246 | nor over any sequence of offers |
| `Subsumption.RetiringCosts` | buildloop/mdl.py:54-102 | retiring lowers the total by exactly the lengths of the retired entries and covers as much |
| `Subsumption.AdmittedIsNew` | buildloop/mdl.py:69-84 | the gate never admits a second copy of a live generator |
| `Subsumption.AdmissionTotals` | buildloop/admission.py:201-246 | the total behind an admission is the gate's, plus the recorded artifacts, minus what is retired; it falls if and only if gain and retirements outweigh the artifacts |
| `Subsumption.ArtifactsCanRaiseTotal` | buildloop/admission.py:201-246 | an admission that the gate sees as a saving from 50 to 49 and that leaves a total of 51 |
| `Subsumption.ExpansionsBounded` | buildloop/mdl.py:69-84 | against one backlog there are at most as many expansions as specs uncovered at the start |

## Left out

- Waves.RunArm: the author together with the certifier is a function of source and frozen table, source ids are distinct, and a checkpoint line is whole; a line torn by a kill is not modelled, because loading it raises.
- Waves.RunArms: the arms run one behind the other, as in the serial mode; of the two threads `PrefixResumable` covers the file they leave, in any interleaving.
- MinedTables.GrownIsMinedOut: says what the names must satisfy on the clusters of the corpus and the table, and not that the shortened hash of the source does; `OnlyNamesakesLeft` is what holds without that.
- ImportLedger.GrantDecides: all waves of a history have one grant and one queue order; the source loads both anew for every wave, and a change of them between waves is not modelled.
- ImportWave.Driver.RunWave: covers waves without `--fresh`; the reading files are not modelled, because they are written behind the ledger row and resuming does not redo them.
- MissScheduler.RefusedRunConverges: is about toll and math moves, because coverage, request and recurrence moves have no refusal memory.
- Erroring, hanging and nondeterministic incumbents: the answers of the incumbent are as long as the input, and the comparison of the two runs of a batch never raises.
- Symbols of the incumbent's alphabet are characters in the order of their names; `to_protocol_spec`, `lifecycle_path` and the statistics of the learner are not modelled.
- JSON numbers are exact; Python's equality of 1, 1.0 and True is not modelled, nor is the order of keys.
- Description lengths, tokens and scores are exact; rounding and floating point are not modelled.
- Hashes (names of macros and generators, evidence, table content) are replaced by what they are taken of.
- The canon view of readings: the rung registry is taken to be empty, so the view is the identity.
- How windows are cut and keyed, the concreteness filter, the slot typing and beam search: parameters of the miner, or left out (`Lookalikes.BodyAdmissible` is the concreteness filter).
- Statement ids, force and quote in macro expansion, and the checks behind it in `parse_reading`.
- Threads: a batch is an ordered list of replies, as the code records them.
- The kernel's vetting in front of the generator gate, the chain costs of `buildloop/dl.py` and the planner.
- Calls to the model, prompts, sandbox runs, timestamps, seconds and reporting columns.
