# Verified models of LingoDB components

LingoDB compiles SQL through MLIR dialects to native code. This project models six groups of its code in
Dafny and proves what they promise, for all inputs, all runs or all reachable states:

- **Plan analyses and rewrites** (`RelAlg*.dfy`): plans have a denotational semantics over sequences of rows that
  keep hidden columns. Free and available columns, dependent joins, functional dependencies and keys, column
  reachability, column folding and dead-column elimination are proved against it.
- **The C emitter** (`StructuredIr.dfy`, `CProgram.dfy`, `CEmitter*.dfy`): structured SSA programs and the mutable C
  programs emitted for them both have an evaluator with fuel; the emitter is proved to preserve meaning.
- **Predicates and decimals** (`Db*.dfy`): canonicalization of conjunctions and disjunctions in three-valued logic,
  and the decimal result types.
- **Streaming hashes** (`Xxh*.dfy`, `Md5*.dfy`): XXH32, XXH64, XXH3 and MD5 fed in chunks against their one-shot
  definitions. Chunking is proved for any stripe or block arithmetic. The arithmetic itself is compared with published
  values (XXH32, XXH64), with RFC 1321 (MD5), or by what it keeps and cancels (XXH3).
- **HTTP framing and the worker pool** (`Http*.dfy`): chunked encoder and decoder with the grammar of what is accepted,
  the multipart parser on whole forms in any pieces, the line reader, and the thread pool as interleaved atomic steps.
- **Runtime representations** (`Runtime*.dfy`): the 16-byte string value and the buffer that grows by doubling.

Code that computes values is modelled by functions; code that updates objects, buffers or counters by classes and
loops whose contracts equal those functions. `dafny verify dfyconfig.toml` checks the whole project.

## Findings

Where the code does not do what it is for on all inputs, the model keeps the code as it is, and a lemma names an input
and the exact condition.

- **A for loop that swaps its iteration arguments** (`lib/execution/CEmitter.cpp:617-622`). Yielded values are copied
  one after another. Input: a loop that yields its two iteration arguments swapped
  (`EmissionTheorems.SwapLoopIsNotPreserved`). Exact condition: no yielded iteration argument was overwritten by an
  earlier copy (`EmissionTheorems.YieldCopiesExactly`).
- **A disjunct that consists of common conjuncts only** (`lib/DB/DBOps.cpp:348-351`) is dropped although the others
  keep something. Input: (a and a) or (a and b), with a true and b false (`OrFactoringStates.OneConjunctIsAdded`). Exact
  condition: every disjunct keeps a conjunct of its own or none does (`OrFactoring.FactoringIffUniform`,
  `OrFactoringStates.KeepsMeaningIffUniform`).
- **A stale buffer tail in XXH3 streaming** (`vendored/xxhash.h:1868-1878`, read at 1909). Bytes consumed straight from
  an update are not copied into the buffer, from which the last stripe is rebuilt. Input: one update of 257 bytes, for
  every secret and both variants (`Xxh3Scalar.FirstWrongUpdate`). Exact condition, for the accumulators:
  `Xxh3Scalar.AccumulatorsAgreeIffNotStale`; for the hash that records what it accumulates:
  `Xxh3Streaming.AgreesIffNotStale`.
- **Products that are too wide** (`lib/DB/DBOps.cpp:206-211`). Input: two values of type (38, 2)
  (`DecimalTypes.FractionProductOverflows`). Exact condition: `DecimalTypes.ProductsFitIff`; for quotients
  `DecimalTypes.QuotientsFitIff`, for sums, which lack the carry digit, `DecimalTypes.SumsFitIff`.
- **Keys that are only partly mapped** (`lib/RelAlg/OperatorInterfaceImpl.cpp:461-467`). The key is built from the
  mapped primary-key columns alone. Input: any base table with an unmapped primary-key column and two records that
  differ only there (`DependencyTheorem.UnmappedKeyFails`). Exact condition: all primary-key columns are mapped
  (`DependencyTheorem.KeyHoldsIffMapped`).
- **Late jobs** (`vendored/httplib.h:679-690`). enqueue accepts jobs after shutdown. Input: shutdown, the only worker
  exits, enqueue (`WorkerPool.LateJobNeverRuns`). Exact condition: no job is accepted after the last worker has left
  (`WorkerPool.AllRanIffNoneLate`).
- **A drained buffer that is used again** (`include/runtime/Buffer.h:85-91`). merge leaves the drained object with
  capacity zero, which no later merge restores. Input: merge a full buffer into a drained one and insert
  (`GrowingBuffers.FullBufferOverrun`). Exact condition, for every sequence of inserts and merges that follows:
  `GrowingBuffers.DrainedReuse`.
- **An empty write** (`vendored/httplib.h:4153`) ends a chunked body without its last chunk, and the loop reports success.
  Input: any writes and then an empty one (`ChunkedFraming.EmptyWriteTruncates`). Exact condition for the body to be
  accepted: done ends the loop (`ChunkedFraming.DecodesIffDone`).
- **Conjunctions that are left alone** (`lib/DB/DBOps.cpp:441-449`). Success is decided by the number of operands.
  Inputs: (a and b) and a (`AndCanonicalization.NestedIsLeft`), and two bounds that could be merged beside a nested
  conjunction of two (`AndCanonicalization.BoundsAreLeft`). Exact condition: `AndCanonicalization.Canonicalize` with
  `Rewrites`.
- **A split opening boundary** (`vendored/httplib.h:4414-4416`). A call that does not hold the whole boundary is
  discarded. Input: any form whose first call is shorter than it. Exact condition for all parts to be reported:
  `MultipartPieces.FormInPieces`.
- **A late epilogue** (`vendored/httplib.h:4450-4531`). Text behind the closing boundary is ignored only when it comes in
  the same call; a later line is taken for a header. Input: `MultipartForms.LateEpilogueFails`.
- **Hidden columns that are available** (`lib/RelAlg/OperatorInterfaceImpl.cpp:237-262`). Input: a semi join of a
  projection (`FreeColumnReads.HiddenIsAvailable`). Exact condition: `FreeColumnReads.AvailableExactIff`.
- **An initial capacity of zero** (`include/runtime/Buffer.h:41-59`) stays zero when doubled. Input: one insert
  (`GrowingBuffers.NoCapacityOverrun`). Exact condition: `GrowingBuffers.InsertsDouble`.
- **Columns that are output but not reached** (`lib/RelAlg/OperatorInterfaceImpl.cpp:237-262` and 289-298). Inputs: a semi,
  anti-semi, mark or outer join of an operator with itself (`ColumnReachability.SelfJoinIsNotReached`), and a renaming of
  a column of the enclosing tuple to itself (`ColumnReachability.SelfRenamingIsNotReached`). Exact condition:
  `ColumnReachability.ReachDecidesOutputIff`.

## Model

| member | source | states |
|---|---|---|
| `EmissionTheorems.EmissionPreservesMeaning` | lib/execution/CEmitter.cpp:561-790 | Compiler correctness for every nesting of for, while and if, all arguments, every memory and fuel: the emitted C code runs out of fuel exactly with the structured program, or ends with its memory and with every visible value in the variable that carries its name. The only side condition is that no for-yield passes on an iteration argument that an earlier copy has overwritten; while and if need none. |
| `EmissionTheorems.EmissionSucceeds` | lib/execution/CEmitter.cpp:561-790 | Printing a well-formed function never fails, and all values of the function, across nested regions, have pairwise different C names; parameters keep theirs. |
| `EmissionTheorems.YieldCopiesExactly` | lib/execution/CEmitter.cpp:617-622 | The copies printed at the end of a for body implement the yield on every store if and only if no yielded iteration argument is overwritten by an earlier copy. |
| `EmissionTheorems.SwapLoopIsNotPreserved` | lib/execution/CEmitter.cpp:617-622 | A for loop that yields its two iteration arguments swapped: the structured program ends with 30 in its second result, the emitted C code with 40. |
| `EmissionTheorems.SwapLoopWellFormed` | lib/execution/CEmitter.cpp:561-636 | That loop is valid input and violates only the side condition. |
| `EmittedCopies.CopiesAreSimultaneousIff` | lib/execution/CEmitter.cpp:617-632 | Copying variables one after the other is copying them at once, in every store, exactly when no later copy reads a variable that an earlier one changed. |
| `EmittedNames.EmitOpGrows` | lib/execution/CEmitter.cpp:1191-1309 | Printing one operation succeeds, keeps all names handed out before, and hands out new, distinct ones for exactly the values it defines. |
| `CppEmitters.CppEmitter.GetOrCreateName` | lib/execution/CEmitter.cpp:951-955 | A known value keeps its name, a new one gets the next number of the scope and nothing else changes. |
| `CppEmitters.CppEmitter.DeclareResults` | lib/execution/CEmitter.cpp:1137-1149 | Declares variables for the results one by one and fails exactly on a value that already has a name. |
| `CppEmitters.CppEmitter.InitArguments` | lib/execution/CEmitter.cpp:576-582 | Declares the arguments initialised with their sources, in order, on the emitter state and output. |
| `CppEmitters.CppEmitter.CopyValues` | lib/execution/CEmitter.cpp:617-633 | Appends the copies in order, naming target before source. |
| `CppEmitters.CppEmitter.PrintYield` | lib/execution/CEmitter.cpp:765-790 | Copies the operands of a yield into the parent's results; fails on a count mismatch or an operand without a name. |
| `CppEmitters.CppEmitter.PrintFor` | lib/execution/CEmitter.cpp:561-636 | The method that prints a for loop appends exactly the code, names and failures of the specification that the correctness theorem is about. |
| `CppEmitters.CppEmitter.PrintWhile` | lib/execution/CEmitter.cpp:638-718 | The same for while. |
| `CppEmitters.CppEmitter.PrintIf` | lib/execution/CEmitter.cpp:720-763 | The same for if. |
| `CppEmitters.CppEmitter.EmitOperations` | lib/execution/CEmitter.cpp:1191-1309 | The same for a list of operations. |
| `CppEmitters.CppEmitter.EmitFunction` | lib/execution/CEmitter.cpp:154-163 | A function body is printed in a scope of its own: afterwards the mapper and all counters are what they were. |
| `RelAlgFreeColumns.RowsDependOnFree` | lib/RelAlg/OperatorInterfaceImpl.cpp:87-121 | A plan's rows are the same under any two enclosing tuples that agree on its free columns. |
| `RelAlgFreeColumns.IndependentJoinInputs` | lib/RelAlg/OperatorInterfaceImpl.cpp:123-134 | When isDependentJoin is false, each input of the join gives the same rows whether or not a tuple of the other input is bound, so the right input can be computed once. |
| `RelAlgFreeColumns.OutputIsAvailable` | lib/RelAlg/OperatorInterfaceImpl.cpp:100-106 | Every column an operator really outputs is in its available set. |
| `RelAlgFreeColumns.AvailableIsCreated` | lib/RelAlg/OperatorInterfaceImpl.cpp:100-106 | Available columns are created somewhere in the plan. |
| `FreeColumnReads.FreeIffRead` | lib/RelAlg/OperatorInterfaceImpl.cpp:114-121 | A column is free in a plan exactly when some operator of it reads the column and no operator on the way up to the root, that one included, has it available from its inputs. |
| `FreeColumnReads.DependentIff` | lib/RelAlg/OperatorInterfaceImpl.cpp:123-134 | isDependentJoin is true exactly when an operator of one input reads from outside of it a column that the other input makes available. |
| `FreeColumnReads.AvailableExactIff` | lib/RelAlg/OperatorInterfaceImpl.cpp:100-106 | In every operator of a plan exactly the output columns are available if and only if no semi, anti-semi or mark join has a left input that hides columns of its own inputs. |
| `FreeColumnReads.HiddenIsAvailable` | lib/RelAlg/OperatorInterfaceImpl.cpp:237-262 | The semi join of a projection counts a projected-away column as available. |
| `FunctionalDependencies.ExpandLoop` | include/mlir/Dialect/RelAlg/FunctionalDependencies.h:37-51 | The fixpoint loop of expand terminates and returns the closure of the given columns. |
| `FunctionalDependencies.ExpandIsClosure` | include/mlir/Dialect/RelAlg/FunctionalDependencies.h:37-51 | expand returns the smallest superset of the columns that is closed under all dependencies. |
| `FunctionalDependencies.Reduce` | include/mlir/Dialect/RelAlg/FunctionalDependencies.h:52-62 | reduce returns a subset of the keys whose closure still holds all of them, and none of which can be left out. |
| `DependencyTheorem.InferSound` | lib/RelAlg/OperatorInterfaceImpl.cpp:453-559 | On every database that obeys its primary keys, every dependency and key that getFDs returns holds on the rows of every plan of base tables, selections, maps, renamings, projections, cross products, inner, semi, anti-semi, mark and outer joins and aggregations, including the join key chosen by closure, in which the right input of an inner, mark or outer join does not read the left tuple; that of a semi or anti-semi join may. |
| `ReportedDependencies.ReportedIff` | lib/RelAlg/OperatorInterfaceImpl.cpp:453-559 | getFDs returns exactly the dependencies that operators of the plan add, leaving out those below the right input of a semi or anti-semi join: of primary keys, of both directions of every predicate that equates two columns, and of every pair of hash columns. |
| `ReportedDependencies.KeyReported` | lib/RelAlg/OperatorInterfaceImpl.cpp:453-559 | For every operator: when getFDs returns a key, and which. |
| `ReportedDependencies.JoinKeyIff` | lib/RelAlg/OperatorInterfaceImpl.cpp:552-557 | An inner join has a key exactly when both inputs have one and every set of columns that is closed under the dependencies and contains one of the keys contains the other; it is the left key if that determines the right one, otherwise the right. |
| `ReportedDependencies.ForeignKeyJoin` | lib/RelAlg/OperatorInterfaceImpl.cpp:510-558 | An inner join of a table with key a and a table that has b outside of its key, by a = b, gets the key of the second table. |
| `DependencyTheorem.DuplicateFreeKeyIsKey` | include/mlir/Dialect/RelAlg/FunctionalDependencies.h:63-69 | For the same plans, columns that isDuplicateFreeKey accepts take different values in any two rows of the result. |
| `ReportedDependencies.DuplicateFreeIff` | include/mlir/Dialect/RelAlg/FunctionalDependencies.h:63-69 | isDuplicateFreeKey accepts exactly the columns that are unique in all rows that obey the dependencies and the key; for every rejected candidate there are two rows that obey them and agree on it. |
| `DependencyTheorem.ReducedColumnsDetermine` | include/mlir/Dialect/RelAlg/FunctionalDependencies.h:52-62 | For the same plans, rows that agree on columns whose closure contains the keys agree on the keys. |
| `DependentJoins.DependentJoinFails` | lib/RelAlg/OperatorInterfaceImpl.cpp:510-558 | For an inner, mark or outer join whose right input reads the left tuple the dependencies can be wrong: an aggregate over the rows that equal the left tuple, joined with two left rows. |
| `DependencyTheorem.KeyHoldsIffMapped` | lib/RelAlg/OperatorInterfaceImpl.cpp:456-471 | The key reported for a base table is unique on every database that obeys the primary key if and only if all primary-key columns are mapped. |
| `DependencyTheorem.UnmappedKeyFails` | lib/RelAlg/OperatorInterfaceImpl.cpp:461-467 | For any base table with an unmapped primary-key column there is a database on which the reported key is not unique. |
| `ColumnReachability.CanReachCall` | lib/RelAlg/OperatorInterfaceImpl.cpp:237-298 | The per-operator overrides compute the reachability predicate on every acyclic plan graph. |
| `ColumnReachability.ClimbLoop` | lib/RelAlg/OperatorInterfaceImpl.cpp:70-86 | The loop over the users of an operator computes it and terminates. |
| `ColumnReachability.ReachIffPath` | lib/RelAlg/OperatorInterfaceImpl.cpp:70-86 | canColumnReach is true exactly when some chain of users from source to target lets the column in through the entered edge of every operator, the target included. |
| `ColumnReachability.ReachedIsOutput` | lib/RelAlg/OperatorInterfaceImpl.cpp:234-298 | A column that can reach an operator, and is really output where it starts, is really output and available there. |
| `ColumnReachability.ReachDecidesOutputIff` | lib/RelAlg/OperatorInterfaceImpl.cpp:70-86 | Asked of a column's only creator, canColumnReach decides for every target whether it really outputs the column if and only if no join that keeps its left input only has one operator that outputs the column as both inputs, and no renaming consumes the column it creates. |
| `ColumnReachability.ReachIffOutput` | lib/RelAlg/OperatorInterfaceImpl.cpp:70-86 | In that case it decides it for each target. |
| `ColumnReachability.SelfJoinIsNotReached` | lib/RelAlg/OperatorInterfaceImpl.cpp:237-262 | A semi, anti-semi, mark or outer join of a table with itself outputs a column that canColumnReach says cannot reach it. |
| `ColumnReachability.SelfRenamingIsNotReached` | lib/RelAlg/OperatorInterfaceImpl.cpp:289-298 | So does a renaming of a column of the enclosing tuple to itself. |
| `ColumnFoldingPass.ColumnFoldInfo.FoldMap` | lib/RelAlg/OperatorInterfaceImpl.cpp:651-662 | foldColumns of a map replaces columns by what they copy and records its own copies, in order, in the shared mapping. |
| `ColumnFoldingPass.ColumnFoldInfo.Fold` | lib/RelAlg/OperatorInterfaceImpl.cpp:685-703 | foldColumns of the other operators, on the shared mapping. |
| `FoldingDropsCopies.CopiesRecorded` | lib/RelAlg/OperatorInterfaceImpl.cpp:654-658 | A map records exactly the columns that it computes as copies, each with the column it copies, over what was recorded for them before; nothing else changes. |
| `FoldingDropsCopies.FoldResolvesReads` | lib/RelAlg/OperatorInterfaceImpl.cpp:651-703 | After foldColumns an operator reads exactly what the columns it read are mapped to, and so no mapped column. |
| `FoldingDropsCopies.ChainRecords` | lib/RelAlg/OperatorInterfaceImpl.cpp:651-703 | The mapping left by a chain has exactly the columns that some map on it copies into. |
| `FoldingDropsCopies.CopiesAreNotRead` | lib/RelAlg/OperatorInterfaceImpl.cpp:651-703 | After folding along a chain no operator on it reads a copy that is made on it. |
| `FoldingDropsCopies.BesideStays` | lib/RelAlg/OperatorInterfaceImpl.cpp:685-703 | Folding along a chain changes nothing of what is used beside it. |
| `ColumnFoldingPass.EliminateDeadColumns` | lib/RelAlg/OperatorInterfaceImpl.cpp:663-684 | Keeps exactly the computed columns that are used; nothing left removes the operator, all left changes nothing. |
| `FoldingDropsCopies.UnusedAreNotComputed` | lib/RelAlg/OperatorInterfaceImpl.cpp:663-684 | Wherever they are in the plan, exactly the unused computed columns are no longer computed, and maps that computed nothing else are gone. |
| `FoldingPreservesRows.ChainReplaces` | lib/RelAlg/OperatorInterfaceImpl.cpp:59-67 | Along every chain of operators, no column that the mapping points to is itself mapped, and each operator still reads only columns in scope. |
| `FoldingPreservesRows.ChainsKeepRows` | lib/RelAlg/OperatorInterfaceImpl.cpp:651-703 | Column folding along any number of chains leaves every row of the plan as it was. |
| `ColumnFoldingPass.PassKeepsUsedColumns` | lib/RelAlg/OperatorInterfaceImpl.cpp:651-703 | Folding followed by dead-column elimination keeps the number and order of rows, the value of every column that is used or materialized, and whether it is output. |
| `FoldingDropsCopies.PassOutput` | lib/RelAlg/OperatorInterfaceImpl.cpp:651-703 | The pass outputs what the plan did without exactly the computed columns that nothing uses after folding. |
| `FoldingDropsCopies.CopyIsDropped` | lib/RelAlg/OperatorInterfaceImpl.cpp:651-703 | A copy made on the last chain, which only operators on that chain used, is no longer output: it has been folded away. |
| `AndCanonicalization.TreeIsConjunction` | lib/DB/DBOps.cpp:376-396 | A tree of nested conjunctions means, in three-valued logic, the conjunction of the set of its leaves. |
| `AndCanonicalization.Flatten` | lib/DB/DBOps.cpp:374-396 | The worklist terminates with exactly the leaves, registers every comparison under both its operands, and keeps for each of them the last lower and the last upper bound. |
| `AndCanonicalization.MergeBounds` | lib/DB/DBOps.cpp:397-440 | Merging constant bounds keeps the three-valued meaning; exactly the operands whose last lower and upper bound are by constants get a BETWEEN, and exactly those two comparisons go. |
| `AndCanonicalization.BetweenIsBothBounds` | lib/DB/DBOps.cpp:432-439 | A BETWEEN with constant bounds and the inclusivity taken from the two comparisons means their conjunction. |
| `AndCanonicalization.BetweenNeedsConstants` | lib/DB/DBOps.cpp:432 | With a bound that is null the replacement would change the meaning, so the test for constants is needed. |
| `AndCanonicalization.Canonicalize` | lib/DB/DBOps.cpp:373-450 | Succeeds exactly when one operand is left or their number has changed. The replacement has the leaves as operands, each once, with a BETWEEN in place of merged bounds, means the same in every state, and is strictly smaller, so that rewriting ends; on failure nothing changes but the operations created. |
| `AndCanonicalization.NothingToMerge` | lib/DB/DBOps.cpp:441-449 | Without order comparisons the rewrite succeeds exactly when there is one leaf or the number of different leaves is not that of the operands. |
| `AndCanonicalization.SomethingToMerge` | lib/DB/DBOps.cpp:397-449 | With an operand that has constant bounds on both sides, and no more leaves than operands, it succeeds. |
| `AndCanonicalization.NestedIsLeft` | lib/DB/DBOps.cpp:441-449 | A conjunction of (a and b) with a is left as it is. |
| `AndCanonicalization.BoundsAreLeft` | lib/DB/DBOps.cpp:441-449 | Two bounds of x beside a nested conjunction of two are left as they are, although they can be merged. |
| `OrFactoring.CountUsage` | lib/DB/DBOps.cpp:320-334 | Counts for every conjunct the disjuncts it occurs in, however often it is repeated in one; fails exactly on an operand that is not a conjunction. |
| `OrFactoring.SplitOperands` | lib/DB/DBOps.cpp:336-356 | The new operands are the residues of the disjuncts in order without the emptied ones, and the extracted set is exactly the common conjuncts. |
| `OrFactoring.UniformFactoring` | lib/DB/DBOps.cpp:319-372 | If every disjunct keeps a conjunct of its own or none does, the factored form has the three-valued meaning of the disjunction, for any number and repetition of operands. |
| `OrFactoring.FactoringIffUniform` | lib/DB/DBOps.cpp:348-351 | For all values of the conjuncts the factored form is right if and only if every disjunct keeps a conjunct of its own or none does. |
| `OrFactoring.Canonicalize` | lib/DB/DBOps.cpp:319-372 | The rewrite succeeds exactly when all operands are conjunctions with a common conjunct, produces the factored form, and keeps the meaning in the uniform case and on failure. |
| `OrFactoringStates.KeepsMeaningIffUniform` | lib/DB/DBOps.cpp:348-367 | For disjunctions whose conjuncts are arguments or opaque operations, the rewritten disjunction means the same in every program state if and only if the disjuncts are uniform. |
| `OrFactoringStates.OneConjunctIsAdded` | lib/DB/DBOps.cpp:348-351 | The disjunction of (a and a) with (a and b) becomes (a and b); with a true and b false it was true and becomes false. |
| `DecimalTypes.AdaptedIsValid` | lib/DB/DBOps.cpp:204-213 | Product and quotient types have 0 <= s <= p <= 38, at least min(scale, 6) fraction digits, and all integer digits when there are at most 32. |
| `DecimalTypes.AdaptedKeeps` | lib/DB/DBOps.cpp:204-213 | As many fraction digits are kept as have room beside all integer digits, up to six in any case, and all 38 digits are used when more are needed. |
| `DecimalTypes.ProductScale` | lib/DB/DBOps.cpp:231-243 | Products keep all fraction digits if and only if the precisions add up to at most 38 or the scales to at most six. |
| `DecimalTypes.QuotientScale` | lib/DB/DBOps.cpp:244-255 | Quotients have at least six fraction digits, and one for every digit of the divisor behind those of the dividend as far as there is room; when there is, their type is exact. |
| `DecimalTypes.SumAndRemainderTypes` | lib/DB/DBOps.cpp:221-225 | Remainder types are always valid, sum types exactly while their digits fit into 38. |
| `DecimalTypes.SumBound` | lib/DB/DBOps.cpp:214-229 | Every sum is below two times ten to the result precision. |
| `DecimalTypes.SumsFitIff` | lib/DB/DBOps.cpp:221-225 | Without the carry digit no sum overflows its type if and only if one operand has no integer digits and one has no fraction digits. |
| `DecimalTypes.ProductInType` | lib/DB/DBOps.cpp:204-243 | When the precisions add up to at most 38 every exact product fits, and with at most 32 integer digits no digit is dropped. |
| `DecimalTypes.ProductsFitIff` | lib/DB/DBOps.cpp:204-243 | All products keep their leading digits if and only if the operands have at most 32 integer digits together or their precisions add up to at most 38. |
| `DecimalTypes.WideProductOverflows` | lib/DB/DBOps.cpp:206-211 | Outside that condition the product of the two largest values does not fit its type. |
| `DecimalTypes.FractionProductOverflows` | lib/DB/DBOps.cpp:209-211 | Two values of type (38, 2): the product type is (38, 4) and the product of the largest values does not fit. |
| `DecimalTypes.QuotientsFitIff` | lib/DB/DBOps.cpp:244-255 | All quotients fit their type if and only if the dividend can only be zero, there is no divisor, or at most 32 digits are before the point. |
| `DecimalTypes.RemainderInType` | lib/DB/DBOps.cpp:257-268 | Every remainder, at the larger of the two scales, fits its type. |
| `DecimalTypes.RemainderNeedsType` | lib/DB/DBOps.cpp:257-268 | With one digit less some remainder would not fit. |
| `Xxh3.HashLongLoop` | vendored/xxhash.h:1099-1123 | The one-shot loop over blocks, partial block and last stripe computes the fold over stripes with a scramble at every block end and the last 64 bytes accumulated once more. |
| `Xxh3.SecretsAreLongEnough` | vendored/xxhash.h:945-955 | The smallest secret gives nine stripes to a block, so one full buffer never spans two block ends. |
| `Xxh3Streaming.StreamingIsOneShot` | vendored/xxhash.h:1824-1914 | For every sequence of updates that does not leave a stale tail, the streaming digest is the one-shot hash of the concatenation, for any stripe arithmetic. |
| `Xxh3Streaming.ShortChunksAgree` | vendored/xxhash.h:1842-1885 | In particular for updates that are all shorter than 256 bytes. |
| `Xxh3Streaming.AgreesIffNotStale` | vendored/xxhash.h:1868-1913 | Streaming agrees on all inputs cut to given lengths, for the hash that records what it accumulates, if and only if the lengths do not leave 1 to 63 bytes buffered behind whole buffers taken straight from an update. |
| `Xxh3Scalar.StreamingXxh3` | vendored/xxhash.h:998-1140 | The streaming theorem for the scalar 64- and 128-bit arithmetic with any secret of at least 136 bytes. |
| `Xxh3Scalar.AccumulatorsAgreeIffNotStale` | vendored/xxhash.h:1868-1913 | For the scalar arithmetic of both variants and any secret: the accumulators from which the digest is computed are those of hashing in one go, on all inputs cut to given lengths, if and only if the lengths do not leave a stale tail. |
| `Xxh3Scalar.FirstWrongUpdate` | vendored/xxhash.h:1868-1913 | One update of up to 256 bytes always gives the right accumulators; for 257 bytes, whatever the secret, some input gives wrong ones. |
| `Xxh3Words.XorOfBytes` | vendored/xxhash.h:999-1052 | The exclusive or of two words is that of their bytes. |
| `Xxh3Reversible.AvalancheUndone` | vendored/xxhash.h:988-996 | avalanche can be undone, so that no information is lost. |
| `Xxh3Reversible.ScrambleUndone` | vendored/xxhash.h:1055-1087 | So can the scramble of a lane, for every key. |
| `Xxh3Reversible.StripeOfKeys` | vendored/xxhash.h:999-1052 | A stripe that equals the secret adds only its words: to their own lanes in the 64-bit variant and to the neighbours in the 128-bit one. |
| `Xxh3Reversible.MixedHalves` | vendored/xxhash.h:1125-1128 | Two accumulators are mixed into the exclusive or of the upper and lower half of their 128-bit product, once the keys are taken off. |
| `Xxh3Reversible.ProductOfHalves` | vendored/xxhash.h:469-477 | The product of the two halves of a lane is exact. |
| `Xxh3Reversible.KeysFinish64` | vendored/xxhash.h:1125-1140 | Accumulators that equal the secret from byte 11 on leave only the length times the first prime, behind the avalanche. |
| `Xxh3Reversible.KeysFinish128` | vendored/xxhash.h:1125-1140 | In the 128-bit variant the upper half does the same with the 64 bytes that end 11 before the end of the secret, and the complement of the length times the second prime. |
| `Xxh3Reversible.PublishedStart` | vendored/xxhash.h:981 | The accumulators start with the primes of the published algorithm. |
| `Xxh3State.Hash3State.constructor` | vendored/xxhash.h:1935-1964 | A reset state is valid for no input. |
| `Xxh3State.Hash3State.ConsumeStripes` | vendored/xxhash.h:1824-1839 | Accumulates the stripes and scrambles at the block end if one is reached. |
| `Xxh3State.Hash3State.Update` | vendored/xxhash.h:1842-1885 | The object with its buffer implements the value-level update for every input length. |
| `Xxh3State.Hash3State.GetDigest` | vendored/xxhash.h:2002-2026 | Returns the digest of the value-level state, and leaves the state as it was. |
| `Xxh.EndianAlign` | vendored/xxhash.h:872-917 | The one-shot loop consumes whole stripes and finishes with the rest. |
| `Xxh.BufferedIsRemainder` | vendored/xxhash.h:1645-1700 | After every sequence of updates exactly the bytes behind the last whole stripe are buffered, fewer than a stripe, and all whole stripes are consumed. |
| `Xxh.StreamingIsOneShot` | vendored/xxhash.h:1645-1725 | The streaming digest is the one-shot hash of the concatenation, for every chunking whatsoever. |
| `XxhWords.StreamingWords` | vendored/xxhash.h:810-917 | The same for the concrete 32- and 64-bit arithmetic. |
| `XxhVectors.Xxh32OfRepetition` | vendored/xxhash.h:810-917 | XXH32 of the 39 characters "Nobody inspects the spammish repetition" has its published value. |
| `XxhVectors.Xxh64OfRepetition` | vendored/xxhash.h:810-917 | So has XXH64. |
| `XxhVectors.Xxh64OfGenerated` | vendored/xxhash.h:810-917 | So has XXH64 of the first 14 bytes of the generator that the published self-test uses, which end with words of both lengths and single bytes. |
| `Xxh.HashState.Update` | vendored/xxhash.h:1645-1700 | The object with its buffer keeps the value-level state for every update. |
| `Xxh.HashState.Digest` | vendored/xxhash.h:1702-1725 | Returns the one-shot hash of everything added so far. |
| `Md5Blocks.FAgrees` | vendored/md5.h:68 | The rewritten F is the function of section 3.4 of RFC 1321. |
| `Md5Blocks.GAgrees` | vendored/md5.h:69 | The rewritten G is the function of section 3.4 of RFC 1321. |
| `Md5Blocks.HAgrees` | vendored/md5.h:70-71 | H2 is the function H of section 3.4 of RFC 1321. |
| `Md5Blocks.StepsAreRight` | vendored/md5.h:135-205 | Each of the 64 unrolled steps has the function, word, rotation and constant that section 3.4 of RFC 1321 prescribes. |
| `Md5Blocks.CodeAgrees` | vendored/md5.h:68-80 | The macros compute the standard's functions, sums and rotations. |
| `Md5Blocks.Block` | vendored/md5.h:129-213 | The unrolled rounds with their rotating registers compute the standard's transformation of a block. |
| `Md5.CountMore` | vendored/md5.h:237-240 | The two counter words always hold the number of bytes modulo 2^61, whatever the carries. |
| `Md5.BitsOf` | vendored/md5.h:290-292 | Shifted at the end they give the 64-bit length in bits of section 3.2 of RFC 1321. |
| `Md5.PadIsLastBlocks` | vendored/md5.h:275-294 | The one or two last blocks that are built in the buffer are the padding of sections 3.1 and 3.2 of RFC 1321. |
| `Md5.Context.constructor` | vendored/md5.h:223-231 | The initial state is valid for no input. |
| `Md5.StartBytes` | vendored/md5.h:224-227 | The registers start with the bytes of section 3.3 of RFC 1321. |
| `Md5.Context.Update` | vendored/md5.h:233-264 | The counters, chaining words and buffer stay those of the concatenated input. |
| `Md5.Context.Final` | vendored/md5.h:272-302 | The result is the digest that RFC 1321 defines for the concatenation of all updates. |
| `Md5.HexRoundTrip` | vendored/md5.h:304-325 | The hexadecimal form can be read back to the digest. |
| `Md5.HashLines` | vendored/md5.h:308-318 | Hashing the strings one by one with a line feed after each is hashing their concatenation. |
| `Md5.Md5Strings` | vendored/md5.h:308-326 | The result is the hexadecimal form of the RFC 1321 digest of the strings, each followed by a line feed. |
| `ChunkedFraming.FromIToHex` | vendored/httplib.h:2321-2329 | Returns the hexadecimal digits of the number, without leading zeros. |
| `ChunkedFraming.StrtoulOfHex` | vendored/httplib.h:3910-3915 | strtoul reads a chunk-size line back to the number that was printed. |
| `ChunkedFraming.StreamLineReader.GetLine` | vendored/httplib.h:2633-2670 | A line is read to its line feed or the end of the stream, whether it fits the fixed buffer or spills into the growing one. |
| `ChunkedFraming.ReadContentWithLength` | vendored/httplib.h:3848-3868 | Any pattern of short reads delivers exactly the announced bytes, or all there are and failure. |
| `ChunkedFraming.ReadContentChunked` | vendored/httplib.h:3897-3949 | For every byte stream and every pattern of short reads, the result, the content delivered and the bytes left are those of the decoding function. |
| `ChunkedFraming.WriteContentChunked` | vendored/httplib.h:4144-4245 | The provider loop leaves exactly the framing of its writes on the stream, and succeeds exactly if the provider ended it. |
| `ChunkedFraming.DecodeEncode` | vendored/httplib.h:3897-3949 | Decoding the framing of any non-empty payloads returns their concatenation and leaves exactly what follows (section 7.1 of RFC 9112). |
| `ChunkedFraming.RoundTrip` | vendored/httplib.h:4144-4245 | Whatever non-empty writes come before done, the reader returns their concatenation and consumes exactly what was written. |
| `ChunkedFraming.EncodeInjective` | vendored/httplib.h:4163-4165 | Equal framings have equal contents. |
| `ChunkedFraming.UnfinishedIsRejected` | vendored/httplib.h:3910-3926 | Chunks without the last one are not accepted. |
| `ChunkedFraming.EmptyWriteTruncates` | vendored/httplib.h:4151-4163 | An empty write ends the provider loop without the last chunk. |
| `ChunkedFraming.DecodesIffDone` | vendored/httplib.h:4144-4245 | For every list of provider calls the reader receives exactly what was written before the loop ended, and accepts the body if and only if done ended it, not an empty write or the end of the list. |
| `ChunkedFraming.DoneLeavesTail` | vendored/httplib.h:4144-4245 | What follows a body that done ended stays on the stream. |
| `ChunkedGrammar.StrtoulIff` | vendored/httplib.h:3910 | strtoul finds a number exactly in texts that start with a numeral: white space, a sign, a prefix 0x and hexadecimal digits of either case. |
| `ChunkedGrammar.NumeralIsRead` | vendored/httplib.h:3910 | Every spelling of a number is read as that number, whatever follows: either case, leading zeros, white space, sign and prefix. |
| `ChunkedGrammar.AnySpellingAnnounces` | vendored/httplib.h:3907-3925 | A size line in upper or lower case, with leading zeros and with a chunk extension behind it, announces that size. |
| `ChunkedGrammar.FramingIsAccepted` | vendored/httplib.h:3897-3949 | Every framing, in any spelling of the sizes and with any trailer lines, is accepted with exactly its payloads, and what follows stays on the stream. |
| `ChunkedGrammar.AcceptedIffFraming` | vendored/httplib.h:3897-3949 | The reader accepts exactly the streams that begin with a framing. |
| `ChunkedGrammar.CutOffIsRejected` | vendored/httplib.h:3897-3949 | A framing that is cut off anywhere is not accepted. |
| `MultipartParsing.FindIsFirst` | vendored/httplib.h:4590-4611 | The search returns the first occurrence, or the length. |
| `MultipartParsing.StepDecreases` | vendored/httplib.h:4412-4540 | Every turn of the parse loop consumes input or only moves on to the headers, so the loop terminates. |
| `MultipartParsing.BodyIsChunkIndependent` | vendored/httplib.h:4498-4520 | From any body state and for every split of the stream, the reported content is the bytes before the first delimiter and the buffer resumes right behind it; without a delimiter all but the last bytes are reported. |
| `MultipartParsing.SameBodySameContent` | vendored/httplib.h:4498-4520 | Two ways of cutting the same body report the same content. |
| `MultipartParsing.MultipartFormDataParser.BufAppend` | vendored/httplib.h:4613-4629 | Pending bytes are moved to the front and the new ones follow them. |
| `MultipartParsing.MultipartFormDataParser.BufFind` | vendored/httplib.h:4590-4611 | The two-level search in the buffer finds the first occurrence. |
| `MultipartParsing.MultipartFormDataParser.Parse` | vendored/httplib.h:4407-4542 | The parser object implements the state machine for every input. |
| `MultipartForms.FormIsParsed` | vendored/httplib.h:4407-4542 | A whole form in one call, with any number of parts, header lines, preamble and epilogue, ends valid, with exactly one part event and the content of each part, in order. |
| `MultipartForms.ValidIffClosed` | vendored/httplib.h:4522-4537 | When no further part follows the last delimiter, the form is valid exactly if two dashes do. |
| `MultipartForms.CutOffIsNotValid` | vendored/httplib.h:4522-4537 | A form that is cut off anywhere before its last dashes are complete is not valid. |
| `MultipartForms.ValidIsFinal` | vendored/httplib.h:4526-4531 | Once a form is valid, what else arrives in that call does not matter. |
| `MultipartForms.LateEpilogueFails` | vendored/httplib.h:4450-4531 | An epilogue that arrives in a later call makes the form invalid again. |
| `MultipartPieces.FormInPieces` | vendored/httplib.h:4407-4542 | However a form is cut into calls: it ends valid with all its parts if and only if the first call that brings anything brings the whole opening boundary; otherwise with its last parts only, or not valid without any. |
| `MultipartPieces.PartsInPieces` | vendored/httplib.h:4407-4542 | Behind the opening boundary all parts are reported with their contents, however they are cut, down to single bytes. |
| `WorkerPool.ThreadPool.Enqueue` | vendored/httplib.h:679-690 | The locked part of enqueue rejects exactly when a positive limit is reached and otherwise appends the job. |
| `WorkerPool.ThreadPool.Pass` | vendored/httplib.h:714-724 | A worker's locked pass takes the front job even after shutdown, leaves when shut down and empty, and waits otherwise. |
| `WorkerPool.StepKeeps` | vendored/httplib.h:666-743 | Every step keeps: jobs are taken in the order in which they were accepted, taken jobs are running or done, the queue limit, and that no wakeup is lost. |
| `WorkerPool.AcceptedUnlessFull` | vendored/httplib.h:679-690 | On every run exactly the jobs offered while a positive limit of jobs waits are turned away; without a limit every job is accepted. |
| `WorkerPool.JobIsInOnePlace` | vendored/httplib.h:679-743 | In every reachable state of every interleaving an accepted job is queued, running or done, in one place only, nothing else is, jobs were taken in order, and a positive limit holds. |
| `WorkerPool.NoDeadlock` | vendored/httplib.h:711-729 | When a pool with a worker can take no step, all its workers sleep and everything accepted has run, or shutdown was called and all have exited. |
| `WorkerPool.ComesToRest` | vendored/httplib.h:711-729 | Left to itself the pool takes only boundedly many steps. |
| `WorkerPool.ShutdownDrains` | vendored/httplib.h:692-705 | With at least one worker and no enqueue after shutdown, every accepted job has run exactly once when all workers have exited. |
| `WorkerPool.AllRanIffNoneLate` | vendored/httplib.h:679-743 | When all workers have exited, every accepted job has run exactly once if and only if none was accepted after the last worker had left. |
| `WorkerPool.LateJobNeverRuns` | vendored/httplib.h:679-690 | With one worker, after shutdown, its exit and an enqueue, the job is accepted and nothing ever runs, whatever follows. |
| `LittleEndian.MaskedIsFirst` | include/runtime/helpers.h:52-55 | Masking a loaded word with the inverted shifted ones keeps its first bytes and clears the rest. |
| `LittleEndian.ShiftedIsRest` | include/runtime/helpers.h:57 | Shifting a loaded word right drops its first bytes. |
| `VarLenStrings.Read8PadZero` | include/runtime/helpers.h:44-58 | All load paths, for every length and alignment, give the first eight bytes padded with zeros, and load only from cache lines that hold a byte of the string. |
| `VarLenStrings.VarLen32.constructor` | include/runtime/helpers.h:82-96 | The value built from memory depends on the bytes alone for short strings, and on first bytes, length and address for long ones. |
| `VarLenStrings.StrOfRepresent` | include/runtime/helpers.h:97-119 | The string can be read back; a short one from the value alone, whatever memory holds later. |
| `VarLenStrings.EmittedEqIsEquality` | lib/execution/CEmitter.cpp:416-430 | The emitted two-flag comparison with the full comparison where the second flag asks for it decides string equality. |
| `VarLenStrings.DetailIff` | lib/execution/CEmitter.cpp:426-428 | The second flag asks for the full comparison exactly for strings of the same length above 12 that begin with the same four bytes. |
| `VarLenStrings.FirstFlagAlone` | lib/execution/CEmitter.cpp:416-424 | The comparison of all 16 bytes alone decides equality if and only if the strings differ, are short, or are in the same place. |
| `VarLenStrings.EqualStringsHashEqually` | lib/execution/CEmitter.cpp:431-444 | Equal strings take the same hash path and get the same hash, wherever they are. |
| `VarLenStrings.DifferentStringsCanDiffer` | lib/execution/CEmitter.cpp:431-444 | No part of a string is left out of its hash: for any two different strings there are hash functions under which they differ. |
| `GrowingBuffers.FlexibleBuffer.Insert` | include/runtime/Buffer.h:51-59 | Returns the next slot, in the last buffer or in a new one of twice the capacity, and counts it. |
| `GrowingBuffers.FlexibleBuffer.Iterate` | include/runtime/Buffer.h:62-68 | Visits the slots in use, buffer after buffer. |
| `GrowingBuffers.FlexibleBuffer.Merge` | include/runtime/Buffer.h:85-91 | Puts the other object's buffers first, adds the lengths and drains the other object. |
| `GrowingBuffers.InsertedValid` | include/runtime/Buffer.h:51-59 | Insert appends one slot, inside allocated memory, that no earlier element has, and keeps all others. |
| `GrowingBuffers.InsertsDouble` | include/runtime/Buffer.h:41-59 | However many elements are inserted, every buffer is twice as large as the one before, none but the last has room, and every element is in allocated memory, provided that the initial capacity is not zero. |
| `GrowingBuffers.NoCapacityOverrun` | include/runtime/Buffer.h:41-59 | With an initial capacity of zero the first insert is outside allocated memory. |
| `GrowingBuffers.MergedValid` | include/runtime/Buffer.h:85-91 | Merge moves no element, puts the merged-in ones first, and adds up the bounds. |
| `GrowingBuffers.EveryRun` | include/runtime/Buffer.h:35-91 | After every run of inserts and merges over any number of buffers: iterating finds the elements in order, each in a slot of its own that no other buffer has; the length is their number; the capacity is the last buffer's; allocated slots are at most twice the length plus the initial capacities. |
| `GrowingBuffers.DrainedReuse` | include/runtime/Buffer.h:85-91 | From a drained buffer into which something was merged, any number of inserts, with merges between them or not, stays inside allocated memory if and only if there are none, or the last buffer is not empty and has room for all of them. |
| `GrowingBuffers.FullBufferOverrun` | include/runtime/Buffer.h:85-91 | After a full buffer is merged into a drained one the next insert is outside allocated memory. |

## Left out

C emitter
- C types, integer width and signedness, operator spelling, comments and indentation: values are integers and
  operations are opaque functions of their arguments and the memory.
- Operations with several results (multi-result calls, the two-flag comparison as an operation), declaration of all
  variables at the top, blocks and goto, function and module headers. An absent else is modelled as an empty one.
- Evaluation is bounded by fuel on both sides, and both use it up together; a program that diverges is one that uses up
  every amount.

Plans
- Group joins, windows, sorting and limits, single, full outer and collection joins, set operations, nested and
  temporary operators, and queries nested in predicates.
- Columns are created once, and grouping and projection columns come from the input, as in plans that the frontend
  builds. For hash columns the join predicate is assumed to equate them.
- RelAlgFreeColumns.OutputIsAvailable: states "contains", not "equals", because semi, anti-semi and mark joins call the
  default getAvailableColumns on their left child; when both are equal is `FreeColumnReads.AvailableExactIff`.
- Dependencies that the default getFDs would pass through the other operators.
- DependencyTheorem.InferSound: requires that the right inputs of inner, mark and outer joins do not read the left tuple,
  because the claim is false there (`DependentJoins.DependentJoinFails`). The query optimizer infers dependencies only
  after unnesting (`lib/RelAlg/Passes.cpp:25`, used from line 32 on).
- DependencyTheorem.DuplicateFreeKeyIsKey: requires the same.
- DependencyTheorem.ReducedColumnsDetermine: requires the same.
- Results used by several operators are folded along chains that may stop anywhere; hash columns are not folded, as in
  the code.

Predicates and decimals
- AndCanonicalization.Canonicalize: the meaning is kept where the operands are truth values, which the types demand. Where
  several bounds of one side exist the last one visited is merged; the order of the hash map does not matter.
- OrFactoring.Canonicalize: no termination measure is claimed for repeated rewriting. A disjunction of a single empty
  conjunction is replaced although failure is reported, as in the code.
- Arithmetic on decimals at run time; the contracts are about which exact results a type can hold.

Hashes
- Xxh3Scalar.StreamingXxh3: the hash of inputs of at most 240 bytes is a parameter, the same on both sides, and so are
  the secrets; vector instructions are left out.
- Xxh3Streaming.AgreesIffNotStale: is about the hash that records what it accumulates. For the real arithmetic the same
  is proved of the accumulators; their final mixing into 64 or 128 bits may collide.
- Alignment, byte order of the host, and lengths beyond 2^64 bytes.
- XXH3 has no published value that is recomputed here; its secret is a parameter.
- That the table of MD5 constants consists of sines is not proved; it is compared entry by entry with the code.

HTTP
- Sockets, time-outs, write failures and shutdown in the provider loop, compression, and trailers on the writing side.
- ChunkedFraming.StreamLineReader.GetLine: a read error within a line is not modelled.
- ChunkedFraming.ReadContentWithLength: the receiver accepts everything, and the progress callback is left out.
- ChunkedFraming.WriteContentChunked: the provider performs one action a call, and no write fails.
- ChunkedFraming.ReadContentChunked: the receiver accepts everything, reads never return an error, and the headers parsed
  from trailer lines are not collected.
- MultipartParsing.MultipartFormDataParser.Parse: which header lines are accepted is a parameter; the callbacks for
  headers and content never refuse; names and types of parts are not collected.
- MultipartPieces.FormInPieces: header lines are shorter than 8192 bytes, the limit that the code sets, there is neither
  preamble nor epilogue, and the opening boundary occurs in no part but where it stands between two.
- MultipartPieces.PartsInPieces: the same limit on header lines, and no epilogue.
- The pool's jobs end and do not throw; memory order is that of the mutex.

Runtime
- VarLenStrings.EqualStringsHashEqually: the word hash, its combination and the runtime's hash of long strings are
  parameters.
- The address in a long string value is kept apart from characters, since the length tells them apart.
- Parallel iteration over buffers, element sizes and addresses: a slot is an allocation and an index.
- Hash tables, arrays, heaps and string functions of the runtime, of which only headers are present.
