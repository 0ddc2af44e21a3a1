# C++ metrics parser: a Dafny model

This project models the metric computations of CodeCompass's C++ metrics
parser plugin (`plugins/cpp_metrics/parser/src/cppmetricsparser.cpp`). It
covers these passes:

- **Per-function metrics.** Parameter count, function-level McCabe and bumpy road.
- **Type-level McCabe.** The sum of the function McCabe values of a type's methods.
- **Lack of cohesion.** The standard LCOM and the Henderson–Sellers variant.
- **Relational cohesion per module.** `checkTypes` and H = (R + 1) / N.
- **Incremental invalidation.** `cleanupDatabase`.
- **The pass order of `parse`.**

Every database query becomes plain input data: sequences of view rows in
query order, sets of hashes, and a map from file path to incremental status.
Every pass is a pure function from that data to the metric records it
persists. Metric values are `real`s. The `Value` datatype adds the two IEEE
outcomes the passes can produce: a NaN for a Henderson–Sellers value with a
single method, and positive infinity for a module without types.

Modules and files:

- `metric_types.dfy` (`MetricTypes`): identifiers, file statuses, positions, metric values and records.
- `invalidation.dfy` (`Invalidation`): `cleanupDatabase` over the two caches and the two metric tables.
- `function_metrics.dfy` (`FunctionMetrics`): `functionParameters`, `functionMcCabe` and `functionBumpyRoad`.
- `type_mccabe.dfy` (`TypeMcCabe`): `typeMcCabe`, including the two loops written as methods.
- `lack_of_cohesion.dfy` (`LackOfCohesion`): `lackOfCohesion`.
- `relational_cohesion.dfy` (`RelationalCohesion`): `relationalCohesion` and `checkTypes`.
- `metrics_parser.dfy` (`MetricsParser`): `parse`, the six passes appended to the store in order.

Three behaviours of the code that the model keeps:

- **Relational cohesion counts files, not (file, type) pairs.** A relation is
  counted only when the using file holds no relation yet in the module
  (line 284), and the four `checkTypes` calls share that record. So R is the
  number of files in the module that use a module type defined in another
  file. It is not the number of distinct (file, type) pairs. The `none_of`
  test that follows can never fail.
- **The LCOM range filter compares lines only.** Each column clause in the
  filter is already implied by the line comparison next to it (lines 482-487).
  So the filter admits exactly the nodes whose lines lie inside the method's lines.
- **A module without types gets positive infinity.** The division in
  relational cohesion is unguarded (line 411). With N = 0 it is (R + 1) / 0.0,
  which is positive infinity. The model returns that value rather than
  requiring N > 0.

## Model

| member | source | states |
|---|---|---|
| Invalidation.EraseFileMetrics | plugins/cpp_metrics/parser/src/cppmetricsparser.cpp:73 | erasing by file keeps exactly the file metrics of other files, each as often as before |
| Invalidation.EraseAstNodeMetrics | plugins/cpp_metrics/parser/src/cppmetricsparser.cpp:91 | erasing by AST node keeps exactly the records of other nodes, each as often as before |
| Invalidation.EraseNothingFileMetrics | plugins/cpp_metrics/parser/src/cppmetricsparser.cpp:73 | erasing no file leaves the file metric table as it was |
| Invalidation.EraseNothingAstNodeMetrics | plugins/cpp_metrics/parser/src/cppmetricsparser.cpp:91 | erasing no AST node leaves the AST-node metric table as it was |
| Invalidation.Cleanup | plugins/cpp_metrics/parser/src/cppmetricsparser.cpp:54-104 | with an empty file id cache nothing changes and the result is success; otherwise it fails exactly when the transaction fails; on success no cached file or node is stale, every entry that is not stale is kept unchanged, and a metric record survives exactly when its file or node was not a stale cache entry |
| Invalidation.PruneNothingStale | plugins/cpp_metrics/parser/src/cppmetricsparser.cpp:60-95 | when nothing cached is stale, the cleanup transaction changes nothing |
| Invalidation.NothingStaleAfterPrune | plugins/cpp_metrics/parser/src/cppmetricsparser.cpp:60-95 | after the transaction no cached file id or AST node is stale, and every cached node's file is still known |
| Invalidation.CleanupIdempotent | plugins/cpp_metrics/parser/src/cppmetricsparser.cpp:54-104 | a second successful cleanup with the same file statuses changes nothing more |
| FunctionMetrics.BumpyRoadValue | plugins/cpp_metrics/parser/src/cppmetricsparser.cpp:163-170 | the value is 1.0 when a function has no statements, whatever its bumpiness; otherwise value × statements = bumpiness; it is non-negative, at most 1 when bumpiness ≤ statements and at least 1 when bumpiness ≥ statements |
| FunctionMetrics.FunctionParameters | plugins/cpp_metrics/parser/src/cppmetricsparser.cpp:116-123 | one PARAMETER_COUNT record per row, on the row's AST node, holding its parameter count |
| FunctionMetrics.FunctionMcCabe | plugins/cpp_metrics/parser/src/cppmetricsparser.cpp:138-145 | one MCCABE_FUNCTION record per row, on the row's AST node, holding its McCabe value |
| FunctionMetrics.FunctionBumpyRoad | plugins/cpp_metrics/parser/src/cppmetricsparser.cpp:161-171 | one BUMPY_ROAD record per row, on the same AST node, holding the bumpy road value of its bumpiness and statement count |
| FunctionMetrics.FunctionParametersSplit | plugins/cpp_metrics/parser/src/cppmetricsparser.cpp:108-125 | running the pass on two consecutive partitions writes the same records as one run over both |
| FunctionMetrics.FunctionMcCabeSplit | plugins/cpp_metrics/parser/src/cppmetricsparser.cpp:130-147 | running the pass on two consecutive partitions writes the same records as one run over both |
| FunctionMetrics.FunctionBumpyRoadSplit | plugins/cpp_metrics/parser/src/cppmetricsparser.cpp:153-174 | running the pass on two consecutive partitions writes the same records as one run over both |
| TypeMcCabe.NodeById | plugins/cpp_metrics/parser/src/cppmetricsparser.cpp:216-219 | a method's AST node is found when a node with that id exists, and reported missing only when none does |
| TypeMcCabe.FirstDefinition | plugins/cpp_metrics/parser/src/cppmetricsparser.cpp:222-228 | the first function definition with the entity hash in query order is taken; there is none exactly when no node is such a definition |
| TypeMcCabe.FunctionMcCabeOf | plugins/cpp_metrics/parser/src/cppmetricsparser.cpp:243-246 | a found value is a stored MCCABE_FUNCTION record of the node; none is found only when the node has no such record |
| TypeMcCabe.ResolveMethod | plugins/cpp_metrics/parser/src/cppmetricsparser.cpp:214-246 | a method's node is reported missing exactly when no node has its id; a method resolves only through that node's first definition, which is not implicit and has a stored MCCABE_FUNCTION record holding the resolved value |
| TypeMcCabe.ResolveMethodOutcomes | plugins/cpp_metrics/parser/src/cppmetricsparser.cpp:214-250 | each outcome in both directions: no definition exactly when no function definition shares the node's hash; implicit exactly when the first such definition carries the Implicit tag; no metric exactly when it is not implicit and has no MCCABE_FUNCTION record; resolved exactly when it is not implicit and has one, and then the value is that of its first record |
| TypeMcCabe.Contributions | plugins/cpp_metrics/parser/src/cppmetricsparser.cpp:210-251 | the values added to a type come from members that are methods of the type and resolve; nothing is added exactly when no member does |
| TypeMcCabe.MethodMcCabe | plugins/cpp_metrics/parser/src/cppmetricsparser.cpp:210-250 | one member adds its resolved McCabe value when it is a method of the type that resolves, and 0 otherwise |
| TypeMcCabe.SumMethodMcCabe | plugins/cpp_metrics/parser/src/cppmetricsparser.cpp:207-251 | the inner loop, starting from 0, computes the sum of the contributions of the type's methods |
| TypeMcCabe.CountedTypes | plugins/cpp_metrics/parser/src/cppmetricsparser.cpp:189-205 | a type definition is kept exactly when its file exists, lies under an input path and the type is not a template instantiation |
| TypeMcCabe.ComputeTypeMcCabe | plugins/cpp_metrics/parser/src/cppmetricsparser.cpp:189-261 | every counted type definition gets a MCCABE_TYPE record holding the sum of its methods' values, and every record written is of that kind |
| TypeMcCabe.SumOfParts | plugins/cpp_metrics/parser/src/cppmetricsparser.cpp:210-251 | the value over a member list split in two is the sum of the values of the parts |
| TypeMcCabe.SkippedMemberAddsNothing | plugins/cpp_metrics/parser/src/cppmetricsparser.cpp:218-246 | a member that is not a resolving method of the type changes nothing: no node, no definition, an implicit method or no metric |
| TypeMcCabe.ResolvedMethodAddsItsValue | plugins/cpp_metrics/parser/src/cppmetricsparser.cpp:246-250 | a resolving method adds exactly the McCabe value of its first definition |
| TypeMcCabe.NoEligibleMethodIsZero | plugins/cpp_metrics/parser/src/cppmetricsparser.cpp:207 | a type none of whose members resolves gets the value 0 |
| TypeMcCabe.TypeValueNonNegative | plugins/cpp_metrics/parser/src/cppmetricsparser.cpp:243-250 | when the stored function McCabe values are non-negative, so is every type value |
| TypeMcCabe.RecordPerCountedType | plugins/cpp_metrics/parser/src/cppmetricsparser.cpp:254-261 | every counted type has its record, there are at most as many records as type definitions, and all are MCCABE_TYPE |
| TypeMcCabe.RecordsComeFromCountedTypes | plugins/cpp_metrics/parser/src/cppmetricsparser.cpp:189-261 | every record written belongs to a counted type definition |
| TypeMcCabe.OneRecordPerType | plugins/cpp_metrics/parser/src/cppmetricsparser.cpp:186-261 | with unique AST node ids, no two records share an AST node |
| LackOfCohesion.InMethodSpan | plugins/cpp_metrics/parser/src/cppmetricsparser.cpp:480-487 | the node filter holds exactly for nodes in the method's file whose lines lie within the method's lines |
| LackOfCohesion.UsedFields | plugins/cpp_metrics/parser/src/cppmetricsparser.cpp:474-496 | a method's used fields are fields of the type, so there are at most F of them |
| LackOfCohesion.Tally | plugins/cpp_metrics/parser/src/cppmetricsparser.cpp:461-501 | M is at most the number of methods queried; its exact value and C's are fixed by TallyAppend and TallyOfOne |
| LackOfCohesion.TallyAppend | plugins/cpp_metrics/parser/src/cppmetricsparser.cpp:461-500 | M and C over two consecutive runs of method rows are the sums of M and C over each run |
| LackOfCohesion.TallyOfOne | plugins/cpp_metrics/parser/src/cppmetricsparser.cpp:461-500 | a single method row adds 1 to M and its number of distinct used fields to C when it is a method of the type with start before end, and nothing otherwise |
| LackOfCohesion.TallyBound | plugins/cpp_metrics/parser/src/cppmetricsparser.cpp:474-499 | C ≤ M · F |
| LackOfCohesion.CountsBound | plugins/cpp_metrics/parser/src/cppmetricsparser.cpp:449-501 | F is the number of distinct field hashes, M is at most the number of methods and C ≤ M · F |
| LackOfCohesion.StandardLcomMeaning | plugins/cpp_metrics/parser/src/cppmetricsparser.cpp:510-515 | the standard value is always a number: 0.0 for a trivial type, otherwise the x with x · (M·F) = M·F − C, and it lies in [0,1] when C ≤ M·F |
| LackOfCohesion.HendersonSellersMeaning | plugins/cpp_metrics/parser/src/cppmetricsparser.cpp:518-523 | the Henderson–Sellers value is 0.0 for a trivial type and NaN for a single method; otherwise it is the x with x · ((M−1)·F) = M·F − C, in [0,2] when C ≤ M·F |
| LackOfCohesion.LcomRanges | plugins/cpp_metrics/parser/src/cppmetricsparser.cpp:503-524 | for every type, the standard value lies in [0,1] and the Henderson–Sellers value lies in [0,2] or is NaN |
| LackOfCohesion.LackOfCohesionPass | plugins/cpp_metrics/parser/src/cppmetricsparser.cpp:447-525 | every type of the partition, trivial or not, gets its LACK_OF_COHESION record and then its LACK_OF_COHESION_HS record, and nothing else is written |
| LackOfCohesion.PassRecordsIff | plugins/cpp_metrics/parser/src/cppmetricsparser.cpp:511-524 | a record is written exactly when it is one of the two records of one of the partition's types |
| LackOfCohesion.LackOfCohesionPassSplit | plugins/cpp_metrics/parser/src/cppmetricsparser.cpp:426-447 | running the pass on two consecutive partitions writes the same records as one run over both |
| LackOfCohesion.TallyFullIff | plugins/cpp_metrics/parser/src/cppmetricsparser.cpp:461-500 | C = M · F exactly when every method with a body uses every field |
| LackOfCohesion.TallyEmptyIff | plugins/cpp_metrics/parser/src/cppmetricsparser.cpp:461-500 | C = 0 exactly when no method with a body uses any field |
| LackOfCohesion.FullyCohesiveIff | plugins/cpp_metrics/parser/src/cppmetricsparser.cpp:503-515 | a non-trivial type's standard LCOM is 0 exactly when every method with a body uses every field |
| LackOfCohesion.NotCohesiveIff | plugins/cpp_metrics/parser/src/cppmetricsparser.cpp:503-515 | a non-trivial type's standard LCOM is 1 exactly when no method with a body uses any field |
| RelationalCohesion.EnumerationSize | plugins/cpp_metrics/parser/src/cppmetricsparser.cpp:346 | a walk of the module set that visits every module once has exactly as many steps as there are modules |
| RelationalCohesion.ModuleIds | plugins/cpp_metrics/parser/src/cppmetricsparser.cpp:334-344 | a module path has an id exactly when some File row has that path |
| RelationalCohesion.ModuleIdIsLast | plugins/cpp_metrics/parser/src/cppmetricsparser.cpp:337-343 | of several File rows with a module's path, the last one in query order gives the id |
| RelationalCohesion.DefinitionPaths | plugins/cpp_metrics/parser/src/cppmetricsparser.cpp:351-360 | the map of defining paths has exactly the module's types as keys, so the lookup at line 282 never throws |
| RelationalCohesion.DefinitionPathIsFirst | plugins/cpp_metrics/parser/src/cppmetricsparser.cpp:359 | a type's recorded path is that of its first definition in the module, because an insert never overwrites |
| RelationalCohesion.CheckTypes | plugins/cpp_metrics/parser/src/cppmetricsparser.cpp:265-297 | relations are only ever added: the recorded relations and the counter never shrink |
| RelationalCohesion.NoneOfRedundant | plugins/cpp_metrics/parser/src/cppmetricsparser.cpp:284-290 | when a file holds no relation, the `none_of` test always passes |
| RelationalCohesion.CheckTypesFiles | plugins/cpp_metrics/parser/src/cppmetricsparser.cpp:265-297 | from a consistent start, the files holding a relation afterwards are those before plus every file with a qualifying use; R stays their number, with at most one type per file |
| RelationalCohesion.CheckTypesSplit | plugins/cpp_metrics/parser/src/cppmetricsparser.cpp:362-400 | running `checkTypes` on two views in turn, with the shared multimap and counter, is one run on their concatenation |
| RelationalCohesion.CheckAllIsOnePass | plugins/cpp_metrics/parser/src/cppmetricsparser.cpp:362-400 | the four calls for return types, parameters, locals and variables act as one pass over all the uses |
| RelationalCohesion.RelationCount | plugins/cpp_metrics/parser/src/cppmetricsparser.cpp:346-400 | R is the number of files under the module that use one of its types outside the file recording that type's definition |
| RelationalCohesion.RelationsAtMostUseFiles | plugins/cpp_metrics/parser/src/cppmetricsparser.cpp:279-295 | each file contributes at most one relation, so R never exceeds the number of distinct files in which the module's types are used |
| RelationalCohesion.NoTypesNoRelations | plugins/cpp_metrics/parser/src/cppmetricsparser.cpp:279-295 | a module without types has R = 0 |
| RelationalCohesion.OneRelationPerFile | plugins/cpp_metrics/parser/src/cppmetricsparser.cpp:284 | a worked example of the general count: one file using two module types defined in two other files gives R = 1, not 2 |
| RelationalCohesion.RelationalCohesionValue | plugins/cpp_metrics/parser/src/cppmetricsparser.cpp:408-411 | H is positive infinity exactly when N = 0; otherwise H · N = R + 1 and H > 0 |
| RelationalCohesion.RelationalCohesionPass | plugins/cpp_metrics/parser/src/cppmetricsparser.cpp:334-418 | with ids taken from the File rows, the walk of the module set writes exactly one RELATIONAL_COHESION record per module, as many records as modules, each the record of the module visited at that step |
| RelationalCohesion.ModuleRecordMeaning | plugins/cpp_metrics/parser/src/cppmetricsparser.cpp:402-417 | a module's record is RELATIONAL_COHESION, sits on the module's file id (0 when the path has no File row) and holds H for R related files and N types |
| MetricsParser.FunctionPassesKeepMcCabeNumeric | plugins/cpp_metrics/parser/src/cppmetricsparser.cpp:116-171 | the three function passes write only numbers under MCCABE_FUNCTION |
| MetricsParser.Parse | plugins/cpp_metrics/parser/src/cppmetricsparser.cpp:530-545 | a run only appends: the prior store is a prefix of the result, the AST-node records are those of the five passes in turn, and the file records are one RELATIONAL_COHESION record for every module, as many as there are modules |
| MetricsParser.ParseRunsPassesInOrder | plugins/cpp_metrics/parser/src/cppmetricsparser.cpp:530-545 | the records of one run come grouped in pass order: parameter count, function McCabe, bumpy road, type McCabe, then lack of cohesion |
| MetricsParser.FunctionMcCabeOfAppend | plugins/cpp_metrics/parser/src/cppmetricsparser.cpp:243-245 | looking a node's McCabe record up in two stores in turn finds the one in the first store when there is one |
| MetricsParser.FunctionMcCabeOfPass | plugins/cpp_metrics/parser/src/cppmetricsparser.cpp:138-145 | after the function McCabe pass, a node's lookup finds the value of its first row |
| MetricsParser.TypePassSeesFunctionPass | plugins/cpp_metrics/parser/src/cppmetricsparser.cpp:535-539 | because `functionMcCabe` runs before `typeMcCabe`, the type pass reads this run's value for a definition that had no earlier record |

## Left out

- Database plumbing is not modelled: ODB transactions, queries, `persist`, `erase_query` and lazy `load()`. Views are sequences in query order, and the store is two sequences of records. A failing cleanup transaction is an input flag.
- Invalidation.Cleanup: with a non-empty file id cache, the model requires every cached AST node's file to have a File row. The code dereferences the `query_one` result at lines 80-83 without checking it, so it has no defined behaviour otherwise. With an empty file id cache there is no such requirement: nothing is looked up.
- Invalidation.Cleanup: a transaction that fails part way leaves the in-memory caches partly pruned in the code. The model returns only the failure.
- The work split is not modelled. Partitioning into jobs and threads (`parallelCalcMetric`) and the path filter of each view (`getFilterPathsQuery`) are defined in the header, which is not part of this model. Each pass takes its already filtered rows; the Split lemmas show that the cut into partitions does not change the records.
- Building the module set is not modelled. Reading the module list file and, failing that, collecting the directories under the input paths (lines 306-332) is I/O, so the module set is an input.
- The walk order of the unordered module set is a parameter. RelationalCohesionPass and MetricsParser.Parse require it to visit every module exactly once, which is what iterating a hash set does.
- `fs::canonical` and `isRootedUnderAnyOf` are abstracted. Being under an input path is a set of paths given as input.
- RelationalCohesion.Under: `LIKE path + '%'` is modelled as a case-sensitive prefix test. This differs from the database in two ways. `_` and `%` inside a module path act as wildcards there. On SQLite, `LIKE` also ignores the case of ASCII letters. On those inputs the code can match files the model does not, so its N and R can differ from the model's.
- TypeMcCabe.ComputeTypeMcCabe: the code accumulates doubles into an `unsigned int`, which truncates at each addition; a sum beyond 2^32 − 1 makes the conversion undefined behaviour in C++. The model sums `real`s. The two agree while the stored function McCabe values are whole numbers and the sum fits.
- TypeMcCabe.ComputeTypeMcCabe: the code writes its records in the key order of a `std::map` on AST node id. The model writes them in query order; the set of records is the same.
- TypeMcCabe.FunctionMcCabeOf: `query_one` with several matching records is an error in the database library. The model takes the first record.
- MetricsParser.Parse: requires every MCCABE_FUNCTION value already in the store to be a number. Only the function McCabe pass writes that kind, and it writes whole numbers, so every earlier run leaves the store this way. The code would otherwise add a NaN into an unsigned integer. TypeMcCabe.ResolveMethod carries the same requirement for the same reason.
- IEEE doubles are not modelled: metric values are `real`, plus NaN and positive infinity as datatype variants. Rounding in divisions is not modelled.
- Log output is not modelled, nor are the plugin hooks `getOptions` and `make`.
- The plugin constructor's filling of the two caches is not modelled. The cleanup takes the caches as part of its state.
- The competence, YAML and Java type files of the repository are not part of this model. They are a libgit2 wrapper, a yaml-cpp traversal and a join-table declaration.
