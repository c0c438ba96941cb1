# GLUE: the request/answer glue between a coarse-grain solver and fine-grain physics

GLUE (Generic Learning User Enablement) sits between a coarse-grain
application, such as the inertial-confinement-fusion (ICF) BGK solver, and
expensive fine-grain molecular-dynamics runs. It has two halves:

- A C/C++ client library. It numbers requests, writes them to a SQL request
  table, waits for answers in a result table, and in collective mode funnels
  the requests of every MPI rank through rank 0.
- A Python service. It polls the request table, answers each request from a
  cache, the ground-truth table, an analytic formula, a learned model, a fake
  stencil or a freshly launched LAMMPS job, and writes the answers back.

This project models that core in Dafny as pure functions over immutable data
and proves what each step guarantees. It covers:

- the mode, solver, provenance and database enumerations and their integer codes;
- the request and result comparators;
- the SQL text the client writes and the service reads, with parse/render round trips;
- the retry loop around `sqlite3_exec`;
- the request counters;
- the collective batching over MPI;
- the result-table callbacks and the result-extraction loops;
- the service's polling and de-duplication of requests;
- the request cascade: cache, ground truth, analytic, scheduler, LAMMPS job;
- the fake, analytic and active-learning answer paths and retraining;
- the merge of answers into the result table;
- the database handles;
- the job-script builder;
- the species classification and Darken table of the ICF utilities;
- the random-forest learner's packing and error gate;
- the request-submit helper.

Modules, one per concern:

| module | file | concern |
|---|---|---|
| Fallible | fallible.dfy | `Option`, `Result` |
| Text | text.dfy | decimal rendering, line splitting, word splitting, joining |
| GlueTypes | glue_types.dfy | enumerations, codes, BGK request/result records |
| Sql | sql.dfy | parameterised statements and placeholder counting |
| Comparators | comparators.dfy | `icf_comparator`, `bgk_req_compare`, `bgk_result_compare` |
| SqlStrings | sql_strings.dfy | statement templates, `getReqSQLString`, `getResultSQLString*`, `getSQLArrGenString` |
| SqlRetry | sql_retry.dfy | `sendSQLCommand`, `makeSQLRequest`, `makeColSQLRequest` |
| Client | client.dfy | request counters, `col_insertReqs`, blocking reads, `req_single`, `req_batch`, connect/close |
| Collective | collective.dfy | batching of a rank's requests, rank-0 service loop, `MPI_Reduce` of batch counts |
| ResultTables | result_tables.dfy | result callbacks, `getRangeOfResults`, `col_extractResults` |
| GroundTruth | ground_truth.dfy | ground-truth query, version filter, request-row decoding, equivalence clauses |
| Polling | polling.dfy | per-rank request polling with missing-request bookkeeping |
| Scheduling | scheduling.dfy | queue listings, admission, job scripts, ingestion arguments, job directories |
| Species | species.dfy | species classification, LAMMPS script choice, analytic solution, Darken table |
| Learner | learner.dfy | input/output packing, error gate, interpolation-model evaluation |
| Service | service.dfy | cache, request cascade, per-mode answers, retraining, merge, pull, main loop |
| DbHandle | db_handle.dfy | `ALDBHandle` / `SQLiteHandle` state machine |
| Submit | submit.dfy | `getSQLFromReq`, `getPersistentReqNumber`, `submitFGSJobs` |

How the outside world enters the model:

- Quantities that are IEEE doubles in the program are `real`.
- Everything the core calls but does not define is a parameter of the
  functions that use it:
  - the fine-grain physics (`Species.Physics`);
  - the learned model's `predict` (`Learner.InterpModel`);
  - `%f` formatting (`fmt: real -> string`);
  - the ground-truth rows a query returns and the scheduler listings (`Service.World`);
  - the sequence of result-table snapshots a spin loop observes (`polls`).
- A busy-wait loop becomes a finite sequence of observations. Running out of
  observations is an error value that stands for "still waiting".

## Model

| member | source | states |
|---|---|---|
| GlueTypes.ModeOfCode | GLUECode_Library/src/include/alInterface.h:10-20 | a stored mode code decodes exactly when it is one of the eight enumerated values 0-6 and 9 |
| GlueTypes.ModeCodeRoundTrip | glueCodeTypes.py:4-10 | decoding the code of a mode gives the mode back, and a code that decodes re-encodes to itself |
| GlueTypes.ModeCodeInjective | GLUECode/src/include/alInterface.h:10-20 | two modes with the same wire code are the same mode |
| GlueTypes.DatabaseModeOfCode | GLUECode_Library/src/include/alInterface.h:22-27 | a database-mode code decodes exactly when it is 0, 1 or 2 |
| GlueTypes.DatabaseModeCodeRoundTrip | GLUECode/src/include/alInterface.h:22-27 | database modes and their codes are mutually inverse on the enumerated range |
| GlueTypes.ProvenanceMatchesMode | glueCodeTypes.py:17-22 | each result provenance that has a code shares it with the mode of the same name, so a result's provenance names the path that produced it |
| GlueTypes.InputFieldsInjective | glueCodeTypes.py:29-33 | the nine request columns (temperature, four densities, four charges) determine the request |
| GlueTypes.OutputFieldsInjective | glueCodeTypes.py:40-44 | the twelve result columns (viscosity, conductivity, ten diffusion coefficients) determine the result |
| Comparators.IcfComparatorSpec | ICF_Utils.py:1385-1394 | the ICF comparator accepts exactly when every non-zero field of the reference is within relative tolerance of the candidate |
| Comparators.IcfComparatorReflexive | ICF_Utils.py:1386-1394 | with a non-negative tolerance every request matches itself |
| Comparators.IcfComparatorIgnoresZeroFields | ICF_Utils.py:1387-1392 | fields that are zero in the reference never influence the verdict |
| Comparators.IcfComparatorOneSided | ICF_Utils.py:1385-1394 | the difference is not taken in absolute value: a candidate whose fields lie between 0 and the reference's is always accepted |
| Comparators.IcfComparatorAsymmetric | ICF_Utils.py:1385-1394 | the comparator is not symmetric: uniform 1.0 against 2.0 is accepted, 2.0 against 1.0 is not |
| Comparators.ScanSpeciesSpec | ICF_Utils.py:1390-1393 | the per-species loop keeps its flag exactly when no later density or charge exceeds the tolerance |
| Comparators.RequestsEqualSpec | GLUECode_Library/src/include/alInterface.h:50-63 | two requests compare equal exactly when each of the nine fields passes the C relative-difference test, including its IEEE behaviour at a zero reference |
| Comparators.ResultsEqualSpec | GLUECode_Library/src/include/alInterface.h:88-101 | two results compare equal exactly when each of the twelve output fields passes the test; provenance is ignored |
| Comparators.RequestsEqualReflexive | GLUECode/src/include/alInterface.h:37-50 | every request compares equal to itself, zero fields included |
| Comparators.ResultsEqualReflexive | GLUECode/src/include/alInterface.h:63-76 | every result compares equal to itself |
| Comparators.RequestsEqualZeroField | GLUECode_Library/src/include/alInterface.h:56-60 | a reference field of zero against a non-zero field makes the requests unequal (the quotient is infinite) |
| Comparators.RequestsEqualAsymmetric | GLUECode_Library/src/include/alInterface.h:56-60 | the C comparison is one-sided in its divisor: uniform 5.0 matches -1.0 but not the reverse |
| Comparators.FoldEqualSpec | GLUECode_Library/src/include/alInterface.h:56-61 | the field-by-field loop ends true exactly when it started true and no remaining field exceeds the library epsilon |
| SqlStrings.ParseRender | GLUECode_Library/src/include/alInterface.hpp:149-166 | for a well-formed template, parsing a rendered statement recovers every value substituted into it |
| SqlStrings.RenderInjective | GLUECode_Library/src/include/alInterface.hpp:149-166 | distinct admissible value lists render to distinct statements |
| SqlStrings.ResultSqlString | GLUECode_Library/src/include/alInterface.hpp:149-170 | the single-result SELECT exists only for the BGK and BGK-masses result types and carries the request id, tag and rank in that order |
| SqlStrings.SelectResultRoundTrip | GLUECode_Library/src/include/alInterface.hpp:153-166 | the request id, tag and rank can be read back from the single-result SELECT |
| SqlStrings.ResultSqlStringInjective | GLUECode_Library/src/include/alInterface.hpp:153-166 | two single-result SELECTs are equal only for the same rank, tag and request id |
| SqlStrings.ResultRangeSqlString | GLUECode_Library/src/include/alInterface.hpp:128-138 | the range SELECT exists only for BGK results and carries the first and last ids, the tag and the rank |
| SqlStrings.SelectRangeRoundTrip | GLUECode_Library/src/include/alInterface.hpp:128-138 | the id range, tag and rank can be read back from the range SELECT |
| SqlStrings.ReqSqlString | GLUECode_Library/src/include/alInterface.hpp:96-117 | a request INSERT exists for BGK and BGK-masses requests only; it holds 13 or 17 values, and each can be read back from the statement |
| SqlStrings.RequestRoundTrip | GLUECode_Library/src/include/alInterface.hpp:100-113 | tag, rank, id, every formatted field and the mode read back from the request INSERT, provided formatted numbers hold no comma |
| SqlStrings.InsertFits | GLUECode_Library/src/include/alInterface.hpp:103-110 | the INSERT template, with either of its two closing separators, parses back any tag, numbers and fields free of the delimiters |
| SqlStrings.SqlTypeName | glueSQLHelpers.py:15-21 | Python `int` maps to INT, `float` to REAL, any other type raises |
| SqlStrings.GetSqlArrGenString | glueSQLHelpers.py:15-25 | the column-list generator fails exactly for unsupported element types and otherwise yields one segment per element, none for a negative length |
| SqlStrings.SegmentsCommas | glueSQLHelpers.py:23-24 | an `n`-element column list contains exactly `n` commas, one per generated column |
| SqlStrings.SegmentsExtend | GLUECode_Service/glueSQLHelpers.py:9-12 | the column list for `n` elements is a prefix of the list for more elements |
| SqlRetry.MakeSqlRequest | GLUECode_Library/src/include/alDBInterfaces.hpp:14-21 | the global request path picks the global BGK result callback for BGK results and never the per-rank one |
| SqlRetry.MakeColSqlRequest | GLUECode/src/include/alDBInterfaces.hpp:12-28 | the columnar path picks the per-rank BGK callback for BGK results and never the global one |
| SqlRetry.SendSqlCommand | GLUECode_Library/src/include/alDBInterfaces.hpp:51-89 | a build without SQLite support exits with status 1 before its first attempt |
| SqlRetry.RetryFromSpec | GLUECode/src/alDBInterfaces.cpp:4-21 | the retry loop returns only at an OK code reached through BUSY/LOCKED codes and exits only on another code |
| SqlRetry.ReturnsOnlyOnOk | GLUECode_Library/src/include/alDBInterfaces.hpp:32-49 | a returning call stopped at the first OK code; every retry before it saw BUSY or LOCKED |
| SqlRetry.ExitsOnlyOnFatalRetry | GLUECode/src/include/alDBInterfaces.hpp:30-47 | exit(1) happens only on a retry (never the first attempt) that got a code other than OK, BUSY or LOCKED |
| SqlRetry.FirstCodeNeverFatal | GLUECode_Library/src/include/alDBInterfaces.hpp:35-37 | any failure code on the first attempt leads to a retry, however fatal it is |
| Client.NextReq | GLUECode/src/alInterface.cpp:26-33 | each request takes the current counter and the counter advances by one |
| Client.IssueReqsCountsUp | alInterface.cpp:62-69 | `n` requests receive the consecutive ids counter, ..., counter+n-1 and leave the counter at counter+n |
| Client.NextForRank | GLUECode/src/alInterface.cpp:35-46 | the per-rank counter hands out the rank's current count, advances only that rank, and grows the vector to cover a new rank |
| Client.FirstIdForRankIsZero | alInterface.cpp:71-82 | a rank never seen before starts at id 0 |
| Client.ColInsertReqs | GLUECode_Library/src/include/alInterface.hpp:313-328 | columnar insertion gives the requests consecutive ids from the rank's counter, writes each in input order with mode DEFAULT, and touches no other rank's counter |
| Client.SetOf | GLUECode_Library/src/include/alInterface.hpp:281-287 | the `std::set` of ids holds exactly the issued ids, in increasing order without repeats |
| Client.SetOfIssued | GLUECode_Library/src/include/alInterface.hpp:289-297 | the set of a batch's freshly issued ids iterates in issue order, so results come back in input order |
| Client.ReadAll | GLUECode_Library/src/include/alInterface.hpp:292-297 | reading a batch back returns exactly when every blocking read returns, and then holds each read's value in order |
| Client.ReqBatch | GLUECode_Library/src/include/alInterface.hpp:279-299 | a batch writes one request per input with consecutive ids before reading anything; when the reads return there is one result per input |
| Client.ReqBatchReturnsIffAllReadsReturn | GLUECode_Library/src/include/alInterface.hpp:292-297 | the batch returns exactly when the blocking read of every input's request returns |
| Client.ReqBatchInInputOrder | GLUECode_Library/src/include/alInterface.hpp:281-299 | when the batch returns, its `i`-th result is the blocking read's value for the `i`-th input's request |
| Client.ReqBatchKillHasNoResults | GLUECode_Library/src/include/alInterface.hpp:208-211 | a KILL batch returns at once with no result for any input |
| Client.ReadResultBlocking | GLUECode_Library/src/include/alInterface.hpp:201-236 | a KILL request returns at once without reading; otherwise the read returns the first snapshot holding the id, and only if some snapshot holds it |
| Client.ReqSingle | GLUECode_Library/src/include/alInterface.hpp:251-264 | a single request writes exactly one row under the current id, advances the counter, and its answer is the row the blocking read found |
| Client.StopServiceSendsOneKill | alInterface.cpp:104-116 | stopping the service writes one zero-filled KILL request and waits for nothing |
| Client.ConnectGlue | GLUECode/src/alInterface.cpp:171-185 | only rank 0 opens the database; with table sizing, rank 0 gets one result table per rank, keeping existing ones and adding empty ones |
| Client.CloseGlue | GLUECode/src/alInterface.cpp:201-216 | only rank 0 acts: it sends a KILL under the next id and closes the database |
| Client.Preprocess | alInterface.cpp:220-227 | preprocessing passes the inputs through unchanged and reports their count |
| Collective.BatchCountCovers | GLUECode_Library/src/include/alInterface.hpp:478-482 | the batch count is the least number of buffer-sized batches that cover the requests |
| Collective.ChunkEnd | GLUECode_Library/src/include/alInterface.hpp:561-568 | every batch is non-empty, batches abut, and the last ends at the request count |
| Collective.SendBatches | GLUECode_Library/src/include/alInterface.hpp:554-575 | the send loop emits exactly the tagged batches of the input |
| Collective.ReceiveSent | GLUECode_Library/src/include/alInterface.hpp:572 | receiving by tag from a rank's sends yields the batch sent under that tag (tags count down from the batch count to 1) |
| Collective.RootReceive | GLUECode_Library/src/include/alInterface.hpp:503-521 | rank 0 collects a rank's batches exactly when every tag from 1 to the batch count was sent |
| Collective.RootReceiveBatches | GLUECode_Library/src/include/alInterface.hpp:503-521 | receiving a rank's sends gives back its input chunks in sending order |
| Collective.RootServe | GLUECode_Library/src/include/alInterface.hpp:527-542 | rank 0 answers with one message per received batch |
| Collective.RootServeChunks | GLUECode_Library/src/include/alInterface.hpp:527-542 | serving a rank's chunks sends the answers chunked and tagged as the requests were |
| Collective.ReceiveBatches | GLUECode_Library/src/include/alInterface.hpp:579-601 | the receive loop reassembles the tagged answer batches into the full answer vector |
| Collective.CollectiveRoundTrip | GLUECode_Library/src/include/alInterface.hpp:468-605 | a non-root rank's collective request returns exactly the answers to its inputs, in input order |
| Collective.ReduceMax | GLUECode_Library/src/include/alInterface.hpp:484 | the reduction is the elementwise maximum: an upper bound attained by some rank |
| Collective.ReducedCounts | GLUECode_Library/src/include/alInterface.hpp:476-484 | after the reduction rank 0 knows every rank's batch count |
| Collective.ReqBatchesOnRank | alInterface.cpp:331-339 | after `MPI_Reduce` only rank 0 holds the counts; every other rank's vector is zero |
| Collective.IcfNonRootStarvesRoot | alInterface.cpp:403-405 | as written, a non-root rank with inputs sends nothing, so rank 0 never receives the batch it was told to expect |
| Collective.NonRootSendsExpected | GLUECode_Library/src/include/alInterface.hpp:555-557 | counting from the rank's own input, it sends exactly its batches and rank 0 receives all of them |
| Collective.IcfRootReceive | alInterface.cpp:358-374 | the older root receives at most one batch per rank per call |
| Collective.IcfRootServe | alInterface.cpp:380-392 | the older root answers at most one batch and fails exactly when it indexes past the received batches |
| Collective.IcfRootIndexPastEnd | alInterface.cpp:383 | with any batch pending, the older root's index runs past the end of what it received |
| Collective.RootServesEveryBatch | GLUECode_Library/src/include/alInterface.hpp:524-543 | the newer root answers every received batch, under the tag it came with |
| Collective.IcfExtractResults | alInterface.cpp:247-320 | the older extraction returns one blank result per requested id; its matching loop is commented out |
| ResultTables.ParseRow | GLUECode/src/alDBInterfaces.cpp:29-42 | a result row converts to the result whose twelve outputs and provenance are the row's |
| ResultTables.FileRow | GLUECode/src/alDBInterfaces.cpp:45-53 | storing a row adds its request id and leaves existing entries alone (`map::insert` does not overwrite) |
| ResultTables.FirstRowWins | alInterface.cpp:33-57 | when a callback sees several rows for the same id, the first one is kept |
| ResultTables.ExecColOneRank | GLUECode/src/alInterface.cpp:253-281 | the per-rank callback files every row into its rank's table and no other |
| ResultTables.Exec | GLUECode_Library/src/include/alDBInterfaces.hpp:14-30 | the global callback leaves the per-rank tables alone and the per-rank callback leaves the global table alone |
| ResultTables.Hits | GLUECode_Library/src/include/alInterface.hpp:368-385 | the in-range filter keeps a sub-table of the stored results; for any non-empty range it keeps the whole table |
| ResultTables.GetRangeOfResults | GLUECode_Library/src/include/alInterface.hpp:341-390 | a range read returns only once the rank's table is non-empty; unless the SELECT used the per-rank callback, that table was non-empty before the read |
| ResultTables.RangeAsWrittenSpins | GLUECode_Library/src/include/alInterface.hpp:357-364 | as written, the SELECT fills the global table while the loop waits on the rank's table, so an empty rank table never fills |
| ResultTables.RangeColumnarReturns | GLUECode_Library/src/include/alInterface.hpp:357-388 | with the per-rank callback the first non-empty answer is filed and returned in one round |
| ResultTables.MatchRound | GLUECode_Library/src/include/alInterface.hpp:422-453 | one pass keeps the matched results and the remaining ids in step with the request list |
| ResultTables.ColExtractResults | GLUECode_Library/src/include/alInterface.hpp:401-456 | extraction fills each requested id with its first answer, leaves already-done slots blank, and fails only if all snapshots are empty or an id is never answered |
| GroundTruth.GroundTruthVersion | GLUECode_Service/alInterface.py:29-34 | only BGK and BGK-masses ground truth have versions, and they differ |
| GroundTruth.GndQueryBound | GLUECode_Service/alInterface.py:77-106 | the ground-truth SELECT has exactly as many placeholders as arguments |
| GroundTruth.GndQueryArgs | GLUECode_Service/alInterface.py:85-104 | its arguments are each non-zero field followed by the relative error, then the BGK version |
| GroundTruth.GndQueryFrame | GLUECode_Service/alInterface.py:83-102 | the query begins with the fixed SELECT head and ends with the version filter |
| GroundTruth.GndQueryDefined | GLUECode_Service/alInterface.py:105-106 | both variants of the query exist for BGK requests only |
| GroundTruth.FieldClausesArgs | GLUECode_Service/alInterface.py:85-101 | zero fields are skipped; each other field contributes its value and the tolerance |
| GroundTruth.GndQueryAlwaysTemperatureArgs | alInterface.py:45-60 | the older variant always constrains the temperature before the non-zero species fields |
| GroundTruth.GndQueryAlwaysTemperatureBound | alInterface.py:36-66 | the older variant's placeholders match its arguments |
| GroundTruth.GndQueryVariantsAgree | alInterface.py:45-48 | at non-zero temperature the two variants produce the same query |
| GroundTruth.ProcessReqRow | GLUECode_Service/alInterface.py:121-129 | a request row decodes for BGK with a known mode; the decoded request's fields are the row's and the mode re-encodes to the row's code |
| GroundTruth.ScanGroundTruth | GLUECode_Service/alInterface.py:915-918 | the scan over returned rows computes the last row of the current version |
| GroundTruth.LastVersionMatchSpec | GLUECode_Service/alInterface.py:915-918 | a ground-truth answer exists exactly when some row has the current version, and it is the last such row |
| GroundTruth.ResultsEquivalence | alInterface.py:79-95 | the result-join clause exists for BGK only |
| GroundTruth.ResultsEquivalenceJoin | alInterface.py:84-93 | it equates TAG, RANK and REQ between the attached and the local result table |
| GroundTruth.GndEquivalence | alInterface.py:97-118 | the ground-truth join clause exists for BGK only |
| GroundTruth.GndEquivalenceJoin | alInterface.py:101-116 | it is the AND of one column equality per ground-truth key column |
| GroundTruth.SpeciesEqualitiesLoop | alInterface.py:106-112 | the per-species loop emits the density and charge equalities of every species in order |
| GroundTruth.GndEquivalenceColumnsSpec | alInterface.py:103-115 | the join covers exactly the nine input columns and INVERSION |
| Polling.InitialSources | GLUECode_Service/alInterface.py:1018 | one source per rank and per learner slot, each with nothing seen and nothing missing |
| Polling.SelLowerBound | GLUECode_Service/alInterface.py:54-58 | the poll starts at the smallest missing id, or just past the newest seen id when none is missing |
| Polling.SelQuery | GLUECode_Service/alInterface.py:59-62 | the request SELECT exists for BGK only and binds the rank and the tag |
| Polling.SelQueryBound | GLUECode_Service/alInterface.py:60 | its placeholders match its two arguments |
| Polling.MaxReq | GLUECode_Service/alInterface.py:1059 | the newest id of a poll is one of its ids and bounds all of them |
| Polling.NewRangeFacts | GLUECode_Service/alInterface.py:1063 | the newly expected ids are the distinct ids after the old newest up to the new newest |
| Polling.RemoveFirst | GLUECode_Service/alInterface.py:1074 | removing a found id from the missing list removes one occurrence and nothing else |
| Polling.Dequeue | GLUECode_Service/alInterface.py:1066-1074 | every pending id is either still missing or dequeued once, and every polled row of a pending id is dequeued |
| Polling.PollSource | GLUECode_Service/alInterface.py:1052-1074 | a poll never moves a source back, raises its newest id to the poll's maximum, and splits old and new pending ids between missing and dequeued |
| Polling.InitialInv | GLUECode_Service/alInterface.py:1018 | a fresh source satisfies the bookkeeping invariant: missing and enqueued ids partition 0..newest without repeats |
| Polling.PollKeepsInv | GLUECode_Service/alInterface.py:1058-1074 | a poll dequeues each id at most once, never one already enqueued, and keeps the invariant |
| Polling.PolledKeepsInv | GLUECode_Service/alInterface.py:1052-1074 | whatever a source had enqueued before, a poll of it dequeues only fresh ids, each once, and keeps the invariant |
| Polling.SelectCoversPending | GLUECode_Service/alInterface.py:54-58 | every id below the SELECT's lower bound has already been enqueued, so no request is skipped |
| Service.CacheCheckSpec | GLUECode_Service/alInterface.py:812-820 | the cache answers exactly when some entry is within tolerance, and then with the first such entry |
| Service.FirstHitSpec | GLUECode_Service/alInterface.py:815-818 | the cache scan from any position returns the first hit from there on |
| Service.CacheAppendKeepsHits | GLUECode_Service/alInterface.py:927 | appending to the cache never changes an existing hit |
| Service.CacheRemembers | GLUECode_Service/alInterface.py:927 | a request answered and cached is found in the cache afterwards |
| Service.CacheIgnoresOtherSolvers | GLUECode_Service/alInterface.py:819-820 | the cache never answers a non-BGK request |
| Service.WriteLammpsInputs | GLUECode_Service/alInterface.py:131-199 | LAMMPS inputs are written for the FGS and fast-FGS modes only, exactly when a script set exists for the species mix with the service's two masses; a request with species 2 or 3 present fails |
| Service.AwaitAdmission | GLUECode_Service/alInterface.py:942-948 | waiting for a scheduler slot ends in admission exactly when some observed listing admits; an unknown scheduler raises |
| Service.QueueFGSJob | GLUECode_Service/alInterface.py:892-948 | queueing a fine-grain job keeps the tables, adds at most one buffered answer and launches at most one job |
| Service.CascadeCacheHit | GLUECode_Service/alInterface.py:910-931 | a cache hit is buffered with DB provenance without consulting the ground truth or the scheduler |
| Service.CascadeTableHit | GLUECode_Service/alInterface.py:912-931 | a ground-truth hit is cached and buffered with DB provenance |
| Service.CascadeAnalytic | GLUECode_Service/alInterface.py:934-937 | a weakly coupled request misses both tables and is answered analytically without touching the cache or launching a job |
| Service.CascadeLaunch | GLUECode_Service/alInterface.py:939-948 | a job is launched only after misses in both tables, a strongly coupled request and an admitting listing; it buffers nothing |
| Service.EffectiveMode | GLUECode_Service/alInterface.py:1084-1086 | a DEFAULT request takes the configured default mode; any other mode is kept |
| Service.FakeOutputs | GLUECode_Service/alInterface.py:1106-1115 | the fake answer is zero everywhere except the eighth diffusion coefficient |
| Service.FakeStencilIsSmoothing | GLUECode_Library/tests/sniffTest_serial.c:96-118 | that coefficient is the three-point average the fake test's stencil expects |
| Service.FakeTask | GLUECode_Service/alInterface.py:1106-1115 | a fake task buffers exactly one fake answer with FAKE provenance and changes nothing else |
| Service.AnalyticTask | GLUECode_Service/alInterface.py:1116-1125 | an analytic task succeeds exactly for BGK requests with only the first two species present, buffering one ANALYTIC answer |
| Service.ProcessTask | GLUECode_Service/alInterface.py:1077-1129 | a KILL task only stops the loop; any other task keeps the loop state, only extends the buffer and leaves the result tables alone |
| Service.LearnerTask | GLUECode_Service/alInterface.py:1090-1105 | a learner task logs exactly one prediction and never shrinks the buffer |
| Service.LearnerAccepted | GLUECode_Service/alInterface.py:1100-1103 | an accepted prediction is logged and buffered with LEARNER provenance |
| Service.LearnerStubFails | GLUECode_Service/alInterface.py:592-627 | with the fake backend the learner task always raises |
| Service.ProcessTasksKill | GLUECode_Service/alInterface.py:1126-1129 | after a batch of tasks the loop keeps spinning exactly when no task was a KILL; the result tables are untouched and the buffer only grows |
| Service.Retrain | GLUECode_Service/alInterface.py:1035-1040 | retraining happens only when due; then it records the new ground-truth count and the backend, or raises for MYSTIC |
| Service.NoModelWithoutLearningDefault | GLUECode_Service/alInterface.py:1036 | unless the default mode is active learning, no model is ever trained |
| Service.RetrainSettles | GLUECode_Service/alInterface.py:1036-1040 | after retraining it is due again only for a negative threshold or a zero count |
| Service.MergeBuffer | GLUECode_Service/alInterface.py:822-841 | merging moves the whole buffer into the result table in order and empties it |
| Service.MergeIdempotent | GLUECode_Service/alInterface.py:834-838 | merging twice is the same as merging once |
| Service.ExecuteInsert | GLUECode_Service/alInterface.py:878-879 | an INSERT executes only in the `VALUES` form with sixteen placeholders, appending the row |
| Service.PullAsWrittenFails | GLUECode_Service/alInterface.py:878 | as written, the refresh INSERT lacks `VALUES` and fails on the first fine-tier row |
| Service.InsertAllValues | GLUECode_Service/alInterface.py:877-879 | the well-formed INSERT appends every row in order |
| Service.Pull | GLUECode_Service/alInterface.py:843-883 | the refresh appends the whole fine-tier table to the result table |
| Service.PullAttach | GLUECode_Service/alInterface.py:885-886 | the attach-based refresh always raises |
| Service.Entries | GLUECode_Service/alInterface.py:1052-1057 | a poll's rows decode exactly when each one does, one entry per row |
| Service.DecodesStep | GLUECode_Service/alInterface.py:1052-1057 | one undecodable row stops the whole polling pass |
| Service.PollAll | GLUECode_Service/alInterface.py:1043-1074 | a polling pass succeeds exactly when every row decodes; each source moves as its own poll moves it, the task queue is the polls' dequeued tasks in source order, and every source keeps the invariant |
| Service.PolledAllKeepInv | GLUECode_Service/alInterface.py:1043-1074 | after a pass every source keeps the invariant, with its dequeued ids counted as enqueued |
| Service.Serve | GLUECode_Service/alInterface.py:1077-1134 | serving succeeds exactly when every task is served; the result table then gains the buffer with every served answer, then the fine-tier table, and nothing else changes; the loop stops exactly on a KILL |
| Service.Iterate | GLUECode_Service/alInterface.py:1033-1134 | a main-loop iteration retrains when due, polls every source as its own poll does and keeps each source's invariant, serves exactly the dequeued tasks in source order, and keeps spinning exactly when none was a KILL |
| Scheduling.ParseListing | GLUECode_Service/alInterface.py:316-323 | an empty listing means the scheduler is unreachable; otherwise the job count is the number of job lines |
| Scheduling.ListingRoundTrip | slurmInterface.py:27-29 | a listing made of a header and job lines parses back to exactly those jobs |
| Scheduling.SlurmQueueCount | slurmInterface.py:23-31 | the queue count is -1 exactly for an empty listing and otherwise the number of jobs |
| Scheduling.TesterAdmits | lammpsTester.py:18-21 | the tester admits exactly when fewer jobs than the maximum are queued |
| Scheduling.QueueUsable | GLUECode_Service/alInterface.py:288-305 | the blocking scheduler always admits; an unknown one raises |
| Scheduling.QueueUsableListing | GLUECode_Service/alInterface.py:288-303 | SLURM and Flux admit exactly when fewer jobs are listed than their configured limits |
| Scheduling.UnreachableNeverAdmits | GLUECode_Service/alInterface.py:316-318 | an unreachable scheduler never admits a job under any sane limit |
| Scheduling.JobHeader | GLUECode_Service/alInterface.py:403-424 | a job header exists for known schedulers, starts with the shebang and carries that scheduler's launcher |
| Scheduling.JobHeadersDiffer | alInterface.py:295-319 | different schedulers yield different headers |
| Scheduling.ProvisioningLines | GLUECode_Service/alInterface.py:452-488 | Spack provisioning emits its fixed lines (three more with a Spack root), manual emits one, anything else raises |
| Scheduling.LaunchLines | GLUECode_Service/alInterface.py:559-560 | one launch line per LAMMPS script, in order |
| Scheduling.JobScript | GLUECode_Service/alInterface.py:551-582 | the job script begins with the header and contains every launch line in order |
| Scheduling.IngestArgsCorrectedWords | GLUECode_Service/alInterface.py:565-577 | with the credentials spaced as flags, the ingestion arguments split into exactly the intended flags |
| Scheduling.IngestArgsAsWrittenWords | GLUECode_Service/alInterface.py:574-577 | as written, the user flag runs into the database mode, giving different words |
| Scheduling.JobDirNameInjective | GLUECode_Service/alInterface.py:534 | the job directory name determines the rank and request id |
| Scheduling.BuildAndLaunch | GLUECode_Service/alInterface.py:528-590 | LBM requests raise; an existing job directory means nothing is redone; otherwise exactly that job's script is launched |
| Scheduling.BuildAndLaunchIdempotent | GLUECode_Service/alInterface.py:536 | building and launching the same job twice launches it once |
| Species.ClassifyPrefix | ICF_Utils.py:1312-1319 | each processed species lands in the list of its class, in increasing order |
| Species.ClassifyIsPartition | ICF_Utils.py:1312-1319 | zero, trace and major species partition the species indices |
| Species.ClassifyZeros | ICF_Utils.py:1313-1314 | a species is zero exactly when its density is zero |
| Species.MixtureChoice | ICF_Utils.py:1333-1344 | one or two major species pick their script; three or four fail; none falls back to traces |
| Species.TraceScripts | ICF_Utils.py:1323-1329 | one single-species script per trace species, in order |
| Species.LammpsScripts | ICF_Utils.py:1306-1351 | the script list is the trace scripts followed by one mixture script, and the zero species are reported |
| Species.LammpsScriptsMixture | ICF_Utils.py:1322-1351 | the script set exists exactly when the mixture is non-empty and labelled and every trace and mixture species has a mass, and it ends with the mixture's script |
| Species.LammpsScriptsFourSpecies | ICF_Utils.py:1322-1351 | for four species the script set exists exactly for one or two major species, all with masses |
| Species.NoMajorFails | ICF_Utils.py:1348 | with no major species the mixture writer gets empty arrays and fails dividing by their zero sum (ICF_Utils.py:1068), even when traces exist |
| Species.UnweighedSpeciesFail | ICF_Utils.py:1322-1348 | a present species past the end of the mass array makes the script writer fail |
| Species.ThreeMajorsFail | ICF_Utils.py:1339-1342 | three or more major species among four have no script set |
| Species.DiffusionVector | ICF_Utils.py:1035 | the analytic diffusion vector fills exactly slots 0, 1 and 4 |
| Species.AnalyticSolution | ICF_Utils.py:1006-1036 | the analytic solution fails exactly when both light species are absent; an absent species contributes zero coefficients |
| Species.AnalyticIgnoresOtherSpecies | ICF_Utils.py:1006-1012 | it depends on the first two species only |
| Species.DarkenTable | ICF_Utils.py:1354-1383 | for a non-zero total density the Darken table holds every species pair and nothing else, each entry the Darken mutual diffusion; a zero total is an error |
| Species.DarkenDiagonal | ICF_Utils.py:1364-1374 | a diagonal entry is the species' self-diffusion, or zero for an absent species |
| Species.DarkenSymmetric | ICF_Utils.py:1378-1383 | the table is symmetric |
| Species.DarkenAbsentSpecies | ICF_Utils.py:1366-1369 | a pair with an absent species has zero interdiffusion |
| Learner.PackInputs | rf_learner.py:121-124 | the input vector is the temperature, then the densities, then the charges |
| Learner.PackOutputs | rf_learner.py:135-137 | the output vector holds viscosity, conductivity and then the diffusion coefficients |
| Learner.UnpackOutputs | rf_learner.py:126-133 | unpacking needs at least two values and is inverse to packing |
| Learner.UnpackPack | rf_learner.py:126-137 | unpacking a packed output gives it back |
| Learner.PackUnpackBGK | rf_learner.py:126-137 | a packed BGK result is its twelve table columns |
| Learner.SolverIndexesMatchGndRow | rf_learner.py:142-151 | the learner's column slices of a ground-truth row are the packed request and result |
| Learner.ProcessIsErrOk | rf_learner.py:84-85 | one verdict per output column |
| Learner.IsErrOk | rf_learner.py:87-91 | the error check needs one bound per output column |
| Learner.IsErrOkLeaves | rf_learner.py:84-91 | each column passes exactly when its error is below its bound |
| Learner.InactiveColumnsPass | rf_learner.py:75-79 | columns without training data have infinite bounds and always pass |
| Learner.CheckFromSpec | alInterface.py:487-496 | the checker loop stays true exactly when every remaining verdict is truthy |
| Learner.SimpleALErrorChecker | alInterface.py:487-496 | the simple checker accepts exactly when every verdict is truthy |
| Learner.Evaluate | alInterface.py:498-525 | the stub model always evaluates; a learned model evaluates with twelve bounds and offers its prediction |
| Learner.StubNeverAccepts | alInterface.py:450-461 | the stub model never accepts and offers no answer |
| Learner.LearnedAccepts | alInterface.py:507-525 | a learned model accepts exactly when every column's error is below its bound |
| Learner.GetInterpModel | alInterface.py:463-474 | the backend selects the stub, the network or the forest; MYSTIC raises |
| DbHandle.NewHandle | GLUECode_Service/alDBHandlers.py:9-19 | a new handle has no connection and no cursor |
| DbHandle.GetDbHandle | GLUECode_Service/alDBHandlers.py:119-140 | only the SQLite mode yields a handle |
| DbHandle.OpenCursor | GLUECode_Service/alDBHandlers.py:74-88 | opening a cursor reconnects exactly when no connection is open, with the 45-second timeout, and leaves a usable cursor |
| DbHandle.Execute | GLUECode_Service/alDBHandlers.py:89-103 | a statement runs only on a usable cursor, with its arguments exactly when some were given |
| DbHandle.CloseCursor | GLUECode_Service/alDBHandlers.py:104-109 | closing the cursor also closes the connection unless the handle is persistent |
| DbHandle.Commit | GLUECode_Service/alDBHandlers.py:110-113 | committing needs an open connection and changes no handle state |
| DbHandle.CloseDb | GLUECode_Service/alDBHandlers.py:114-117 | closing leaves no open connection |
| DbHandle.SessionsConnect | alDBHandlers.py:37-57 | over `n` sessions a persistent handle connects at most once and stays open; a non-persistent one connects every time and ends closed |
| DbHandle.PersistentConnectsOnce | alDBHandlers.py:63-72 | a persistent handle from the factory connects exactly once however many sessions it serves |
| Submit.GetSqlFromReq | submitFGSJob.py:4-20 | a BGK request becomes the request-table INSERT with thirteen bound values; anything else raises |
| Submit.RequestArgs | submitFGSJob.py:7-17 | the argument tuple exists for BGK requests only and has thirteen values |
| Submit.InsertBgkReqsPlaceholders | submitFGSJob.py:6 | the INSERT has thirteen placeholders |
| Submit.SubmittedRowIsServed | submitFGSJob.py:7-17 | a submitted request is stored as rank -1 and read back by the service as the same request in FGS mode |
| Submit.NextPersistentReqNumber | submitFGSJob.py:22-28 | the counter stores the number just handed out |
| Submit.PersistentReqNumbersFromStart | submitFGSJob.py:22-28 | from the first call the numbers are 0, 1, 2, ... |
| Submit.SubmitFgsJobsRaises | submitFGSJob.py:32-34 | a batch is submitted exactly when every element is a BGK request |
| Submit.SubmitFgsJobsSpec | submitFGSJob.py:30-37 | a BGK batch is submitted whole under consecutive numbers and each row is served as its request |
| Submit.SubmitFgsJobsAsWritten | submitFGSJob.py:30-40 | as written, any non-empty batch raises at the connection, so nothing is written |
| Submit.SubmitAsWrittenLosesBatch | submitFGSJob.py:35 | every BGK batch that the corrected loop submits whole is lost as written |

## Left out

- The fine-grain physics (plasma parameters, the analytic Stanton-Murillo formulas, the LAMMPS runs): `Species.Physics` and `Service.World` are parameters.
- LAMMPS script writing (`writeLammpsScript.py`, `lammps.script.builder.py`) and the LAMMPS result processors: only the script names are modelled.
- Training of the neural-network and random-forest learners: a model is represented by its `predict` function and error bounds.
- Process spawning (`subprocess`, `sbatch`, `flux`, `squeue`): the listings a command returns are inputs. File I/O is the directory set and launch log of `Scheduling.JobFs`.
- SQL semantics beyond the statements the core writes: tables are sequences of rows; statement texts are parsed only against their own templates.
- MPI concurrency and the table mutexes: messages are sequences with tags, and one rank's exchange with rank 0 is modelled in isolation.
- Busy-wait loops (`while(!haveResult)`, the scheduler wait, the retry loop) run over a finite sequence of observations, so the model cannot express non-termination.
- `%f` formatting is the parameter `fmt`. The request round trip assumes formatted numbers contain no comma.
- `atoi`/`atof` in the result callbacks: result rows are already typed.
- IEEE negative zero, NaN and infinity inputs. The model keeps only the divide-by-zero behaviour of the comparators' relative test (`CExceeds`) and of the classification fraction (`BelowFraction`).
- ResultTables.Hits: the in-range filter at GLUECode_Library/src/include/alInterface.hpp:371 is a tautology in the source, so the model keeps the whole table for any non-empty range.
- The `auto` copy of a per-rank table in `getRangeOfResults` makes the lock protect a copy; locking is not modelled.
- Rank-0 `col_extractResults` on an empty request list is undefined behaviour in the source and is not modelled.
- Python enumerations differ from the C header: `glueCodeTypes.py` lacks MYSTIC, ANALYTIC and RANDFOREST, and has no code for ANALYTIC provenance. `glueCodeTypes.py` defines no `DatabaseMode` at all, although both copies of `alDBHandlers.py` import it (alDBHandlers.py:1); `DbHandle.GetDbHandle` takes its codes from `DatabaseMode_e` in the C header (GLUECode_Library/src/include/alInterface.h:22-27). The model follows the C header and the code that uses those names.
- DbHandle: the closed-object exceptions of `sqlite3` are reduced to connection and cursor states.
- DbHandle.CloseCursor: `sqlite3`'s `Cursor.close()` raises `ProgrammingError` when the cursor's connection is already closed, for example on a second `closeCursor` of a non-persistent handle (GLUECode_Service/alDBHandlers.py:104-109); the model returns `Ok` there.
- SqlStrings.SqlTypeName: the error message of the service copy (GLUECode_Service/glueSQLHelpers.py:8, misspelled "Trype") is not distinguished from the other copy's.
- Submit.SubmitFgsJobsSpec: describes the rows the corrected loop binds; the database write itself is not modelled.
- Harmless statement spacing is reproduced, not flagged: two spaces before the last value of the masses INSERT (alInterface.hpp:110) and before `AND` in the range SELECT (alInterface.hpp:135).
- Scheduling.BuildAndLaunch: the job script carries the corrected ingestion arguments (`IngestArgsCorrected`); as written, the credential flags run into the mode word (see Findings, `Scheduling.IngestArgsAsWrittenWords`).
- Service.Serve, Service.Iterate: the main loop refreshes with the corrected `Pull`; as written, `pullGlobalResultsToFastDBPython` raises at GLUECode_Service/alInterface.py:878 whenever the fine tier holds a row, which ends the service (see Findings, `Service.PullAsWrittenFails`).
- Species.DarkenTable: a zero total density is an error in the model; numpy instead divides to NaN concentrations and writes `D=0` or `D=nan` lines without raising (ICF_Utils.py:1356-1383). NaN is not modelled.
- Client.ReqBatch: each id's blocking read sees its own sequence of result-table snapshots; how those reads interleave in time with the service is not modelled. For KILL the source returns uninitialised results; the model returns no result.
- Client.NextReq, Client.NextForRank: the C `int` counters are unbounded integers; incrementing past `INT_MAX` is undefined behaviour in the source (in practice a wrap to negative ids). `Client.SetOfIssued` therefore says nothing about a batch whose ids cross that limit.
- SqlStrings.ReqSqlString, SqlStrings.ResultSqlString, SqlStrings.ResultRangeSqlString: the statements are unbounded strings; the source `sprintf`s them into `char sqlBuf[2048]` (GLUECode_Library/src/include/alInterface.hpp:102-110, 134-135, 155-156), which overflows for a long tag or long formatted numbers.
- Species.LammpsScripts: the mixture writer's division by the summed densities fails only for an empty mixture here; a non-empty mixture whose densities sum to zero, possible only with negative densities, is not modelled.
- `glueArgParser.py`, the test drivers and the prototypes in the top-level `alInterface.h`/`alInterface.hpp` are not part of this model.

## Findings

| source | as written | input that shows it | evidently intended | confidence | as-written member | corrected member |
|---|---|---|---|---|---|---|
| GLUECode_Service/alInterface.py:574-577 | credentials are appended as `"- u " + user` with no leading space | database mode 0 and user `bob`: the arguments end in the words `0-`, `u`, `bob` | a separate `-u bob` flag | not executed | Scheduling.IngestArgsAsWrittenWords | Scheduling.IngestArgsCorrectedWords |
| GLUECode_Service/alInterface.py:878 | `INSERT INTO BGKRESULTS (?,...,?)` has no `VALUES` keyword | any non-empty fine-tier result table | append every fine-tier row | not executed | Service.PullAsWrittenFails | Service.Pull |
| alInterface.cpp:403-405 | non-root ranks size their sends with `reqBatches[myRank]`, which `MPI_Reduce` leaves at zero off rank 0 | rank 1 of 2 with one input: it sends nothing while rank 0 waits for one batch | send the rank's own batch count | not executed | Collective.IcfNonRootStarvesRoot | Collective.NonRootSendsExpected |
| alInterface.cpp:380-383 | rank 0 serves with `if` rather than a loop and indexes `reqsPerBatch[rank][resultBatches[rank]]` | any rank with one pending batch: index 1 of a one-element vector | answer every batch, indexing from zero | not executed | Collective.IcfRootIndexPastEnd | Collective.RootServesEveryBatch |
| GLUECode_Library/src/include/alInterface.hpp:357-364 | the range SELECT goes through `sendSQLCommand`, whose callback fills the global table, but the loop waits on the rank's table | an empty per-rank table | use the per-rank callback | not executed | ResultTables.RangeAsWrittenSpins | ResultTables.RangeColumnarReturns |
| submitFGSJob.py:35 | connects to `dbPath`, a name the file never defines (the parameter is `sqlDBPath`) | any list holding one BGK request | connect to `sqlDBPath` | not executed | Submit.SubmitFgsJobsAsWritten | Submit.SubmitFgsJobsSpec |
