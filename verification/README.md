# PrimiHub: a verified model of the MPC expression engine and its companions

This project models the parts of PrimiHub whose correctness does not follow from reading one
function, and proves what they promise over every input, every run or every interleaving.

1. **The MPC expression engine.** An infix text is compiled by a two-stack scanner into a suffix form.
   Three parties run that form on stacks of tagged unions; every column is local at one party and
   remote at the two others. `ExpressGrammar`, `ExpressParser`, `ExpressMinus` and `ExpressNames` are
   the compiler, `TokenMachine` is the stack machine that the MPC evaluator (`MpcEvaluator`) and the
   plaintext evaluator (`LocalEvaluator`) share, `MpcProtocol` and `MpcTheorems` run three parties side
   by side over the ideal functionality of `IdealMpc` (with `ReplicatedShares` showing why the local
   operations are exact), `ExpressExecutor` is the executor object with its mutable fields, and
   `MpcResults`, `MpcSession` and `LocalExecution` go from text and columns to the numbers each party
   receives, and compare them with the plaintext executor's.
2. **Three-party protocols.** `Handshake` is the exchange of column counts and types over FIFO channels
   in any interleaving; `Tournament` and `ColumnExtrema` are the minimum and maximum; `MissingValues` is
   one party's scan and repair of integer columns, `PooledRepair` the value the three agree on and what
   it does to their columns, `Decimal` the number texts.
3. **Loops with a global specification.** `Sampler` (mini-batches), `PsiMerge` (restoring the order of
   an intersection), `QueryTiling` (ranges of a multi-threaded query), `TrainTestSplit`.
4. **Small protocols.** `SchemaPublication` (double-checked locking), `Packets`, `NodeText`.

`dafny verify dfyconfig.toml` checks everything. Values that come from outside (the text conversions
`stod` and `atol`, the shuffles of the random generator, the values shown by the MPC operator, the
schedule of threads and parties) are parameters, and the results hold for all of them.

## Where the code does not do what it is meant to do

Each of these is modelled as the code does it. The lemmas named show a failing case, or state the exact
condition under which the intended property holds, or both.

- A minus after `(` swallows the text up to `)`, operators included, and a leading minus scans past the
  end of a text without operators: `ExpressMinus.ParsesIffSupported`, `ExpressMinus.SwallowedSum`.
- The token-count check counts operators in 16 bits and looks at no order; what it omits is that every
  prefix must have more operands than operators: `ExpressExecutor.AcceptsIffFewOperators`,
  `ExpressExecutor.AcceptsMalformed`, `ExpressExecutor.AcceptedRunsIff`.
- The type lookup raises on every literal, so the branch that types literals is unreachable. The
  methods take `lookupRaises`: `true` is the code as written, `false` the return code its caller tests.
- An operator with two literals dereferences a null share: `MpcTheorems.EvaluatesIffSharable`.
- Row counts are read in 32 bits, and a party that owns no column has count -1: such a party, or more
  than 2^32 - 1 rows, blocks every evaluation: `MpcResults.RunsIffSynced`,
  `MpcSession.RunsIffCountsAgree`.
- Re-reading the name of a result loses it if an operand is signed: `ExpressNames.ReparsesIffUnsigned`.
- A comparison reveals the sign of a 64-bit difference, which is wrong if the difference overflows; a
  party without a valid cell enters with a start value that overflows against half of all values:
  `Tournament.ChampionIff`, `PooledRepair.ReplacementExactIff`, `PooledRepair.ReplacementInRangeIff`,
  `PooledRepair.EmptyColumnSpoilsMax`.
- The pooled sum is taken in 64 bits and each count in 32, so an average can be far from all cells:
  `PooledRepair.OverflowedAverage`, `PooledRepair.AverageExactIff`, `PooledRepair.RevealedExactIff`,
  `PooledRepair.NarrowSafeIff`.
- The running maximum of a column starts at the smallest positive double: `ColumnExtrema.ExtremumIff`.
- The left-over round of a query starts too early: `QueryTiling.TilesIff`.
- A schema parse that throws half-way leaves half a schema for ever: `SchemaPublication.HalfSchema`,
  `SchemaPublication.AlwaysSoundIff`.
- On a list with a repeated key there is data that makes the merge leave out a key it has seen:
  `PsiMerge.RepeatedKeyStalls`, `PsiMerge.WritesAllSeenIff`.
- Only the lengths of columns are compared before a table is split, not their chunks:
  `TrainTestSplit.LoadDataset` for when that goes out of bounds, `TrainTestSplit.CutApart` and
  `TrainTestSplit.SameDestinationsIff` for when it tears rows apart.
- A colon in a field, or a port of 2^31 or more, is not read back: `NodeText.RestoresIff`.

## Model

| member | source | states |
|---|---|---|
| ExpressParser.ParsesToPostorder | src/primihub/executor/express.cc:467-571 | for every supported sentence of a grammar of sums, terms and factors that lists its operators, the scanner started on empty stacks leaves exactly the postorder of the tree |
| ExpressParser.Precedence | src/primihub/executor/express.cc:401-415 | on texts: a product or quotient binds before a sum or difference on either side of it, and two operators of one level group to the left |
| ExpressGrammar.LevelsAgree | src/primihub/executor/express.cc:401-415 | the numeric priorities of the scanner are the levels of that grammar |
| ExpressParser.UnclosedBracket | src/primihub/executor/express.cc:467-571 | a bracket that is never closed stays in the suffix form below everything else |
| ExpressParser.ScanPhrase | src/primihub/executor/express.cc:467-571 | the state of both stacks and of the pending token after any phrase in any context, which is the invariant behind the previous row |
| ExpressMinus.ParsesIffSupported | src/primihub/executor/express.cc:484-507 | over all sentences with unary minus, parsing yields the postorder if and only if every bracket that opens with a minus holds one signed literal and the text is not a bare signed literal |
| ExpressMinus.SwallowedSum | src/primihub/executor/express.cc:496-505 | `(-A+B)*C` is a sentence, and it parses to a product whose first operand is named `-A+B` |
| ExpressMinus.BareMinusRunsOut | src/primihub/executor/express.cc:486-495 | a text that is one signed literal is read past its end |
| ExpressMinus.SpoiledRun | src/primihub/executor/express.cc:496-505 | a token with an operator swallowed into it is never repaired by the rest of a run |
| ExpressMinus.TextDeterminesTree | src/primihub/executor/express.cc:467-571 | two supported sentences with the same text have the same tree |
| ExpressGrammar.PostorderPrefixFree | src/primihub/executor/express.cc:467-571 | postorders can be cut off unambiguously from the end of a token list |
| ExpressGrammar.PostorderInjective | src/primihub/executor/express.cc:467-571 | different trees have different suffix forms |
| ExpressNames.NamePrefixFree | src/primihub/executor/express.cc:1239-1284 | result names can be cut off unambiguously from the front of a text |
| ExpressNames.NameInjective | src/primihub/executor/express.cc:1239-1284 | result names of the form "(a op b)" are injective on trees |
| ExpressNames.ReparsesIffUnsigned | src/primihub/executor/express.cc:1312-1315 | re-parsing the name of a compound result gives its suffix form if and only if no operand in it is signed |
| ReplicatedShares.AddExact | src/primihub/operator/aby3_operator.cc:162-169 | adding shares party by party keeps the two copies of each share equal and adds the secrets mod 2^64 |
| ReplicatedShares.SubExact | src/primihub/operator/aby3_operator.cc:199-207 | the same for subtraction |
| ReplicatedShares.AddConstExact | src/primihub/operator/aby3_operator.cc:180-197 | adding a constant at parties 0 and 1 only keeps the copies equal and adds it once |
| ReplicatedShares.SubConstExact | src/primihub/operator/aby3_operator.cc:222-244 | share minus constant and constant minus share, by the mode flag, with the copies equal |
| ReplicatedShares.MulConstExact | src/primihub/operator/aby3_operator.cc:274-279 | multiplying by a constant multiplies the secret mod 2^64 |
| IdealMpc.DivideByConstant | src/primihub/executor/express.cc:1176-1182 | multiplying by the reciprocal of a constant is dividing by it, zero and undefined values included |
| TokenMachine.ExecPostorder | src/primihub/executor/express.cc:1216-1300 | from any stack, running the postorder of a tree is evaluating the tree and going on, faults included |
| TokenMachine.ExecTree | src/primihub/executor/express.cc:1216-1300 | from an idle machine, a tree ends as one name and one value, or with the fault of its evaluation |
| TokenMachine.EndsWithOneIff | src/primihub/executor/express.cc:1216-1300 | on a backend without faults of its own, the machine ends with exactly one name and one value if and only if the suffix form is some tree's postorder |
| TokenMachine.RunsCleanIffPostorder | src/primihub/executor/express.cc:1216-1300 | reading a suffix form as a stack of trees gives exactly one tree if and only if it is some tree's postorder |
| TokenMachine.BalancedIff | src/primihub/executor/express.cc:1189-1205 | from any stack, no operator lacks operands if and only if every prefix has more operands than operators, and the final height is the difference |
| TokenMachine.UnderflowIff | src/primihub/executor/express.cc:1189-1205 | when nothing else goes wrong, the machine underflows on exactly the forms that are not balanced |
| TokenMachine.ExecFollowsForest | src/primihub/executor/express.cc:1189-1214 | on every suffix form, a run that ends has as many names and values on its stacks as trees were built |
| MpcEvaluator.TagDiscipline | src/primihub/executor/express.cc:797-861 | over every run of every suffix form, malformed ones included, all tags stay in {0,2,4,5} or {1,3,4,6} by mode, each names the union member that is set, and no other member is read |
| MpcEvaluator.DivisionInIntegerMode | src/primihub/executor/express.cc:1137-1186 | the discipline needs the run mode: a quotient of integer columns reads the wrong member |
| MpcProtocol.IntegerRows | src/primihub/executor/express.cc:911-1135 | in integer mode each row of the value is the exact integer value of the tree, wrapped to 64 bits once |
| MpcProtocol.RealRows | src/primihub/executor/express.cc:864-1186 | in floating-point mode each row is the real value of the tree, and undefined if and only if some divisor in it is zero |
| MpcTheorems.MeansInMathematics | src/primihub/executor/express.cc:864-1186 | both together, for all rows of every tree that can be evaluated |
| MpcProtocol.SharingIff | src/primihub/executor/express.cc:741-781 | a column's sharing step works if and only if both parties other than the owner reserved the dealt row count, and then it yields the column |
| MpcProtocol.OperatorIssues | src/primihub/executor/express.cc:864-1186 | the operations each party issues for one operator, by kind of operand, in either mode |
| MpcProtocol.OperatorJoint | src/primihub/executor/express.cc:864-1186 | the three parties' operations for one operator match step by step and the last share is the row-wise result |
| MpcProtocol.DealtConstant | src/primihub/executor/express.cc:1150-1161 | a constant dividend has exactly one dealer, party 0 |
| MpcTheorems.EvaluatesIffSharable | src/primihub/executor/express.cc:864-1186 | a party evaluates a tree if and only if no operator in it has two literals; otherwise it dereferences a null share |
| MpcTheorems.Lockstep | src/primihub/executor/express.cc:1216-1300 | for every tree and every assignment of columns to owners, the three parties' operation lists match step by step, every sharing step has one dealer, and the last share holds the row-wise value of the tree |
| LocalEvaluator.LocalIsRowWise | src/primihub/executor/express.cc:1420-1646 | the plaintext evaluator computes the same row-wise value, and succeeds on exactly the same trees |
| MpcResults.StarvedBlocks | src/primihub/executor/express.cc:865-880 | if every column has a receiver with another row count, every evaluation with an operator stops, constant dividends included |
| MpcResults.RunsIffSynced | src/primihub/executor/express.h:176-197 | an evaluation goes through if and only if all three parties work with the one row count |
| MpcResults.TableIsFaithful | src/primihub/executor/express.cc:1207-1214 | however often subexpressions repeat, the string-keyed table files under each name a value of the one subtree with that name |
| MpcResults.JointReveal | src/primihub/executor/express.cc:1310-1365 | evaluation and reveals run to the end in lockstep and every reveal yields the row-wise value |
| MpcResults.LocalShows | src/primihub/executor/express.cc:1420-1646 | the plaintext machine, run on the suffix form, ends with exactly that value |
| MpcResults.EndToEnd | src/primihub/executor/express.cc:1216-1365 | from the text of a supported sentence: parse, one share at every party, lockstep with reveals, and the value that the plaintext evaluator computes |
| MpcResults.EvaluateAt | src/primihub/executor/express.cc:1216-1300 | one executor object ends with the name of the tree on its stack, its share in the table and the predicted operations in its log |
| MpcResults.Session | src/primihub/executor/express.cc:1216-1365 | three executor objects evaluate and reveal: each party gets the row-wise value once per listing, and all stacks are empty so the next parse is clean |
| LocalExecution.LocalExecutor.RunLocalEvaluate | src/primihub/executor/express.cc:1420-1646 | for every expression and whatever was left on the stack: the outcome of the re-parse, the run on the columns in the clear, and the value looked up by name |
| LocalExecution.Compare | src/primihub/executor/express.cc:1420-1646 | after a session the same executor's text parses again to the same form, and the plaintext result is exactly the rows that MPC revealed, which are the mathematical value |
| MpcSession.RunJob | src/primihub/executor/express.h:38-78 | the whole call sequence from new executors, text and columns to the revealed rows, which are the mathematical value, for every supported sentence without an operator on two literals and every job that goes through |
| MpcSession.RunsIffCountsAgree | src/primihub/executor/express.h:176-197 | a job of any size goes through if and only if its rows are counted in 32 bits and every party owns a column (or there are exactly 2^32 - 1 rows, which is what -1 reads as) |
| MpcSession.AlwaysEvaluable | src/primihub/executor/express.cc:628-676 | after the run mode is resolved, every leaf has a value and no quotient runs in integer mode, whatever the columns are |
| MpcSession.Setup | src/primihub/executor/express.cc:574-676 | the import calls bring an executor into exactly the state from which the lockstep theorem starts |
| MpcSession.ImportValues | src/primihub/executor/express.cc:196-291 | importing all own columns feeds each of them, converted to the run mode, and fixes the row count, which stays -1 without a column |
| ExpressExecutor.AcceptsIffFewOperators | src/primihub/executor/express.cc:421-464 | a correct suffix form is accepted if and only if it has fewer than 65536 operators |
| ExpressExecutor.UnclosedRefused | src/primihub/executor/express.cc:449-461 | every sentence after an unclosed bracket is refused |
| ExpressExecutor.AcceptsMalformed | src/primihub/executor/express.cc:421-464 | `+A+B)C` is accepted, and its suffix form underflows at the second token |
| ExpressExecutor.AcceptedRunsIff | src/primihub/executor/express.cc:421-464 | an accepted form is a tree's postorder if and only if it is balanced; then the MPC evaluator never underflows, and only a balanced form comes to an end, with one value |
| ExpressExecutor.DivisionInSuffix | src/primihub/executor/express.cc:643-648 | the suffix form has a quotient token if and only if the tree has a quotient |
| ExpressExecutor.Executor.ParseExpress | src/primihub/executor/express.cc:467-571 | the loops over the two stacks compute the scanner that `ParsesToPostorder` is about, from any starting stack |
| ExpressExecutor.Executor.CheckExpress | src/primihub/executor/express.cc:421-464 | the counting loop decides bracket-freeness and the operand surplus, modulo 2^16 |
| ExpressExecutor.Executor.ImportExpress | src/primihub/executor/express.cc:616-626 | return code, stack and stored text for every input, accepted or not |
| ExpressExecutor.Executor.ImportColumnDtype | src/primihub/executor/express.cc:37-50 | a second type for a column is refused and changes nothing |
| ExpressExecutor.Executor.ImportColumnOwner | src/primihub/executor/express.cc:52-65 | a second owner for a column raises and changes nothing |
| ExpressExecutor.Executor.ResolveLocalColumn | src/primihub/executor/express.cc:82-105 | raises unless owners and types are about the same columns, otherwise marks exactly the own columns as local |
| ExpressExecutor.Executor.HasFp64Column | src/primihub/executor/express.cc:143-153 | finds a floating-point column if and only if there is one |
| ExpressExecutor.Executor.ResolveRunMode | src/primihub/executor/express.cc:628-676 | the mode is floating point if and only if there is a quotient, a decimal literal or a floating-point column; types from earlier expressions are kept; raises exactly on inconsistent columns or, with the lookup as written, on any literal |
| ExpressExecutor.NeedsFp64Iff | src/primihub/executor/express.cc:643-669 | the mode by tokens: a division sign, a double column anywhere, or a decimal point in a token that is no operator and names no column |
| ExpressExecutor.Executor.ImportI64Values | src/primihub/executor/express.cc:197-258 | the return code of every case, and the column converted to the run mode |
| ExpressExecutor.Executor.ImportFp64Values | src/primihub/executor/express.cc:260-297 | the return code of every case; nothing is imported unless it is 0 |
| ExpressExecutor.Executor.SetOrCheckValueCount | src/primihub/executor/express.cc:185-195 | the first column fixes the row count and all others must have it |
| ExpressExecutor.Executor.RunMPCEvaluate | src/primihub/executor/express.cc:1216-1300 | the evaluation loop on the object is a run of the stack machine, and leaves the final names on the stack |
| ExpressExecutor.Executor.RevealMPCResult | src/primihub/executor/express.cc:1310-1365 | pops the final name, issues one reveal per listed party in order, and delivers the rows once per own listing |
| ExpressExecutor.DeliveredOnce | src/primihub/executor/express.cc:1318-1335 | a party that is not listed gets nothing, one that is listed once gets the rows |
| Tournament.SignBitIff | src/primihub/operator/aby3_operator.cc:281-407 | the revealed bit is "less than" if and only if the difference fits in 64 bits |
| Tournament.Play | src/primihub/executor/statistics.cc:221-387 | three parties running the same code: two providers per comparison, the same winner at all parties, one dealer, and its value everywhere |
| Tournament.ChampionIff | src/primihub/algorithm/missing_val_processing.cc:675-773 | each of the four tournaments returns the true extremum if and only if its comparisons are in range (or the last value beats a wrong first result) |
| Tournament.CloseValues | src/primihub/executor/statistics.cc:301-387 | for values less than 2^63 apart all four are right, and the negating and the direct maximum agree |
| Tournament.TieWinners | src/primihub/executor/statistics.cc:301-387 | on ties the negating maximum and both minima are dealt by the last party that has the value, the direct maximum by the first |
| Tournament.EmptyColumnWins | src/primihub/algorithm/missing_val_processing.cc:518-519 | the start value of an empty column wins against values of the other sign |
| ColumnExtrema.ColumnExtremum | src/primihub/executor/statistics.cc:412-452 | every value of the column is at most the MAX result and at least the MIN result, which is a value of the column or a start value, namely the fold of all chunks from the better start |
| ColumnExtrema.ExtremumIff | src/primihub/executor/statistics.h:173-203 | the fold is the column's largest or smallest value if and only if some value is at least, or at most, the start |
| Handshake.InvStep | src/primihub/algorithm/missing_val_processing.cc:442-502 | every step of every party keeps the invariant that ties channels and memories to program counters, and no message of one round is taken in the other |
| Handshake.NoDeadlock | src/primihub/algorithm/missing_val_processing.cc:442-502 | in every reachable state in which a party has not ended, some party can move |
| Handshake.MovesAreBounded | src/primihub/algorithm/missing_val_processing.cc:442-502 | every move adds one to a measure that never passes thirty |
| Handshake.AtMostThirtyMoves | src/primihub/algorithm/missing_val_processing.cc:442-502 | no schedule, however long, makes more than thirty moves from the start |
| Handshake.RestIsOver | src/primihub/algorithm/missing_val_processing.cc:442-502 | in every interleaving, a state in which nobody can move has all parties ended and all channels empty |
| Handshake.Completes | src/primihub/algorithm/missing_val_processing.cc:442-502 | from every reachable state some continuation comes to that rest |
| Handshake.Agreement | src/primihub/algorithm/missing_val_processing.cc:442-502 | in every interleaving, a party that has ended accepted if and only if the three type lists are equal |
| Handshake.NothingLeft | src/primihub/algorithm/missing_val_processing.cc:442-502 | when all have ended, all channels are empty |
| Decimal.IntRoundTrip | src/primihub/algorithm/missing_val_processing.cc:77-95 | printing an integer and reading it back is the identity and reads the whole text |
| Decimal.StrictIff | src/primihub/algorithm/missing_val_processing.cc:77-95 | a text converts to v if and only if it is white space, an optional sign and digits to its very end, with signed value v in 64 bits |
| Decimal.LeadingDigit | src/primihub/algorithm/missing_val_processing.cc:77-95 | the value of digits is by powers of ten |
| Decimal.TrailingRefused | src/primihub/algorithm/missing_val_processing.cc:82-84 | digits with anything after them are refused |
| MissingValues.ScanColumn | src/primihub/algorithm/missing_val_processing.cc:565-601 | sum mod 2^64, extrema and 32-bit count of exactly the valid cells, and the indices of exactly the cells that do not convert |
| MissingValues.CellValueIff | src/primihub/algorithm/missing_val_processing.cc:572-594 | a cell enters the tally with v if and only if it is not null and its text is v from end to end |
| MissingValues.BuildNewColumn | src/primihub/algorithm/missing_val_processing.cc:136-185 | the new column has all chunks in order, the parsed original at every valid cell and the replacement everywhere else, and no conversion fails |
| PooledRepair.AverageOfColumns | src/primihub/algorithm/missing_val_processing.cc:1095-1133 | for all columns: the three scans, the sharing and the division give the wrapped pooled sum over the 32-bit counts, or trap |
| PooledRepair.AverageExactIff | src/primihub/algorithm/missing_val_processing.cc:1095-1133 | the average is the truncated mean of all three parties' valid cells if and only if the pooled sum fits in 64 bits, even if local sums wrapped |
| PooledRepair.RevealedExactIff | src/primihub/algorithm/missing_val_processing.cc:1095-1125 | the revealed sum and count are the true ones if and only if the sum fits in 64 bits and each count in 32 |
| PooledRepair.OverflowedAverage | src/primihub/algorithm/missing_val_processing.cc:1095-1133 | two cells of 2^63 - 1 at two parties average to -1 |
| PooledRepair.SumFitsIsSafe | src/primihub/algorithm/missing_val_processing.cc:1095-1133 | without overflow the average lies between the smallest and the largest valid cell |
| PooledRepair.NarrowSafeIff | src/primihub/algorithm/missing_val_processing.cc:1095-1133 | for cells spread over at most 2^64 in all, the average lies in their range if and only if the pooled sum does not overflow |
| PooledRepair.ReplacementExactIff | src/primihub/algorithm/missing_val_processing.cc:675-773 | the MAX and MIN rules find the pooled extremum if and only if the comparisons of the columns' own extrema are in range |
| PooledRepair.ReplacementInRangeIff | src/primihub/algorithm/missing_val_processing.cc:675-773 | the replacement lies in the pooled range if and only if no empty column wins by sign (or its start value is a valid cell), or, for AVG, the revealed sum is within the range times the revealed count |
| PooledRepair.RepairKeepsRange | src/primihub/algorithm/missing_val_processing.cc:136-185 | under that condition repairing widens no column beyond the pooled range |
| PooledRepair.EmptyColumnSpoilsMax | src/primihub/algorithm/missing_val_processing.cc:518-519 | with one empty column and positive values elsewhere, the MAX rule writes -2^63 |
| PooledRepair.MeanInRange | src/primihub/algorithm/missing_val_processing.cc:1126-1133 | the truncated mean lies between any bounds on the pool, negative sums included |
| PooledRepair.RepairColumns | src/primihub/algorithm/missing_val_processing.cc:504-773 | all three parties and all columns, from scan over agreement to repaired columns: either the average traps, or valid cells are unchanged and one agreed value is everywhere else |
| Sampler.BatchSampler.GetSubset | src/primihub/algorithm/regression.h:32-46 | for any batch size, the batch is the next stretch of the stream that the shuffles determine; terminates through the empty first step |
| Sampler.BatchSampler.Take | src/primihub/algorithm/regression.h:36-44 | a used-up pool is replaced by its shuffle and read from the start, otherwise pool and shuffle count stay |
| Sampler.BatchSampler.ValidIsStream | src/primihub/algorithm/regression.h:32-46 | what has been drawn is blocks that are permutations, then a prefix of one, and place j of it is place j mod n of the pool after j div n + 1 shuffles |
| Sampler.BlocksCount | src/primihub/algorithm/regression.h:32-46 | in q blocks every index occurs exactly q times and nothing else occurs |
| Sampler.EvenUse | src/primihub/algorithm/regression.h:177-196 | after k draws from n rows every row was used floor(k/n) or ceil(k/n) times |
| Sampler.DrawBatches | src/primihub/algorithm/regression.h:177-196 | all batches of a training run, end to end, are that stream: block i is the pool after i + 1 shuffles of the initial order |
| PsiMerge.MergeRows | python/primihub/plain_data_util/data_align.py:393-434 | the loop with its buffer and head deletions computes the merge specified row by row |
| PsiMerge.WritesSeenPrefix | python/primihub/plain_data_util/data_align.py:404-432 | with distinct keys, after any rows exactly the longest prefix of the list whose keys were all seen is written, in list order, each key with a row of its own |
| PsiMerge.WritesLatest | python/primihub/plain_data_util/data_align.py:404-432 | which rows are written: after each data row, for every key that completes the seen prefix, the latest row with that key |
| PsiMerge.CompleteIffAllSeen | python/primihub/plain_data_util/data_align.py:404-432 | the whole list is written if and only if every key occurs in the data, whatever the row order |
| PsiMerge.RepeatedKeyStalls | python/primihub/plain_data_util/data_align.py:418-432 | for every list and every place whose key has come before, there is data on which that place stays empty although its key has been seen |
| PsiMerge.WritesAllSeenIff | python/primihub/plain_data_util/data_align.py:404-432 | the merge writes the longest seen prefix on all data if and only if no key of the list is repeated |
| QueryTiling.ThreadQueries | python/primihub/plain_data_util/data_align.py:89-116 | a thread's inner batches cover each id of its range once and no other, in queries of a thousand ids except the last |
| QueryTiling.PlanQueries | python/primihub/plain_data_util/data_align.py:271-322 | the rounds, the left-over round and the remainder query the planned ranges |
| QueryTiling.QueryRound | python/primihub/plain_data_util/data_align.py:145-155 | one round's ranges are consecutive from its base |
| QueryTiling.LengthsAddUp | python/primihub/plain_data_util/data_align.py:271-322 | the lengths of the ranges always sum to the number of ids |
| QueryTiling.StaysInside | python/primihub/plain_data_util/data_align.py:271-322 | no range leaves the list |
| QueryTiling.TilesIff | python/primihub/plain_data_util/data_align.py:271-322 | every id is queried exactly once if and only if the full batches are fewer than the threads or a multiple of them |
| SchemaPublication.InvStep | src/primihub/data_store/driver.cc:87-165 | every step of every thread keeps mutual exclusion and the relation between both schemas |
| SchemaPublication.SoloPublishes | src/primihub/data_store/driver.cc:135-150 | a thread alone whose list parses ends after eight steps and one per field with its list as schema, the Arrow schema mirroring it, and the lock free |
| SchemaPublication.FastPath | src/primihub/data_store/driver.cc:136-141 | a caller that finds a schema is through after three steps, without the exclusive lock |
| SchemaPublication.SomeoneAdvances | src/primihub/data_store/driver.cc:87-165 | no deadlock: as long as not all threads have ended, one of them gets nearer to its end |
| SchemaPublication.AlwaysCompletable | src/primihub/data_store/driver.cc:87-165 | after any run, also with throwing parses, some continuation ends all threads with the lock free |
| SchemaPublication.EndedPublishes | src/primihub/data_store/driver.cc:87-165 | in every interleaving, once a thread whose first field parses has ended, there is a schema |
| SchemaPublication.PublishedForever | src/primihub/data_store/driver.cc:87-165 | once a schema is in place it never changes, in any continuation |
| SchemaPublication.AlwaysSoundIff | src/primihub/data_store/driver.cc:87-165 | over all interleavings, the schema is always one caller's whole list mirrored field for field whenever the lock is free, if and only if no parse throws after adding a field |
| SchemaPublication.HalfSchema | src/primihub/data_store/driver.cc:98-107 | such a throw leaves its first fields in place without an Arrow schema, whatever any thread does afterwards |
| TrainTestSplit.LoadDataset | src/primihub/algorithm/logistic.cc:190-298 | raises exactly on unequal lengths, goes out of bounds exactly when a column does not fit the label's quotas, and otherwise fills both matrices; the training rows are the sum over the label's chunks of the largest whole number not above four fifths of the length |
| TrainTestSplit.LoadRows | src/primihub/algorithm/logistic.cc:190-298 | in a loaded table whose columns are cut alike, every source row has its bias and all its values in one row of one matrix |
| TrainTestSplit.FillTrainAndTestData | src/primihub/algorithm/logistic.h:82-103 | one chunk goes under what is there already, its first part into train and its rest into test, and no other column changes |
| TrainTestSplit.RowsStayTogether | src/primihub/algorithm/logistic.cc:190-298 | the same about any two matrices that hold the columns' parts |
| TrainTestSplit.SameDestinationsIff | src/primihub/algorithm/logistic.cc:241-294 | two columns of one length send every row to the same place if and only if all chunks that give training rows start at the same row in both |
| TrainTestSplit.CutApart | src/primihub/algorithm/logistic.cc:203-222 | chunks of four and six beside five and five pass the length check and are cut apart |
| TrainTestSplit.OrderKept | src/primihub/algorithm/logistic.cc:190-298 | the order of rows is kept within each part, so no two rows collide |
| TrainTestSplit.EveryRowFilled | src/primihub/algorithm/logistic.cc:190-298 | every row of either matrix comes from some source row |
| TrainTestSplit.FoundAtDestination | src/primihub/algorithm/logistic.cc:241-294 | the value of a source row is at the row's destination in the part it belongs to |
| Packets.BuildPackets | src/primihub/node/node_interface.cc:391-454 | at least one packet, all but the last full, all with the total length, together the payload |
| Packets.Reassemble | src/primihub/node/node_interface.cc:130-160 | the append loop yields the concatenation |
| Packets.SendAndReceive | src/primihub/node/node_interface.cc:391-454 | what is received is what was sent, byte for byte |
| Packets.PacketCount | src/primihub/node/node_interface.cc:391-454 | any such splitting has max(1, ceil(n / limit)) packets |
| NodeText.Node.FromText | src/primihub/common/common.h:134-150 | the fields read from any text, or failure where a piece is missing or the port does not convert |
| NodeText.Node.Pieces | src/primihub/common/common.h:135-142 | the stream loop splits at every colon, a final empty piece included |
| NodeText.RestoresIff | src/primihub/common/common.h:124-150 | printing and reading back restores all five fields if and only if id, ip and role have no colon and the port is at most 2^31 - 1 |

## Left out

- The inside of the MPC protocols: sharing, multiplication, division, comparison circuits and channels are an ideal functionality, and nothing is claimed about secrecy. That a receiver's buffer must have the dealer's row count is how the functionality treats share reception.
- Floating-point and fixed-point rounding: FP64 results are over exact reals, division by zero and everything computed from it is one undefined value, and the floor of 0.8 times a length is taken exactly.
- The statistics tournaments run on fixed-point encodings of doubles in the source; the model compares the 64-bit integers that encode them.
- The conversions `stod` and `atol` are arbitrary functions, so nothing is said about how a literal reads.
- `initMPCRuntime`, `Clean`, destructors, memory and logging; the nested `ColumnConfig` and `FeedDict` objects are fields of one executor.
- The default entry that the source inserts into its type map when it looks up an unknown token; the model treats such a token as a column without inserting it.
- Missing-value repair of floating-point columns, of database columns, and integer tables whose columns are chunked differently from column 0.
- The statistics sum and average, and the shape exchange before a comparison.
- The arithmetic of gradient descent and batch extraction; a sampler over an empty pool, which never ends.
- TrainTestSplit.LoadDataset: the number of training rows is summed without bound, where the source sums it in a 32-bit int; stacking rows of shares is not modelled.
- File and database access of the alignment tool: a row whose key cannot be formed is a row without a key; failing threads and result order are left out.
- Schema publication through `FromMetaInfo`, which takes no lock, and the overload that moves a whole list at once.
- gRPC framing, Arrow, JSON and YAML.
- The Python client, the federated-learning glue and the Paillier wrappers, which only call foreign libraries; the node server and the download pipeline, which depend on queues and an implementation that are not part of this model.
