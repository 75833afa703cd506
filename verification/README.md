# A model of PacketQL

PacketQL captures packets through a lossy ring buffer into a columnar store, keeps three kinds of index on that
store, and answers SQL through a planner that may replace a scan by index lookups. Nearly every part is a fast form of
something simple, or a state machine that must keep an invariant over every run. This project models those parts in
Dafny and proves that the fast form equals the simple one, and that the invariants hold.

## How it is laid out

| files | part of the program |
|---|---|
| `Query`, `Engine`, `IndexPlan`, `IndexLimits`, `Indexes`, `Planner`, `Predicate`, `Store` | from query text to rows: planning, pruning, batched scan, index path |
| `WhereMeaning`, `AnswerRows`, `AnswerMeaning`, `AnswerOrder`, `Addresses` | what comparisons, aggregates, projections, ORDER BY and address texts mean, in plain numbers |
| `Finish`, `Relation`, `Answers`, `TopN`, `Ties`, `TiesApart` | grouping, HAVING, DISTINCT, ORDER BY, LIMIT, the bounded heap and what ties do to it |
| `Trie`, `Bitmap`, `PortHash`, `IndexLog`, `Bits` | the three indexes, each described by the log of (value, row) pairs inserted into it |
| `Columnar`, `PageCache` | the nine column files, flushes that may be interrupted, the LRU page cache |
| `RingBuffer`, `Pipeline`, `Sink`, `Capture` | one producer, one writer thread, the store and its growing indexes |
| `RWLock`, `Waiters` | the writer-preferring lock of the server, and what it gives one thread that waits |
| `Lexer`, `Grammar`, `Parser`, `Printer`, `Statements`, `RoundTrip`, `Rendering`, `FewestParens`, `Spelling`, `Ast` | query text to syntax tree and back |
| `ResultCodec`, `Framing`, `Pcap`, `Packet`, `FrameBytes`, `Formats` | results, frames, capture files, IPv4 headers, and all formats byte by byte |
| `Seqs`, `Slices`, `Bytes`, `Text`, `Wrappers` | sequences and Python's stable sort, integers as bytes, decimal text, Option and Result |

Code that updates fields or loops is a class or a method with a loop, proved equal to a specification function (the
method's `ensures`); what the program promises is then proved about that function. Threads are a state machine whose
steps are the critical sections of the program, so a theorem over every schedule covers every interleaving.

## The main results

* **Index plans change no answer.** `Engine.RunIsAnswer`: for every store, every SELECT with a well-typed WHERE and
  literals in the stated domain, reading only the referenced columns of the rows an index plan (or the batched scan)
  delivers, then grouping, filtering, sorting and cutting off, gives the same rows in the same order as applying the
  query to full rows. `IndexLimits.PlanExactIff` says of any WHERE when its plan is exact on every store: if and
  only if no single record deceives the planner. For one lookup that is exactly the domain (`IndexLimits.LookupExactIff`).
* **What an answer says.** `WhereMeaning` says of every operator, literal and connective which rows a WHERE selects, in
  integer arithmetic; `AnswerRows.GroupedAnswer` which rows a grouped answer has and what aggregates, shared values and
  HAVING are in terms of the rows of each group; `AnswerMeaning.PlainSelect` that each cell of a plain answer is the
  stored value of the column it stands under, and `AnswerOrder.OrderedSelect` that ORDER BY with or without LIMIT shows
  different selected rows in the order of the stored values, none better left out. `AnswerMeaning.AddressText`,
  `AddressRows` and `StoredAddresses` lead from an address in a query text to the address bytes of the captured frames.
* **The lock.** `RWLock.Exclusion`, `Progress`, `WriterGetsIn`: for any number of threads and any schedule, no
  conflicting holders, no lost wake-up, and a waiting writer sees some writer enter within a bounded number of steps.
  `Waiters.WaiterGetsIn`: only arriving writers keep one particular thread waiting. In any run with more sections than a
  bound in the number of threads and of arriving writers, a waiting writer gets in, and a waiting reader gets in or is
  woken and free to go in with its next look. `Waiters.NextLookSucceeds`: once no writer arrives, the first look after
  the bound succeeds. `Waiters.WaiterCanStarve`: writers that keep arriving do starve a reader or a writer.
* **The heap.** `TiesApart.TiesIff`: whatever rows there are, also repeated ones, those the bounded heap keeps are those
  of sort-then-cut for every order they may come in, if and only if a condition on the sorted rows holds: rows that tie
  with one of the first n are the same row, or all keys are equal, or n is at most one (and when all rows are kept, the
  last two may differ). `Answers.KeptTiesIff` says so of ORDER BY with LIMIT.
* **Capture.** `Pipeline.ExitConserves`: over every interleaving, when the writer thread exits, the store is its old
  rows followed by the packets that were not dropped, in order, with nothing missing. `Capture.ExitRepresents`: the
  indexes grown on the way represent that store if and only if the index set was right for the rows the store had when
  the pipeline was opened. `Capture.CaptureFresh` runs the objects themselves from an empty directory and an empty
  index set.
* **Flushes.** `Columnar.MidFlushRefused`: a store left inside a flush is refused exactly between the first byte written
  and the metadata; every other state decodes to a prefix of what was appended. A store that append mode finds refused
  stays refused after every further append and flush (`Columnar.ColumnWriter.Flush`).
* **Text.** `Rendering.PrintParse` and `ParsePrintParse`: printing, then lexing and parsing, is the identity on every
  statement a text can denote, and every text that parses denotes one. `Spelling.LexSpelled`: a text is lexed to tokens
  if and only if it is a spelling of them, in any case and with any blanks. `FewestParens.PrintedFewest`: no other text
  of the statement has fewer parentheses.
* **Bytes.** `FrameBytes.AcceptedExactly`, `FieldsRead` and `PortsRead` (any frame, byte by byte),
  `ResultCodec.RoundTrip`, `Framing.Exchange`, `Pcap.TruncationReadsPrefix`, `Packet.FixtureParses`.

## Where the code and its comments differ

The model follows the code.

* `tools/make_fixture_pcap.py:47` calls a header whose checksum bits are all flipped guaranteed wrong. When the fields
  add up to a multiple of 65535 the stored checksum is one zero of one's complement and the flipped one the other, and
  the header still verifies: `Packet.BuiltVerifies` (exactly when), `Packet.CorruptMayVerify` (a concrete header).
* `packetql/index/trie.py:34-35` looks only at the low 32 bits of an address, and shifts by a negative amount for a
  prefix longer than 32 bits. An index lookup therefore agrees with the scan exactly for the literals of
  `IndexPlan.Fits`: integers in [0, 2^32) for addresses, LIKE patterns of at most four octets whose value is below 2^32,
  and for ports any integer, or a fraction outside the table (a fraction inside it is an error as a list index).
* `CONTRACTS.md:36` says the index layer is never silently stale. `CapturePipeline` takes any index set together with
  any store: an empty one over a store that has rows never learns of those rows (`packetql/capture/pipeline.py:31,
  48-50`). `SinkState.Sink.CloseWriter` says exactly when the result is right, `SinkState.StaleLosesRow` that an old row
  the set lacks is lost to every later lookup of its protocol, `SinkState.EmptyIsPreferred` that for an empty set the
  planner then does use the index, and `SinkState.StaleWitness` gives the smallest case.
* `ORDER BY ... LIMIT` through the heap promises the keys of the full sort; the rows are those of the full sort, in
  whatever order the rows come, exactly when `Ties.Settled` holds. `TopN.TiesMayDiffer` is an example where it does not.
* The comment at `packetql/storage/columnar.py:70-73` says writing the metadata up front keeps the store openable. In
  append mode that holds exactly when the files are as long as the row count found says
  (`Columnar.ColumnWriter.constructor`, `Columnar.ContinuesWhen`); what a crash inside a flush leaves is not
  (`Columnar.CrashedDoesNotContinue`).

## Model

| member | source | states |
|---|---|---|
| Engine.RunIsAnswer | packetql/query/executor.py:260-272 | for every store, SELECT and literals in the domain, pruned and planned execution equals the query's meaning on full nine-column rows, row for row |
| Engine.PlannedIsSelected | packetql/index/access.py:15-25 | in the domain, the rows an index plan delivers are the ascending list of rows that satisfy WHERE |
| Engine.ChoiceWellFormed | packetql/index/indexes.py:125-146 | candidates are rows of the store, and the residual is typed and names no column WHERE does not name |
| Engine.ScanRows | packetql/query/executor.py:88-105 | the lockstep batched scan terminates and delivers exactly the rows that satisfy WHERE, in order |
| Engine.NextBatches | packetql/query/executor.py:88-96 | all column generators advance together: every batch holds the same rows of every read column, and they end together |
| Engine.MaskMeans | packetql/query/executor.py:66-85 | the mask of a batch is true exactly at the rows of the store that pass |
| Engine.FilteredRows | packetql/index/access.py:15-25 | reading candidates through the page cache and masking them keeps exactly the candidates that satisfy the residual |
| Engine.PlanReads | packetql/query/planner.py:81-109 | read columns are never empty and include every column needed later, also by the residual |
| Engine.PlanQuery | packetql/query/planner.py:81-109 | the table and column errors, the scan plan, and the index plan that replaces it |
| Engine.PlanRows | packetql/query/executor.py:266-270 | either row source delivers the planned rows, cut down to the read columns |
| Engine.RunSelect | packetql/query/executor.py:260-272 | the imperative engine over files, cache and index objects computes the function `Run` of the main theorem |
| QueryText.RunQuery | packetql/query/executor.py:260-272 | text, parser, planner and engine put together, with both kinds of error and EXPLAIN |
| QueryText.PrintedQueryAnswers | packetql/query/executor.py:260-272 | running the printed text of a query, with or without indexes, gives the query's meaning |
| QueryText.IndexesChangeNothing | packetql/query/executor.py:260-272 | a SELECT text gives the same result with and without indexes |
| QueryText.ExplainDescribes | packetql/query/executor.py:244-272 | EXPLAIN fails as the query does before any row is read, and otherwise names the columns, candidates and remaining predicate the query's rows come from |
| WhereMeaning.ColumnWithInteger | packetql/query/executor.py:24-27 | each of the six comparisons of a column with an integer selects exactly the rows whose stored value compares so |
| WhereMeaning.IntegerWithColumn | packetql/query/executor.py:66-71 | the same with the integer on the left |
| WhereMeaning.ColumnWithColumn | packetql/query/executor.py:66-71 | the same for two columns of a row |
| WhereMeaning.ColumnWithDecimal | packetql/query/executor.py:66-71 | against a decimal literal, both sides times the power of ten that makes it whole |
| WhereMeaning.Mirrored | packetql/query/executor.py:24-27 | turning a comparison of numbers round turns its operator round |
| WhereMeaning.ColumnWithText | packetql/query/executor.py:66-71 | a text equals no stored number |
| WhereMeaning.Connectives | packetql/query/executor.py:72-84 | AND selects the rows of both sides, OR those of either, NOT the others of the store |
| WhereMeaning.SelectedInOrder | packetql/query/executor.py:98-105 | selected rows come in store order, each once, and all of them without a WHERE |
| WhereMeaning.LikeSelects | packetql/query/executor.py:80-82 | LIKE selects the rows whose address starts with the octets the pattern text names |
| WhereMeaning.LikeAnything | packetql/query/executor.py:43-54 | the bare wildcard selects every row |
| Addresses.AddressValue | packetql/schema.py:44-46 | the text of four octets is read as the number with those digits to the base 256 |
| Addresses.AddressBits | packetql/schema.py:44-46 | for any four numbers, each bit of the address is a bit of one of them in its place |
| Addresses.AddressAccepted | packetql/schema.py:44-46 | a text is an address exactly when it is four numerals between dots |
| Addresses.SplitJoin | packetql/schema.py:44-46 | splitting at dots undoes joining with dots |
| Addresses.JoinSplit | packetql/schema.py:44-46 | joining undoes splitting, for every text |
| Addresses.PatternOctets | packetql/query/executor.py:43-45 | the octets of a pattern text, with or without a trailing dot and wildcard |
| Addresses.PatternAccepted | packetql/query/executor.py:43-45 | a pattern is readable exactly when its non-empty parts are numerals |
| Addresses.PatternInterval | packetql/query/executor.py:46-54 | an address lies in the pattern's interval exactly when its first octets are the pattern's |
| AnswerMeaning.PlainSelect | packetql/query/executor.py:211-241 | a plain SELECT shows the selected rows in order, as many as LIMIT lets through, and each cell is the stored value of the column it stands under |
| AnswerMeaning.AnswerChecks | packetql/query/planner.py:81-88 | an unknown table, then an unknown column anywhere in the query, is an error |
| AnswerMeaning.AddressFixed | packetql/query/parser.py:162-170 | an address text beside an address column, on either side, becomes its number |
| AnswerMeaning.OtherwiseUnfixed | packetql/query/parser.py:162-170 | all other operands stay as they are |
| AnswerMeaning.BadAddressRefused | packetql/query/parser.py:162-170 | a text that is no address is refused beside an address column |
| AnswerMeaning.AddressText | packetql/query/parser.py:151-170 | the text of an address query parses to a comparison with the number of the four octets |
| AnswerMeaning.AddressRows | packetql/query/executor.py:66-71 | that comparison selects exactly the rows whose address has those octets |
| AnswerMeaning.TableField | packetql/storage/columnar.py:197-242 | each column of the store holds its field of the records |
| AnswerMeaning.StoredAddresses | packetql/capture/parser.py:78-80 | the octets of a stored address are the address bytes of the frame it came from |
| AnswerRows.AggregateIs | packetql/query/executor.py:109-123 | COUNT is the number of rows, SUM their total, AVG times the number is the total, MIN and MAX are attained and bound all rows, and over no rows all are zero |
| AnswerRows.AggregateFails | packetql/query/executor.py:109-123 | only an aggregate without a column, other than COUNT, over some rows fails |
| AnswerRows.GroupRowsAre | packetql/query/executor.py:163-171 | a row belongs to a group exactly when its values in the grouping columns are the key |
| AnswerRows.KeysAre | packetql/query/executor.py:164-174 | each key that occurs is listed once; without GROUP BY there is one group of all rows, even of none |
| AnswerRows.GroupedAnswer | packetql/query/executor.py:153-188 | the rows are those of the groups that pass HAVING, with their aggregates and shared values: none else, all without LIMIT, no row twice with DISTINCT, in key order without ORDER BY |
| AnswerRows.GroupedColumns | packetql/query/executor.py:176-176 | the labels over a grouped answer |
| AnswerRows.GroupedSucceeds | packetql/query/executor.py:153-203 | a grouped query fails exactly when it selects everything, a column that is not grouped, or orders by what it does not select, HAVING and missing arguments aside |
| AnswerRows.HavingDecides | packetql/query/executor.py:178-181 | a group passes when there is no HAVING or it is true of the group, and an error in it is an error of the query |
| AnswerRows.HavingOperands | packetql/query/executor.py:126-135 | a HAVING operand is an aggregate of the group, the group's shared value, or the literal |
| AnswerRows.HavingNumbers | packetql/query/executor.py:138-143 | the six comparisons of numbers |
| AnswerRows.HavingTexts | packetql/query/executor.py:138-143 | texts compare as in a dictionary |
| AnswerRows.HavingMixed | packetql/query/executor.py:138-143 | a text and a number are unequal and have no order |
| AnswerRows.HavingConnectives | packetql/query/executor.py:144-149 | AND and OR stop at the first operand that decides, errors included |
| AnswerRows.PlainAnswer | packetql/query/executor.py:231-241 | row i shows the kept row i, each cell under its column |
| AnswerRows.PlainColumns | packetql/query/executor.py:216-217 | the columns of a plain answer, in schema order or as selected |
| AnswerRows.KeptFirst | packetql/query/executor.py:237-240 | LIMIT without ORDER BY keeps the first rows |
| AnswerRows.KeptAreRows | packetql/query/executor.py:231-240 | what is kept are rows, as many as LIMIT lets through |
| AnswerRows.DistinctAnswer | packetql/query/executor.py:219-228 | with DISTINCT no row is shown twice, every shown row shows some row, and without LIMIT every row is shown |
| AnswerOrder.OrderedSelect | packetql/query/executor.py:230-241 | ORDER BY shows different selected rows in the order of the stored values of a column, selected or not, as many as LIMIT lets through, none better left out; without LIMIT ties stand in store order |
| AnswerOrder.LabelledOrder | packetql/query/executor.py:200-208 | by a label: the rows shown are in the order of that cell, and none left out should have stood before one of them |
| AnswerOrder.GroupedOrder | packetql/query/executor.py:185-188 | grouped rows stand in the order of the selected item that ORDER BY names |
| AnswerOrder.DistinctOrder | packetql/query/executor.py:219-228 | and so do the rows of a plain DISTINCT |
| IndexLimits.PlanExactIff | packetql/index/indexes.py:125-165 | for a WHERE of any number of conjuncts, the plan has the scan's rows on every store if and only if no single record deceives it: no lookup fails on the record, and what the lookups and the residual let through satisfies WHERE |
| IndexLimits.LookupExactIff | packetql/index/indexes.py:148-165 | a single index lookup gives the scan's rows on every store if and only if its literal is in the domain |
| IndexLimits.MisfitAmong | packetql/index/indexes.py:125-165 | in a longer WHERE a literal outside the domain makes the plan fail or go wrong on some store of at most two rows, if the other conjuncts are in the domain, leave its column alone and hold of some record |
| IndexLimits.DeceivedSomewhere | packetql/index/indexes.py:125-165 | from a record that deceives the planner, a store of at most two rows on which plan and scan differ |
| IndexLimits.MisfitNeverHolds | packetql/index/trie.py:34-35 | no row satisfies a conjunct outside the domain unless its lookup fails on that row, so whatever such a lookup finds is wrong |
| IndexPlan.SargableWhen | packetql/index/indexes.py:148-165 | which conjuncts an index answers: an address, a port or the protocol equal to a literal on either side, and an address LIKE a text |
| IndexPlan.ResolveByRow | packetql/index/indexes.py:148-165 | whatever the literal, a lookup is decided row by row: it fails exactly when it fails on some row or on any, and otherwise lists the rows it finds |
| IndexPlan.ResolveExact | packetql/index/indexes.py:148-165 | in the domain, each index's answer is the ascending list of matching rows |
| IndexPlan.ChooseExact | packetql/index/indexes.py:125-146 | splitting, resolving, intersecting and filtering by the residual keeps exactly the matching rows, in order |
| IndexPlan.ChosenWhen | packetql/index/indexes.py:125-142 | the index replaces the scan exactly when some conjunct is indexed and some row is not found by all lookups |
| IndexPlan.ConjunctsMean | packetql/index/indexes.py:46-51 | a row satisfies a WHERE exactly when it satisfies every flattened conjunct, each of which is typed |
| IndexPlan.RebuildMeans | packetql/index/indexes.py:54-60 | the rebuilt residual holds exactly when all its conjuncts hold, and is absent exactly when there are none |
| IndexPlan.GatherSees | packetql/index/indexes.py:125-136 | gathering succeeds when every lookup does; the row sets hold the rows that every lookup finds, the residual is the rest |
| IndexPlan.GatherMeans | packetql/index/indexes.py:125-136 | in the domain the row sets and the residual together say what the conjuncts say |
| IndexPlan.IntersectionIs | packetql/index/indexes.py:137-141 | a row is in the intersection exactly when it is in every row set |
| IndexPlan.KeepExact | packetql/index/access.py:15-25 | filtering ascending candidates by the residual gives an ascending list of exactly those that satisfy it |
| IndexPlan.AddressExact | packetql/index/indexes.py:148-165 | an address literal below 2^32 is looked up exactly |
| IndexPlan.LikeExact | packetql/index/indexes.py:27-34 | a LIKE pattern's trie prefix covers exactly the numeric interval that the scan tests |
| IndexPlan.PortExact | packetql/index/hash_index.py:26-30 | a port literal, also one that is no port, is looked up exactly |
| IndexPlan.BitmapExact | packetql/index/bitmap.py:38-47 | a protocol literal is looked up exactly |
| IndexLimits.AliasFound | packetql/index/trie.py:34-35 | the trie finds a row under every prefix of an address that equals the row's modulo 2^32, and fails on it beyond 32 bits |
| Indexes.PacketIndexes.constructor | packetql/index/indexes.py:64-68 | the five indexes and the row count put together |
| Indexes.PacketIndexes.Build | packetql/index/indexes.py:70-77 | a bulk build from the store's columns represents the store |
| Indexes.PacketIndexes.Empty | packetql/index/indexes.py:79-87 | an empty index set holds nothing |
| Indexes.PacketIndexes.Add | packetql/index/indexes.py:89-97 | every one of the five indexes gains exactly the record's entry, and the row count covers the row |
| Indexes.GrownIsBuilt | packetql/index/indexes.py:70-97 | an index set grown by further records is a bulk build from all records if and only if it started as one from the earlier records |
| Indexes.PacketIndexes.Resolve | packetql/index/indexes.py:148-165 | which conjuncts an index answers, and with which rows or error |
| Indexes.PacketIndexes.ChoosePlan | packetql/index/indexes.py:125-146 | the loop over conjuncts and row sets computes the function the plan theorems are about |
| Indexes.IntersectAll | packetql/index/indexes.py:137-141 | intersecting the row sets one after another |
| Indexes.GatherFails | packetql/index/indexes.py:125-136 | the first conjunct whose lookup raises decides the outcome |
| Predicate.IpPrefixRange | packetql/query/executor.py:43-54 | the interval of a LIKE pattern, or the error of a part that is no number |
| Predicate.LikeToPrefix | packetql/index/indexes.py:27-34 | the known octets at the top of 32 bits, and how many bits they are |
| Predicate.RangeIsBlock | packetql/query/executor.py:43-54 | up to four octets, the interval is one aligned block of addresses that share the known octets |
| Predicate.MaskIsEval | packetql/query/executor.py:66-85 | evaluating column by column gives every row its own truth value |
| Predicate.EvalAgrees | packetql/query/planner.py:30-40 | a predicate depends only on the columns `columns_in` lists |
| Planner.CollectReferenced | packetql/query/planner.py:62-78 | the set of columns a query references |
| Planner.ReadColumnsExact | packetql/query/planner.py:89-97 | exactly the referenced columns are read, or `proto` when none is referenced |
| Planner.ReadInOrder | packetql/query/planner.py:89-89 | in schema order |
| Planner.Narrowest | packetql/query/planner.py:97-97 | the column read when none is referenced is the first of the smallest width |
| Planner.FinishPruned | packetql/query/executor.py:211-241 | grouping, HAVING, DISTINCT, ordering, limit and projection give the same on pruned rows as on full rows |
| Planner.AggregatePruned | packetql/query/executor.py:153-188 | grouped queries see no difference between pruned and full rows |
| Planner.HavingPruned | packetql/query/planner.py:43-55 | HAVING depends only on the columns `having_columns` lists |
| Planner.KeptPruned | packetql/query/executor.py:229-240 | ordering and limit see no difference between pruned and full rows |
| Store.VerifyIntegrity | packetql/storage/columnar.py:186-192 | a store opens exactly when metadata and all nine file sizes agree |
| Store.ChunkCells | packetql/storage/columnar.py:206-216 | a stretch of a column file decodes to the same stretch of the column |
| Store.ColumnStore.Column | packetql/storage/columnar.py:197-204 | a whole column, value by value |
| Store.ColumnStore.NextBatch | packetql/storage/columnar.py:206-216 | every batch is the next rows of the column, and the end comes exactly after the last row |
| Store.ColumnStore.ReadRows | packetql/storage/columnar.py:218-230 | rows read one by one through the cache are the column's values at those rows, in order |
| Store.ColumnStore.GetRecords | packetql/storage/columnar.py:232-242 | zipping the nine columns gives the stored records |
| Formats.StoredByte | packetql/storage/columnar.py:197-204 | each byte of a column file of any store that opens is a digit of its row's value, lowest first |
| Formats.FitsWhen | packetql/storage/columnar.py:26-36 | the bounds of the nine fields |
| Columnar.AppendedRecords | packetql/storage/columnar.py:83-94 | a flushed store opens and decodes to its old records followed by the new ones |
| Columnar.MidFlushRefused | packetql/storage/columnar.py:83-94 | a store with some columns or part of a column written, and no new metadata, is refused unless nothing was written |
| Columnar.ColumnWriter.constructor | packetql/storage/columnar.py:58-74 | the opened store is usable and holds what was found exactly when every file is as long as the continued row count says; otherwise each file keeps its excess |
| Columnar.ContinuesWhen | packetql/storage/columnar.py:66-73 | append mode continues an opening store with its records, and without metadata exactly empty files |
| Columnar.CrashedDoesNotContinue | packetql/storage/columnar.py:83-94 | a store left inside a flush is not one append mode can continue |
| Columnar.WriteStore | packetql/storage/columnar.py:115-119 | a fresh store of exactly these records, whatever the directory held |
| Columnar.ColumnWriter.Append | packetql/storage/columnar.py:76-81 | the record is the last appended, less than a batch stays unflushed, and a store opens afterwards exactly when it did before |
| Columnar.ColumnWriter.WriteOne | packetql/storage/columnar.py:86-91 | every byte of a column's write to an opening store leaves a state that is refused |
| Columnar.ColumnWriter.Flush | packetql/storage/columnar.py:83-94 | an opening store holds everything appended, with every state on the way refused or a prefix; no file's excess changes, so a refused store stays refused |
| Columnar.ColumnWriter.Close | packetql/storage/columnar.py:96-99 | everything appended to an opening store is stored |
| PageCache.Cache.Read | packetql/storage/columnar.py:138-148 | a read of any offset and length is the file's bytes, with one access per page in order |
| PageCache.Cache.Page | packetql/storage/columnar.py:150-163 | a page, hit or miss, is the file's page, and the access is recorded |
| PageCache.Cache.Fetch | packetql/storage/columnar.py:150-163 | a miss evicts only the least recently used page |
| PageCache.LruIsRecency | packetql/storage/columnar.py:150-163 | over every trace the cache holds exactly the most recently used distinct pages, in recency order |
| PageCache.LargerHoldsMore | packetql/storage/columnar.py:150-163 | a larger cache never holds less |
| PageCache.LargerHitsMore | packetql/storage/columnar.py:150-163 | a larger cache never hits less often |
| Trie.BitTrie.Add | packetql/index/trie.py:30-44 | all nodes, their counts and lists describe the longer log |
| Trie.BitTrie.constructor | packetql/index/trie.py:25-28 | a bulk build holds one entry per row |
| Trie.BitTrie.Descend | packetql/index/trie.py:46-52 | the node of a prefix, nothing, or the error of a prefix over 32 bits that exists |
| Trie.BitTrie.Gather | packetql/index/trie.py:59-68 | the stack traversal terminates and meets every row below a node exactly once |
| Trie.BitTrie.PrefixRows | packetql/index/trie.py:54-69 | the rows below a prefix, ascending |
| Trie.BitTrie.PrefixCount | packetql/index/trie.py:71-73 | the stored count is the number of rows `prefix_rows` lists |
| Trie.BitTrie.ExactRows | packetql/index/trie.py:75-76 | an exact lookup is the 32-bit prefix |
| Trie.PrefixAnswerExact | packetql/index/trie.py:54-69 | over a column, exactly the rows that share the top bits, ascending, none lost or repeated |
| Trie.SamePath | packetql/index/trie.py:34-42 | two addresses reach the same node at a depth exactly when they share that many top bits |
| Trie.PrefixesAre | packetql/index/trie.py:30-44 | a prefix has a node exactly when some inserted address starts with it |
| Trie.BagSplit | packetql/index/trie.py:60-67 | the rows below a node are those below its two children together |
| Bitmap.BulkBits | packetql/index/bitmap.py:20-24 | filling a byte buffer and reading it little-endian sets exactly the given rows' bits |
| Bitmap.GroupRows | packetql/index/bitmap.py:14-18 | every value is mapped to its rows |
| Bitmap.BulkBuild | packetql/index/bitmap.py:12-24 | the bulk bitmap of each value equals the one built by setting one bit per row |
| Bitmap.BitmapIndex.constructor | packetql/index/bitmap.py:12-24 | a bulk build describes the column's log |
| Bitmap.BitmapIndex.Add | packetql/index/bitmap.py:26-30 | one more entry, and the row count covers it |
| Bitmap.BitmapIndex.RowsFor | packetql/index/bitmap.py:38-47 | the shifting loop lists the set bits |
| Bitmap.BitmapIndex.Count | packetql/index/bitmap.py:35-36 | the count is the length of that list |
| Bitmap.OredBitsExact | packetql/index/bitmap.py:26-30 | a bit is set exactly when its row was inserted with the value |
| Bitmap.SetBitsAreRows | packetql/index/bitmap.py:38-47 | over a column, exactly the matching rows, ascending |
| Bitmap.SetBitsExact | packetql/index/bitmap.py:38-47 | the listed positions are the set bits, ascending, and as many as there are ones |
| Bitmap.BitmapsPartition | packetql/index/bitmap.py:12-24 | bitmaps of different values are disjoint and together cover every row |
| PortHash.PortTable.Add | packetql/index/hash_index.py:19-24 | one more entry in the bucket of its port, no other bucket changed |
| PortHash.PortTable.Lookup | packetql/index/hash_index.py:26-30 | the rows of a port, and none for a number that is no port |
| PortHash.PortTable.Count | packetql/index/hash_index.py:32-36 | the number of those rows |
| TopN.BoundedTopN.SiftUpFrom | packetql/index/topn.py:28-35 | the swaps of the loop are those of the specification |
| TopN.BoundedTopN.SiftDownFrom | packetql/index/topn.py:37-47 | the swaps of the loop are those of the specification |
| TopN.BoundedTopN.PushItem | packetql/index/topn.py:49-60 | append, replace the root, or ignore |
| TopN.SelectTop | packetql/index/topn.py:67-71 | pushing all items and sorting the heap |
| TopN.SiftUpHeaps | packetql/index/topn.py:28-35 | sifting up restores the heap order and only rearranges |
| TopN.SiftDownHeaps | packetql/index/topn.py:37-47 | sifting down restores the heap order and only rearranges |
| TopN.PushAllKeeps | packetql/index/topn.py:49-60 | after every push the heap holds n best of the items so far, and nothing is lost |
| TopN.TopIsSortedPrefix | packetql/index/topn.py:62-71 | the result is a selection of the items whose keys are the first n keys of the full sort, in both directions |
| Ties.AgreesWhen | packetql/index/topn.py:62-71 | the kept rows are those of sort-then-cut exactly when, of every key, the heap holds the first rows of the input in order |
| Ties.SettledAgrees | packetql/index/topn.py:62-71 | when rows that tie with one of the first n sorted ones are the same row (or at most one row is kept, or all keys are equal; when all rows are kept the last two may differ), the result is the start of the full sort for every arrangement of the rows |
| Ties.RootIsFirst | packetql/index/topn.py:28-35 | until something is evicted the root is the first of the worst rows |
| TiesApart.TiesIff | packetql/index/topn.py:49-71 | for any rows, repeated or not, heap and sort-then-cut keep the same rows in every order they may come in if and only if their ties are settled in that sense |
| TiesApart.ApartRows | packetql/index/topn.py:49-71 | two different rows that tie and are not settled have an arrangement in which the heap does not keep the first rows of their key |
| TiesApart.ApartByEviction | packetql/index/topn.py:55-60 | for rows that all differ, the arrangement in which a late tied row replaces a worse root and overtakes an earlier one |
| TiesApart.ApartAcross | packetql/index/topn.py:55-60 | for rows that all differ, the arrangement in which a better row evicts the first of the rows that tie across the cut |
| TiesApart.ApartBySifting | packetql/index/topn.py:52-54 | for rows that all differ, the arrangement in which a worse row sifts up past the first of two tied rows, with nothing evicted |
| TopN.TiesMayDiffer | packetql/query/executor.py:231-236 | a smallest example of rows that differ from sort-then-cut |
| TopN.TopOfFirst | packetql/index/topn.py:40-43 | of a node and its children the first of those to evict goes up |
| Relation.HashGroup | packetql/query/executor.py:163-176 | the dict-of-lists loop gives keys by first appearance and each key its rows in order |
| Relation.GroupKeysExact | packetql/query/executor.py:163-176 | a key is listed exactly when some row has it |
| Relation.GroupsPartition | packetql/query/executor.py:163-176 | any total over the rows is the sum of the groups' totals |
| Relation.DedupRows | packetql/query/executor.py:191-197 | the seen-set loop |
| Relation.DedupExact | packetql/query/executor.py:191-197 | every value once, in order of first appearance |
| Finish.RunAggregateFinish | packetql/query/executor.py:153-188 | the grouping loops compute the specification, with the same errors |
| Finish.CollectRows | packetql/query/executor.py:177-187 | one row per passing group, and the first error stops |
| Finish.RunFinish | packetql/query/executor.py:211-241 | both kinds of query |
| Answers.OneRowPerKey | packetql/query/executor.py:177-187 | one output row per key, in key order, computed from that key's rows alone |
| Answers.CountsAddUp | packetql/query/executor.py:109-123 | with no HAVING, DISTINCT or LIMIT the COUNT(*) column adds up to the number of filtered rows |
| Answers.SumsAddUp | packetql/query/executor.py:109-123 | and the SUM(c) column to the total of c over them |
| Answers.HavingFilters | packetql/query/executor.py:138-150 | HAVING only removes groups: what is left is the answer without HAVING for the passing keys |
| Answers.OrderLimitSorted | packetql/query/executor.py:200-208 | labelled ORDER BY and LIMIT keep the first rows of the stable sort: the first keys, and of every key the first rows of the input |
| Answers.KeptIsSortedPrefix | packetql/query/executor.py:229-240 | ORDER BY with or without LIMIT keeps rows whose keys are those of the full sort, cut off |
| Answers.KeptTiesIff | packetql/query/executor.py:229-240 | ORDER BY with LIMIT keeps the very rows of sort-then-cut, for every order of the rows and also when rows repeat, if and only if the ties of the sort key are settled |
| Seqs.SortBySorts | packetql/query/executor.py:206-206 | the sort is an ordered rearrangement, in both directions |
| Seqs.SortByStable | packetql/query/executor.py:206-206 | rows with equal keys keep their order, also when descending |
| RWLock.Lock.CheckRead | packetql/server.py:134-138 | one check of the reader's wait condition |
| RWLock.Lock.ReleaseRead | packetql/server.py:140-144 | the reader count falls, and wakes sleepers only at zero |
| RWLock.Lock.StartWrite | packetql/server.py:146-152 | a writer announces itself before it checks |
| RWLock.Lock.RecheckWrite | packetql/server.py:149-152 | one check of the writer's wait condition |
| RWLock.Lock.ReleaseWrite | packetql/server.py:154-157 | the writer leaves |
| RWLock.StepKeepsInv | packetql/server.py:127-157 | counters equal the numbers of threads in each phase, holders exclude each other, and every sleeper's wait condition still holds |
| RWLock.RunInv | packetql/server.py:127-157 | all of that after every schedule of any number of threads |
| RWLock.Exclusion | packetql/server.py:127-157 | while one thread writes, no other reads or writes |
| RWLock.Progress | packetql/server.py:127-157 | while any thread waits or holds, some thread can go on: no lost wake-up, no deadlock |
| RWLock.ReadersDoNotRise | packetql/server.py:134-138 | while a writer waits, no step admits a reader |
| RWLock.ReadersFallOverRun | packetql/server.py:134-138 | over any stretch with a waiting writer the reader count only falls |
| RWLock.RankFalls | packetql/server.py:134-157 | with a writer waiting, every step lets a writer in or lowers a rank |
| RWLock.WriterGetsIn | packetql/server.py:134-157 | so any long enough run contains the entry of a writer |
| RWLock.RankBound | packetql/server.py:134-157 | and long enough depends only on the number of threads |
| Waiters.VainLookPays | packetql/server.py:134-157 | a woken thread that has to sleep again uses up a wake-up, and an arriving writer makes at most two possible |
| Waiters.VainLooksBound | packetql/server.py:134-157 | over every run a thread, reader or writer, is put back to sleep at most 2 * (writers waiting or holding at the start + arrivals) + 1 times |
| Waiters.LeftFalls | packetql/server.py:134-157 | while a writer waits or holds, every section leaves the threads less to do, unless it brings another writer |
| Waiters.WaiterGetsIn | packetql/server.py:134-157 | in every run with more sections than the patience of its start for the writers that arrive, a waiting writer gets in, and a waiting reader gets in or is at some point woken and free to go in with its next look |
| Waiters.PatienceBound | packetql/server.py:134-157 | the patience is at most n * (n + 3) sections for n threads, and n + 2 more for each arriving writer |
| Waiters.NextLookSucceeds | packetql/server.py:134-152 | when no writer arrives, a waiting thread that looks after its patience has run out gets in with that look, if not before, whatever the others do |
| Waiters.PatienceRunsOut | packetql/server.py:134-157 | runs of any length, from a state the start reaches, to which these bounds apply, for a waiting reader and a waiting writer |
| Waiters.WaiterCanStarve | packetql/server.py:134-152 | for every n a run from the start in which n + 1 other writers arrive and one waiting reader, or one waiting writer, is put back to sleep n times |
| RingBuffer.Ring.Put | packetql/capture/ringbuffer.py:35-45 | appends, dropping the oldest item exactly when full, and counts it |
| RingBuffer.Ring.GetBatch | packetql/capture/ringbuffer.py:54-59 | takes the oldest items in order, up to the limit, and clears their slots |
| RingBuffer.Ring.Close | packetql/capture/ringbuffer.py:61-64 | closes and keeps the contents |
| RingBuffer.Ring.PositionsAreModular | packetql/capture/ringbuffer.py:35-59 | head is tail plus size modulo the capacity |
| Pipeline.PutPicks | packetql/capture/ringbuffer.py:35-45 | a put loses at most the oldest undelivered item, and touches nothing delivered |
| Pipeline.StepKeepsInv | packetql/capture/pipeline.py:42-55 | conservation, order and row numbering are kept by every step of producer and writer |
| Pipeline.RunInv | packetql/capture/pipeline.py:42-55 | and hold after every interleaving |
| Pipeline.ExitConserves | packetql/capture/pipeline.py:42-55 | at exit written plus dropped is put, and the store is the old rows then the undropped packets in order, each indexed at its position |
| Pipeline.BatchSizeGrows | packetql/capture/pipeline.py:57-65 | whatever the drop rates read, the batch size only grows, up to the cap |
| Pipeline.AdaptsWhen | packetql/capture/pipeline.py:57-65 | it doubles, up to the cap, exactly when more than one packet in twenty was dropped |
| Pipeline.WriterCanStep | packetql/capture/pipeline.py:42-55 | until it exits the writer itself always has a step |
| Pipeline.WriterTerminates | packetql/capture/pipeline.py:42-55 | after close, no run is longer than a rank of the state |
| SinkState.RepresentsWhen | packetql/index/indexes.py:70-97 | an index set represents a store exactly when it was given each of its records at its row, in order |
| SinkState.GrownRight | packetql/capture/pipeline.py:46-51 | indexes grown by what was appended are right for the whole store if and only if they were right for the old rows |
| SinkState.StaleLosesRow | packetql/capture/pipeline.py:48-50 | an old row the index set did not have is missing from every later lookup of its protocol, though the scan finds it |
| SinkState.EmptyIsPreferred | packetql/index/indexes.py:140-142 | with an index set that starts empty over a store with rows, such a lookup is always short enough for the planner to take |
| SinkState.StaleWitness | packetql/capture/pipeline.py:31-31 | one old and one captured row: the index lists only the captured one |
| SinkState.Sink.Consume | packetql/capture/pipeline.py:46-51 | a record is stored and indexed at the row it gets |
| SinkState.Sink.WriteBatch | packetql/capture/pipeline.py:46-51 | a batch is stored in order |
| SinkState.Sink.CloseWriter | packetql/capture/pipeline.py:55-55 | the closed store holds everything, and the indexes represent it if and only if they were right for the rows it was opened with |
| Capture.ExitRepresents | packetql/capture/pipeline.py:42-55 | under every interleaving of producer and writer, the indexes at exit represent the final store if and only if they were right for the old rows |
| Capture.CapturePipeline.constructor | packetql/capture/pipeline.py:25-36 | opens on a store that opens or on a fresh directory, with any index set |
| Capture.CapturePipeline.TakeBatch | packetql/capture/pipeline.py:44-44 | the writer gets the oldest items of the ring |
| Capture.CapturePipeline.Adapt | packetql/capture/pipeline.py:57-65 | the drop rate since the last batch decides the new batch size |
| Capture.CapturePipeline.WriterTurn | packetql/capture/pipeline.py:43-54 | one turn stores exactly what it took, and ends the loop only when closed and empty |
| Capture.CapturePipeline.RunWriter | packetql/capture/pipeline.py:42-55 | the drained store holds old rows and ring contents in order, and its indexes represent it exactly when they were right at first |
| Capture.CaptureOffline | packetql/capture/pipeline.py:76-87 | parse, put, close and drain on the objects: the store holds its old rows and the newest parsed records the ring could keep |
| Capture.CaptureFresh | packetql/capture/pipeline.py:76-87 | the same from an empty directory with an empty index set, which then represents the store |
| Lexer.Tokenize | packetql/query/lexer.py:46-104 | the scanning loop computes the token list of the text, or the error |
| Lexer.NextAt | packetql/query/lexer.py:49-100 | one turn of the loop: a token, a skip or an error, always moving forward |
| Lexer.ScanString | packetql/query/lexer.py:54-64 | doubled quotes stand for one, and a string without end is an error |
| Grammar.LexTerminates | packetql/query/lexer.py:103-104 | a token list ends in its only end mark |
| Parser.Parser.Next | packetql/query/parser.py:34-37 | the cursor moves by one and never past the end mark |
| Parser.Parser.OrExpr | packetql/query/parser.py:134-138 | the loop builds left-associative ORs and consumes something |
| Parser.Parser.AndExpr | packetql/query/parser.py:140-144 | the loop builds left-associative ANDs and consumes something |
| Parser.Parser.NotExpr | packetql/query/parser.py:146-149 | nested NOT, terminating by remaining tokens and grammar level |
| Parser.Parser.Comparison | packetql/query/parser.py:151-160 | at most one comparison, with address literals fixed |
| Parser.Parser.Primary | packetql/query/parser.py:172-188 | parentheses, literals, aggregates and columns |
| Parser.Parser.AggregateCall | packetql/query/parser.py:116-129 | aggregate calls and their argument |
| Parser.Parser.SelectList | packetql/query/parser.py:100-114 | star or a comma list of items |
| Parser.Parser.Clauses | packetql/query/parser.py:65-98 | the clauses in their order, each optional |
| Parser.Parse | packetql/query/parser.py:191-192 | lexing and parsing by cursor equals the grammar on token lists |
| RoundTrip.StatementValid | packetql/query/parser.py:60-98 | whatever parses is printable |
| Printer.NoLeadingNot | packetql/query/parser.py:146-149 | an unparenthesised operand of a comparison never starts with NOT |
| Printer.OrBack | packetql/query/parser.py:134-138 | OR chains parse back left-associatively |
| Printer.AndBack | packetql/query/parser.py:140-144 | AND chains parse back left-associatively |
| Printer.NotBack | packetql/query/parser.py:146-149 | nested NOTs parse back |
| Printer.ComparisonBack | packetql/query/parser.py:151-160 | comparisons parse back |
| Printer.ExpressionBack | packetql/query/parser.py:131-188 | any expression printed with only the parentheses it needs parses back to itself |
| Statements.StatementBack | packetql/query/parser.py:60-98 | any printable statement's tokens parse back to it |
| Rendering.LexRender | packetql/query/lexer.py:46-104 | lexing rendered tokens gives the tokens, with doubled quotes, numbers and keywords |
| Rendering.LexValid | packetql/query/lexer.py:46-104 | every token list the lexer makes can be rendered |
| Rendering.PrintParse | packetql/query/parser.py:191-192 | print, lex and parse is the identity |
| Rendering.ParsePrintParse | packetql/query/parser.py:191-192 | every text that parses means what the text printed from its tree means |
| Spelling.LexSpelled | packetql/query/lexer.py:46-104 | a text is lexed to some tokens if and only if it spells them: keywords in any case, numbers with leading zeros, either sign for not equal, any blanks and semicolons, or none where tokens cannot run together |
| Spelling.SpellingsAgree | packetql/query/parser.py:191-192 | all spellings of some tokens parse alike |
| Spelling.LabelIsText | packetql/query/ast.py:23-25 | the label of an aggregate is a text of that aggregate |
| Spelling.StrayRefused | packetql/query/lexer.py:101-102 | a character that starts no token is an error |
| Spelling.OpenRefused | packetql/query/lexer.py:61-62 | a string that does not end is an error |
| Spelling.OrderDirections | packetql/query/parser.py:84-94 | ORDER BY is ascending unless it says DESC, also when it says ASC |
| FewestParens.PrintedFewest | packetql/query/parser.py:60-192 | of all texts that parse to a statement, the printed one has the fewest parentheses |
| FewestParens.ExpressionFewest | packetql/query/parser.py:131-188 | no tokens that parse to an expression have fewer parentheses than its printed tokens |
| ResultCodec.EncodeResult | packetql/server.py:62-94 | the encoder writes the specified bytes, and raises exactly when something does not fit |
| ResultCodec.DecodeResult | packetql/server.py:97-119 | the decoder's advancing position computes the specified decoding, and stays inside the payload when no name or string of it is cut short |
| ResultCodec.RoundTrip | packetql/server.py:62-119 | decoding inverts encoding for every fitting homogeneous table, zero rows included, and leaves what follows untouched |
| ResultCodec.EncodedIsWhole | packetql/server.py:62-94 | in what the encoder writes no name or string is cut short |
| ResultCodec.Transfer | packetql/server.py:62-119 | encode then decode gives the same table, and the position is exactly the payload's length |
| ResultCodec.CellBack | packetql/server.py:77-94 | each kind of value reads back from any following bytes |
| Formats.CellLayout | packetql/server.py:77-94 | the bytes of each kind of value |
| Formats.EmptyLayout | packetql/server.py:62-94 | the bytes of a result without rows |
| Framing.Socket.RecvExact | packetql/server.py:42-50 | exactly n bytes however they arrive, or an error when the stream ends first |
| Framing.Socket.RecvFrame | packetql/server.py:57-59 | one frame, leaving the bytes after it |
| Framing.Sender.SendFrame | packetql/server.py:53-54 | a frame's bytes are appended, unless its fields do not fit |
| Framing.FramesBack | packetql/server.py:53-59 | sent frames are read back in order up to the byte after the last |
| Framing.Exchange | packetql/server.py:42-59 | for every cutting of the stream into non-empty pieces the receiver gets the sent frames and no further byte |
| Formats.FrameLayout | packetql/server.py:53-54 | the bytes of a frame |
| Pcap.WritePackets | packetql/capture/pcap.py:95-101 | the file's bytes, or after a field that does not fit the file of the packets before it |
| Pcap.ReadPackets | packetql/capture/pcap.py:62-92 | the cursor loop computes the specified reading, with its three errors |
| Pcap.WriteReadBack | packetql/capture/pcap.py:62-101 | what is written is what is read |
| Pcap.TruncationReadsPrefix | packetql/capture/pcap.py:62-92 | a file cut anywhere reads as the packets whose records lie wholly inside, and is refused inside the global header |
| Pcap.WholeRecordsLongest | packetql/capture/pcap.py:83-91 | that prefix is the longest one |
| Formats.ReadAccepts | packetql/capture/pcap.py:69-80 | which files are read, and which error the others get, by their bytes |
| Formats.AnyCapture | packetql/capture/pcap.py:62-92 | behind any such header the whole records are read |
| Formats.GlobalHeader | packetql/capture/pcap.py:98-98 | the 24 bytes a written file starts with |
| Packet.VerifyIpChecksum | packetql/capture/parser.py:37-49 | the folding loop accepts exactly the headers whose word sum is a positive multiple of 65535 |
| Packet.TwoFoldsSuffice | packetql/capture/parser.py:47-49 | two folds are enough for every header below 4 GiB |
| Packet.SingleWordChange | packetql/capture/parser.py:37-49 | overwriting one word of a valid header goes unnoticed if and only if it swaps 0x0000 and 0xFFFF and leaves a nonzero word |
| Packet.ComputeIpChecksum | tools/make_fixture_pcap.py:25-31 | the builder's checksum |
| Packet.IpBytesSum | tools/make_fixture_pcap.py:42-48 | the words of a built header add up to its fields and its checksum |
| Packet.BuiltVerifies | tools/make_fixture_pcap.py:42-48 | a built header always verifies; a corrupt one exactly when its fields sum to a multiple of 65535 |
| Packet.CorruptMayVerify | tools/make_fixture_pcap.py:46-47 | a corrupt header that still verifies |
| FrameBytes.AcceptedExactly | packetql/capture/parser.py:60-76 | a frame is accepted exactly when it is long enough, IPv4 by EtherType and version, has a whole header of five words or more, and verifies when that counts |
| FrameBytes.FieldsRead | packetql/capture/parser.py:78-80 | protocol, size, TTL and both addresses are the frame's bytes at their places |
| FrameBytes.PortsRead | packetql/capture/parser.py:82-88 | ports and flags are the bytes behind the options, of TCP and UDP when enough was captured, otherwise zero |
| FrameBytes.AnyHeaderParses | packetql/capture/parser.py:60-91 | any header with any options before any bytes is parsed to its own fields |
| FrameBytes.AnyHeaderWithSegment | packetql/capture/parser.py:82-88 | with a segment of which some bytes were captured, the ports that can be seen |
| Packet.ParsedFits | packetql/capture/parser.py:52-91 | every record parsed from any frame fits the columns of the store |
| Packet.ParseBuilt | packetql/capture/parser.py:52-91 | what is parsed of any prefix of a built frame: nothing, header fields with zero ports, or everything |
| Packet.SegmentBack | tools/make_fixture_pcap.py:51-60 | ports and flags of built TCP, UDP and ICMP segments, whole or cut short |
| Packet.ParseFile | packetql/capture/parser.py:94-101 | the records of the frames that parse, in order, or the file's error |
| Packet.FixtureParses | tools/make_fixture_pcap.py:63-85 | build, write, read and parse: every frame's fields come back in order, without the corrupt frames the checksum can tell |

## Left out

- Floats: stored timestamps are natural numbers packed in eight bytes (an invertible stand-in for the double), a frame's
  timestamp is counted in microseconds, averages and sort keys are real numbers, and a decimal literal keeps its digits;
  rounding, NaN and infinities are not modelled.
- Ill-typed predicates (a string compared with a number, a bare column as a condition, a LIKE pattern that is no list of
  numbers) make Python raise; the engine's theorems require a typed WHERE, which also leaves out `<` between two string
  literals. HAVING keeps its errors.
- Text beyond ASCII: the lexer is modelled on ASCII letters and digits, names in results are byte strings already in
  UTF-8, and `int()` accepts digits only (no sign, blanks or underscores).
- Token positions and the wording of error messages; errors are values of an enumeration.
- EXPLAIN text, cost strings, STATS counters, hit-rate reporting. EXPLAIN returns the plan.
- `load_or_build` and index files: they depend on file times. Indexes are assumed to represent the store they query, and
  are proved to after a build, and after a capture exactly when they did before it.
- Server sockets, worker threads and the accept loop; the lock, the frames and the codec are modelled.
- Live capture, and how raw frames reach the producer; the pipeline takes any sequence of puts.
- `fsync` and torn metadata: replacing the metadata is one step, and a column's bytes reach its file in order.
- RingBuffer.Ring.GetBatch: models the drain after the wait; that a timeout returns nothing is the writer's step with an
  empty result in `Pipeline`, and how long a wait lasts is not modelled.
- Capture.CapturePipeline.RunWriter: runs the writer alone on a closed ring; interleavings with the producer are the
  subject of `Pipeline`, where the counters that `_adapt` reads without the lock may have any values.
- Capture.CapturePipeline.constructor: requires an index set (without one the program only skips the indexing) and a
  directory that append mode can continue; on any other the store stays refused, as `Columnar.ColumnWriter.Flush` says.
- Capture.CaptureOffline: is the schedule in which the producer finishes first; `Pipeline` covers the others.
- ResultCodec.EncodeResult: is stated for columns of one kind of value; a column whose first cell decides a kind the
  others do not have makes the program raise or round.
- Dotted address text in the frame builder (`_ip`): addresses are the 32-bit numbers it denotes.
- The Flask bridge, the dashboard, the command line clients, table formatting, `int_to_ip`, `flags_str`, `proto_name`.
