# Verified model of the DuckDB Firebird extension

A DuckDB database can attach a Firebird database. The extension then discovers the tables, turns each table scan
into one Firebird `SELECT`, streams the rows back, and reads connection strings of the form
`firebird://[user[:password]@]host[:port]/database[?charset=X]`. This project models that logic in Dafny and proves
what it promises. `dafny verify dfyconfig.toml` covers all of it.

## What is proved

**Filters become SQL that means the same** (`table_filters`, `filter_clauses`, `where_clause`, `where_guard`,
`empty_ors`, `scan_query`). DuckDB does not apply a pushed filter again, and a `ROWS` clause cuts right after `WHERE`,
so the text has to be exact, not merely wider. The project contains its own tokenizer (sections 5.2 and 5.3 of ISO/IEC
9075:1992), a parser in which `AND` binds tighter than `OR`, and a three-valued evaluator (section 8.12). For every
filter tree, column name and constant the translated text parses back to the tree's own condition
(`TranslationReadsBack`) and, unless the filter holds an empty `OR`, is TRUE of exactly the values the filter accepts
(`TranslationIsExact`). The whole scan text, run by a reference server on any table, returns exactly the rows the scan
stands for (`ScanIsExact`), outside the two cases below.

Two places of the source do not meet that promise everywhere, and the exact conditions are proved:

* `BuildWhereClause` joins the clauses of different columns with a bare `" AND "`
  (`native/src/firebird_scanner.cpp:222`), and a top-level `OR` comes out without outer parentheses (line 182). The
  joined text keeps every row it should (`WhereNeverLosesRows`) and is exact when no `OR` with two or more branches
  stands beside another clause (`WhereIsExact`). Otherwise the text reads as a disjunction (`JoinedTreeIffSafe`),
  every row of a whole family gets through (`UnsafeJoinKeepsEscapes`), and for filters on distinct columns that can go
  either way the text is exact on all rows if and only if the guard holds (`WhereIsExactIffJoinIsSafe`).
  Parenthesising each clause removes the guard (`WrappedWhereIsExact`).
* An `OR` without children is skipped (lines 179-181) although it accepts nothing. A skipped filter accepts every
  value if and only if it holds no empty `OR` (`SkippedMeansTrue`). At any depth, the text keeps exactly what the
  filter accepts with its erased parts read as TRUE (`TextMeans`), so it is exact on a row if and only if the value
  does not leak past an empty `OR` (`TextIsExactIffNoLeak`). For filters without masked parts it is exact on all rows
  if and only if no `OR` is empty (`TextIsExactIffNonEmptyOrs`), and both results carry over to whole filter sets
  (`WhereIsExactIffNoLeak`, `WhereIsExactIffGuarded`). The comment at lines 155-156 speaks only of optimization-only
  terms.

**The LIMIT pass** (`limit_pushdown`, `limit_governing`, `plan_meaning`). The recursive pass updates row caps on
shared bind data in place. Each cap ends as the minimum of its old value and the total of the one LIMIT that governs
the scan, a second pass changes nothing, and the rows of every plan are unchanged, for any meaning of the operators
the pass stops at. Composed with the filter results: running the optimized plan with every scan sent as text gives
exactly the rows of the plan without any pushdown (`PushdownIsTransparent`, `FirebirdLimitOptimize`).

**The streaming scan** (`scan_cursor`, `scan_cells`, `streaming_scan`, `scan_protocol`, `scan_runs`). Any number of
threads, in any interleaving and with connection and fetch errors: at most one thread holds the cursor, what all
threads emit together is a prefix of the server's rows, each once and in order, and an empty chunk from the holder
comes exactly when everything has been delivered. The methods themselves, under any schedule, make exactly the steps
of that protocol (`RunScan`). Chunk sizes, the end of the cursor and the one scratch buffer behind all text and blob
cells are covered.

**The catalog** (`catalog_metadata`, `catalog_cache`, `catalog_transaction`, `connections`, `catalog_listing`,
`transaction_manager`, `transaction_runs`). The bulk metadata query agrees with the per-table query exactly when no
other table with columns has the same name up to case. The cache is transparent over every history exactly when no
relation with columns shares its name up to case with another relation. Entries handed out stay the same objects until
their name is cleared. A schema scan calls back once for each table with columns, at a known number of queries, after
every history exactly when no such clash involves a user table. Over every run each connection handle has one owner
and is released once.

**Connection strings** (`dsn`, `dsn_round_trip`, `dsn_exact`, `dsn_forms`, `dsn_grammar`). The parser is modelled
statement by statement, and `dsn_grammar` states on a text's own pieces what it makes of every form of text. Printing
a connection and parsing the text gives the same fields if and only if the connection is in `Printable` and its
credentials hold no question mark (`RoundTripIffPrintable`). The header promises that a bare path is taken as the
database (`native/src/include/firebird_settings.hpp:33-34`); a path with a slash is split there, so that its head
becomes the host or is dropped (`PathIsSplit`, `PathExamples`), even when the head is a drive such as `C:`
(`NameLocations`), and `DatabaseIffBare` says exactly which texts are taken whole. The comment at
`native/src/firebird_settings.cpp:55` speaks of the last `@`; the code at line 56 takes the first, and the model
follows the code.

## How the model is built

Code that computes by expressions is modelled by functions; the loops and in-place updates of the source are methods
and classes, each proved equal to a specification function whose own properties are the lemmas. The server is a fixed
table, a fixed list of relations and a fixed sequence of fetched rows. Both engines share one abstract order on
values, of which only this is assumed: integers compare as numbers. A C++ flag with a value (`has_host`, `host`) is
one optional value. All lemmas are proved by explicit recursion.

## Model

| member | source | states |
|---|---|---|
| SqlLexer.QuotingIsSelfDelimiting | native/src/firebird_scanner.cpp:34-36 | A quoted text reads back as exactly itself with exactly the given continuation if and only if the continuation does not start with the same quote: no content ends the token early |
| SqlLexer.QuotingIsInjective | native/src/firebird_scanner.cpp:94-96 | Different names and strings have different quoted forms |
| SqlLexer.LexIdentifier | native/src/firebird_scanner.cpp:34-36 | Every non-empty column or table name, whatever its characters, lexes to one identifier token with that name |
| SqlLexer.LexString | native/src/firebird_scanner.cpp:94-96 | Every string constant lexes to one character literal with that content |
| SqlText.DigitsRoundTrip | native/src/firebird_scanner.cpp:249 | The decimal text of a number denotes that number |
| SqlText.NoLeadingZero | native/src/firebird_scanner.cpp:249 | Numbers are printed without leading zeros |
| TableFilters.FormatLiteral | native/src/firebird_scanner.cpp:71-109 | A constant has a literal exactly when it is not NULL and of a supported type |
| FilterClauses.LexLiteral | native/src/firebird_scanner.cpp:71-109 | Each literal lexes, before any continuation, to the tokens of its value |
| FilterClauses.ParseLiteral | native/src/firebird_scanner.cpp:71-109 | The tokens of a literal read back as the same constant: sign, kind and content included |
| FilterClauses.OperatorReads | native/src/firebird_scanner.cpp:50-67 | The printed operator is read as the comparison the filter stands for |
| TableFilters.FormatInList | native/src/firebird_scanner.cpp:139-146 | The loop over IN values collects all literals in order, or fails at the first value without one |
| TableFilters.LiteralsFormat | native/src/firebird_scanner.cpp:139-146 | An IN list can be printed exactly when every value has a literal |
| TableFilters.TranslateFilter | native/src/firebird_scanner.cpp:115-193 | The recursive loops over the children produce the text, skip or exception of the specification function, whose outcome, syntax and meaning the next rows prove |
| TableFilters.LeafOutcomes | native/src/firebird_scanner.cpp:117-149 | Each kind of leaf gives text, is skipped or throws, by its own operator and constants alone, and with which exception; optional, dynamic and bloom filters are skipped |
| TableFilters.ConjunctionOutcomes | native/src/firebird_scanner.cpp:150-184 | By the outcomes of the children alone: an AND throws what its first throwing child throws and is skipped exactly when all children are; an OR gives up at its first child without text, with that child's exception or its own, and is skipped exactly when it has no child |
| TableFilters.TranslationOutcomes | native/src/firebird_scanner.cpp:150-192 | Trichotomy: throws if and only if the filter is not representable (an unsupported node, or an OR with a branch that erases), is skipped if and only if it is representable and erases, gives text otherwise |
| TableFilters.PartsOutcomes | native/src/firebird_scanner.cpp:152-181 | The same for the children: an OR keeps one part for each child or throws; an AND has no parts if and only if all children erase |
| TableFilters.SkippedMeansTrue | native/src/firebird_scanner.cpp:155-163 | A filter that is skipped accepts a value if and only if it contains no empty OR, so skipping is harmless exactly then |
| EmptyOrs.LeaksAreTheDifference | native/src/firebird_scanner.cpp:150-184 | For every filter, reading all that erases as TRUE never accepts less than the filter, and accepts more on exactly the values that leak: past an empty OR, through all terms of each AND around it, with no branch of any OR around it accepting them |
| EmptyOrs.NoEmptyOrNoLeak | native/src/firebird_scanner.cpp:150-184 | Without an empty OR at any depth nothing leaks, and both readings agree |
| EmptyOrs.UnmaskedLeak | native/src/firebird_scanner.cpp:150-184 | In a filter without masked parts an empty OR at any depth lets some value leak |
| EmptyOrs.MaskedIsHarmless | native/src/firebird_scanner.cpp:150-184 | A masked empty OR does not leak: beside g in an AND, next to a branch g of an OR |
| FilterClauses.TextOfFilter | native/src/firebird_scanner.cpp:150-184 | The text is that of parenthesised groups, one for a leaf or an AND and one for each branch of an OR |
| FilterClauses.GroupsSound | native/src/firebird_scanner.cpp:158-177 | The parentheses make every nesting unambiguous: each part lexes and parses to one condition whatever follows it |
| FilterClauses.TranslationReadsBack | native/src/firebird_scanner.cpp:115-193 | Parser and printer are inverse: for every tree, name and constants the text reads back as the tree with skippable AND terms erased |
| FilterClauses.ConditionMeans | native/src/firebird_scanner.cpp:41-48 | For every representable filter that does not erase, the condition read back is TRUE in three-valued logic of exactly the rows its erased tree accepts in two-valued logic, NULLs included; without empty ORs that is the filter itself |
| FilterClauses.TranslationIsExact | native/src/firebird_scanner.cpp:115-193 | Without empty ORs: text, lexed, parsed and evaluated, agrees with the filter on every row, and a skipped filter accepts every row |
| FilterClauses.TextMeans | native/src/firebird_scanner.cpp:115-193 | For every representable filter the text keeps exactly the rows its erased tree accepts, and never fewer than the filter |
| FilterClauses.TextIsExactIffNoLeak | native/src/firebird_scanner.cpp:150-184 | For every representable filter, with empty ORs at any depth: text and filter agree on a row if and only if the value does not leak |
| FilterClauses.TextIsExactIffNonEmptyOrs | native/src/firebird_scanner.cpp:150-184 | For every representable filter without masked parts: text and filter agree on all rows if and only if no OR at any depth is empty |
| FilterClauses.DroppedEmptyOrIsExactIff | native/src/firebird_scanner.cpp:153-181 | An AND that drops a term with an empty OR is exact on a row if and only if the text of one of its terms rejects the row |
| FilterClauses.EmptyOrExample | native/src/firebird_scanner.cpp:153-181 | Concrete leaks at two depths: an empty OR beside `"A" = 1`, alone and as a branch of an OR with IS NULL, keeps a row with A = 1 that the filter rejects |
| FilterClauses.OrKeepsEveryBranch | native/src/firebird_scanner.cpp:170-178 | The condition read back from an OR has one disjunct for each child, in order |
| WhereClause.BuildWhereClause | native/src/firebird_scanner.cpp:195-223 | The loop over the filter set gives the joined clauses or the first exception, as the specification function says |
| WhereClause.RealColumnsResolve | native/src/firebird_scanner.cpp:204-213 | Of the columns a table can have, a filter resolves to the name of the projected column exactly when its id is below their number; otherwise which exception is thrown |
| WhereClause.FirstExceptionWins | native/src/firebird_scanner.cpp:200-218 | A filter set throws the exception of its first filter that throws one, and gives clauses when none does |
| WhereClause.ClausesOfEntries | native/src/firebird_scanner.cpp:200-221 | Clauses exist if and only if every filter resolves to a real column and is representable, and are then exactly those of the filters that do not erase |
| WhereClause.WhereReads | native/src/firebird_scanner.cpp:222 | What a bare AND really joins: the last group of one clause with the first group of the next |
| WhereClause.WhereNeverLosesRows | native/src/firebird_scanner.cpp:195-223 | Every row that all filters accept is kept, whatever the pushable filters: with or without the guard, with or without empty ORs |
| WhereClause.WhereMeans | native/src/firebird_scanner.cpp:195-223 | Under the guard the text keeps exactly the rows that the text of every filter keeps, with empty ORs or without |
| WhereClause.WhereIsExactIffNoLeak | native/src/firebird_scanner.cpp:195-223 | Under the guard, with empty ORs at any depth: the text is exact on a row if and only if the text of some filter rejects the row or no value in it leaks |
| WhereClause.WhereIsExact | native/src/firebird_scanner.cpp:195-223 | Without empty ORs, and with at most one clause or no multi-branch top-level OR, the text keeps exactly the rows every filter accepts |
| WhereClause.JoinedTreeIffSafe | native/src/firebird_scanner.cpp:182-222 | Two or more clauses read back as the intended conjunction if and only if none is a multi-branch OR; otherwise the text is a disjunction |
| WhereClause.WrappedWhereIsExact | native/src/firebird_scanner.cpp:222 | Were each clause parenthesised, the text would be exact with no guard, for filters without empty ORs |
| WhereClause.WrappedWhereMeans | native/src/firebird_scanner.cpp:222 | Were each clause parenthesised, the text would keep exactly the rows that the text of every filter keeps, for all pushable filters |
| WhereGuard.UnsafeJoinKeepsEscapes | native/src/firebird_scanner.cpp:182-222 | Without the guard every row of the escaping family is kept whatever the remaining filters say, for all pushable filters |
| WhereGuard.SomeRowEscapes | native/src/firebird_scanner.cpp:182-222 | Without the guard, over filters on distinct columns whose texts can each keep and reject, some row is kept that a filter rejects |
| WhereGuard.WhereIsExactIffJoinIsSafe | native/src/firebird_scanner.cpp:195-223 | Over such filters without empty ORs the text agrees with them on all rows if and only if the guard holds |
| WhereGuard.WhereIsExactIffGuarded | native/src/firebird_scanner.cpp:150-223 | Over such filters without masked parts, with empty ORs at any depth, the text agrees with them on all rows if and only if the guard holds and no filter holds an empty OR |
| WhereGuard.UnsafeJoinExample | native/src/firebird_scanner.cpp:182-222 | A concrete filter set and row: `("A" = 1) OR ("A" = 2) AND "B" = 7` keeps a row with B = 0 |
| ScanQuery.FirebirdInitGlobal | native/src/firebird_scanner.cpp:225-252 | The loop over the projected columns and the conditional ROWS clause build the text of the specification function, or pass on its exception; the rows below say which items and which query that text is |
| ScanQuery.SelectItems | native/src/firebird_scanner.cpp:230-242 | One item for each projected column, in order: the quoted name of the column with that id, or the constant 1 for an id past the columns; a single constant 1 when nothing is projected |
| ScanQuery.ScanSqlReads | native/src/firebird_scanner.cpp:230-250 | The whole text reads back as one query: the projected items, the table, the WHERE condition and the row cap |
| ScanQuery.ScanIsExact | native/src/firebird_scanner.cpp:195-252 | For a scan bound to a table by its distinct column names, whose filters are pushable, hold no empty OR and join safely: a reference server that lexes, parses, filters, cuts and projects answers the text with exactly the first rows, up to the cap, that every filter accepts, with the projected columns by position |
| LimitPushdown.BindData.constructor | native/src/include/firebird_scanner.hpp:13-23 | New bind data has no row cap |
| LimitPushdown.FindFirebirdGet | native/src/firebird_scanner.cpp:365-388 | The loop finds the Firebird scan below a chain of one-child projections, or nothing |
| LimitPushdown.FirebirdPushLimit | native/src/firebird_scanner.cpp:390-417 | The in-place walk leaves on every scan exactly the cap the specification function computes from its old one, which the rows of LimitGoverning state by the shape of the plan; the 64-bit sum cannot overflow |
| LimitPushdown.OthersUntouched | native/src/firebird_scanner.cpp:403-416 | A scan outside a plan keeps its cap |
| LimitGoverning.PassRecordsLeast | native/src/firebird_scanner.cpp:363-417 | For every plan: the cap left on a scan is at most its old cap, at most count + offset of every LIMIT with constant count and constant or absent offset over one-child projections over that scan whose sum fits 64 bits, and never anything but one of these |
| LimitGoverning.GoverningLimitIsRecorded | native/src/firebird_scanner.cpp:403-408 | With one such sum for a scan the cap is the minimum of the old cap and that sum |
| PlanMeaning.CapIsMin | native/src/firebird_scanner.cpp:405-409 | The final cap is the minimum of the old one and all totals pushed onto the scan |
| PlanMeaning.MinAllIsLeast | native/src/firebird_scanner.cpp:406-409 | That minimum is a lower bound of all of them, is one of them, and is absent only when there was nothing |
| PlanMeaning.OneGoverningLimit | native/src/firebird_scanner.cpp:363-388 | No two LIMITs of a plan write the same scan |
| PlanMeaning.GovernedOnce | native/src/firebird_scanner.cpp:363-388 | When scans own their bind data, all LIMITs over a scan give one sum |
| PlanMeaning.PassTakesTheMinimum | native/src/firebird_scanner.cpp:390-417 | Each scan gets the minimum of its old cap and count + offset of its one governing LIMIT, and a second pass changes nothing |
| PlanMeaning.ChainCuts | native/src/firebird_scanner.cpp:356-360 | Capping the scan below projections cuts the rows of the whole chain at the same place |
| PlanMeaning.PassPreservesRows | native/src/firebird_scanner.cpp:356-417 | For every plan whose scans own their bind data, whatever the old caps and whatever the other operators mean, the pass leaves the denoted rows unchanged |
| PlanMeaning.ExecutionIsMeaning | native/src/firebird_scanner.cpp:41-48 | Running a plan whose scans all meet the conditions of ScanIsExact, with every scan answered from its text, gives what the plan denotes |
| PlanMeaning.PushdownIsTransparent | native/src/firebird_scanner.cpp:195-417 | End to end, for plans whose scans all meet those conditions: projection, filter and limit pushdown together return exactly the rows of the plan with no pushdown |
| PlanMeaning.FirebirdLimitOptimize | native/src/firebird_scanner.cpp:419-423 | The optimizer hook on a freshly bound plan leaves caps with which running the plan gives its meaning: on each scan the sum of the LIMIT over it, and none on a scan under no such LIMIT |
| ScanCursor.FbCursor.Next | native/rust/src/lib.rs:459-487 | Each call consumes one item: 1 with the row current, -1 on a fetch error and 0 at the end, both with no row current |
| ScanCursor.FbCursor.FbCellText | native/rust/src/lib.rs:569-611 | The scratch buffer is refilled with the current cell's text; null cells give null |
| ScanCursor.FbCursor.FbCellBlob | native/rust/src/lib.rs:615-651 | The same for binary cells; cells that are neither binary nor text give null |
| ScanCursor.WriteCell | native/src/firebird_scanner.cpp:285-337 | One output cell holds the converted value (what that is, ScanCells.ConversionIsExact states), every other cell is unchanged, unsupported types fail |
| ScanCursor.WriteRow | native/src/firebird_scanner.cpp:285-338 | After the column loop every cell of the row holds its own column's value although all share one buffer, and other rows are unchanged |
| ScanCells.ConversionIsExact | native/rust/src/lib.rs:499-651 | The converted cell is exactly the one that must arrive, stated without the accessors: whole numbers as themselves or wrapped to 16 or 32 bits, numbers and booleans as themselves, dates, times and timestamps as their own component, texts and bytes as they are, integers in text columns as sign and digits, NULL as NULL; no cell exactly for a value in an unsupported column |
| ScanCells.RowArrives | native/src/firebird_scanner.cpp:285-338 | Every cell of an output row is the one that must arrive, a column past the end of the row as NULL; a row throws exactly when an unsupported column holds a value |
| ScanCells.DecimalIsPrinted | native/rust/src/lib.rs:594 | The text of an integer is the one decimal text, without leading zeros, that denotes it |
| ScanCursor.TwoTextsShareOneBuffer | native/rust/src/lib.rs:565-611 | Why the copy must be immediate: two texts taken before copying are both the second one |
| StreamingScan.FirebirdInitLocal | native/src/firebird_scanner.cpp:254-269 | Only the first caller claims the scan and opens a cursor, which may fail; every other caller gets a state that is done |
| StreamingScan.FillChunk | native/src/firebird_scanner.cpp:279-340 | The row loop stops at a full chunk, the end of the data or an exception, and the chunk holds exactly the rows fetched |
| StreamingScan.FirebirdScan | native/src/firebird_scanner.cpp:271-342 | One call makes exactly the transition of the protocol below, fills the chunk with the server's rows, and never advances a cursor that has reported its end |
| ScanProtocol.ChunkContinues | native/src/firebird_scanner.cpp:279-341 | A chunk continues exactly where the delivered rows end, and is empty if and only if all were delivered before it |
| ScanProtocol.StepKeepsInvariant | native/src/firebird_scanner.cpp:254-342 | Every step of every thread keeps the invariant: one holder, everyone else done, delivered rows equal fetched rows |
| ScanProtocol.DeliveredIsPrefix | native/src/firebird_scanner.cpp:254-342 | Over every run at most one thread holds the scan and the emitted rows are a prefix of the server's, each once and in order |
| ScanProtocol.EmptyChunkMeansAllDelivered | native/src/firebird_scanner.cpp:280-284 | The holder's call delivers no row, without throwing, if and only if every row has been delivered |
| ScanProtocol.OthersDeliverNothing | native/src/firebird_scanner.cpp:273-276 | A thread without the cursor never delivers a row |
| ScanRuns.CallScan | native/src/firebird_scanner.cpp:271-342 | A call of the scan method with a new chunk is one protocol call, and the rows a reader finds in the chunk are the emitted ones |
| ScanRuns.RunEvent | native/src/firebird_scanner.cpp:254-342 | Initialising a thread or calling the scan with its state keeps the objects in step with the protocol |
| ScanRuns.RunScan | native/src/firebird_scanner.cpp:254-342 | Every schedule of the methods themselves, with connects failing anywhere, makes the steps of the protocol, and what all threads emitted is a prefix of the server's rows, each once and in order |
| ScanProtocol.FetchedAfterCalls | native/src/firebird_scanner.cpp:279-283 | After k calls min(k * V, n) of n rows are fetched, and the state is done exactly when n < k * V |
| ScanProtocol.OneCall | native/src/firebird_scanner.cpp:271-342 | A call throws exactly when one of the next 2048 rows does not convert, and otherwise delivers exactly those rows and is done exactly when they ran out; without a cursor, or when done, it delivers nothing |
| ScanProtocol.ChunkSizes | native/src/firebird_scanner.cpp:279-341 | Call k + 1 delivers the rows from k * V on; exactly the first ceil(n / V) chunks are not empty and all of them but the last are full |
| CatalogMetadata.ReadTableColumns | native/src/firebird_connection.cpp:133-155 | The loop returns the names and types of the per-table query, in order |
| CatalogMetadata.ColumnsAreTyped | native/rust/src/lib.rs:236-252 | Each column of the per-table query has its field's name and the type of its field type, subtype, scale, effective length (the character length when positive) and precision |
| CatalogMetadata.UnknownNameHasNoColumns | native/src/storage/firebird_transaction.cpp:50-54 | A name that is no relation's, exactly spelled, has no columns |
| CatalogMetadata.GetAllTableColumns | native/src/firebird_connection.cpp:157-185 | The fold of the flat list has an entry for exactly the keys with columns, each with its columns in order |
| CatalogMetadata.BulkHead | native/rust/src/lib.rs:263-276 | Under a key the bulk list holds the columns of all user relations of that spelling, one relation after the other in catalog order |
| TextCase.FoldAgrees | native/src/firebird_connection.cpp:166-179 | Two names share a key exactly when they agree letter by letter up to the case of ASCII letters |
| CatalogListing.TablesByPosition | native/rust/src/lib.rs:127-152 | The listed tables are, in catalog order and once each, the names of the non-system relations that have one |
| CatalogMetadata.BulkSplits | native/rust/src/lib.rs:263-317 | The columns under a table's key are its own, or strictly more when other tables merge in |
| CatalogMetadata.BulkAgreesIffUnmerged | native/rust/src/lib.rs:210-317 | Bulk and per-table queries give a user table the same columns if and only if no other user table with columns has its name up to case |
| CatalogCache.RunCoherent | native/src/storage/firebird_transaction.cpp:41-79 | Unless a relation with columns shares its name up to case with a user table, over every run of lookups, bulk loads and clears each cached entry is what the server's own query gives |
| CatalogCache.CoherentLookup | native/src/storage/firebird_transaction.cpp:41-57 | In a coherent cache, looking up an exactly spelled relation gives what its own query gives, when no other relation with columns has its name up to case |
| CatalogCache.HistoryIndependentIffNoClash | native/src/storage/firebird_transaction.cpp:41-79 | Lookups of exactly spelled relations are independent of the history if and only if no relation with columns shares its name up to case with another |
| CatalogCache.ClashExample | native/src/storage/firebird_transaction.cpp:43-46 | A concrete server: after a lookup of `T`, a lookup of the relation `t`, which has columns of its own, answers with T's |
| CatalogCache.OtherSpellings | native/src/storage/firebird_transaction.cpp:43-46 | For any spelling and history, without such a clash: something is found if and only if the name is exactly that of a relation with columns or the history left its key in the cache, and it is then a relation of that spelling with its own columns |
| CatalogCache.CachedIffFilled | native/src/storage/firebird_transaction.cpp:41-79 | After any history a key is cached if and only if some operation looked up a relation of that spelling with columns, or bulk-loaded such a user table, and no later one cleared it |
| CatalogCache.SpellingDependsOnHistory | native/src/storage/firebird_transaction.cpp:41-74 | A spelling other than the exact one finds nothing on a cold cache and the table after a bulk load |
| CatalogCache.ScanSchemaIsComplete | native/src/storage/firebird_schema_entry.cpp:61-77 | Unless a relation with columns shares its name up to case with a user table: after any history the scan yields each user table with columns once, in catalog order, with two queries plus one for each table without columns |
| CatalogListing.ScanByPosition | native/src/storage/firebird_schema_entry.cpp:61-77 | By positions in the catalog, under the same condition: the called-back entries are one for each non-system relation with fields, in catalog order, under its own name with its own columns, pairwise distinct; the queries are two plus one for each non-system relation without fields |
| CatalogCache.ScanIsRightIffNoUserClash | native/src/storage/firebird_schema_entry.cpp:61-77 | The scan yields the right entries after every history if and only if there is no such clash |
| CatalogTransaction.FirebirdTransaction.GetConnection | native/src/storage/firebird_transaction.cpp:21-26 | Opens one handle on first use through a temporary that is moved from, keeps it afterwards, and changes nothing when the connect fails |
| CatalogTransaction.FirebirdTransaction.MakeTableEntry | native/src/storage/firebird_transaction.cpp:28-39 | A new entry object with all columns in order, cached under the name's key |
| CatalogTransaction.FirebirdTransaction.GetCatalogEntry | native/src/storage/firebird_transaction.cpp:41-57 | Returns the cached object, or caches what the server says, or null without caching; fails exactly on a miss without a connection to be had; costs a query only on a miss; every cached object stays |
| CatalogTransaction.FirebirdTransaction.LoadAllEntries | native/src/storage/firebird_transaction.cpp:59-74 | Adds every listed table that is not cached and has columns, with two queries; every cached object stays |
| CatalogTransaction.FirebirdTransaction.ClearTableEntry | native/src/storage/firebird_transaction.cpp:76-79 | Removes exactly the entry of that name |
| CatalogTransaction.FirebirdTransaction.VisitTables | native/src/storage/firebird_schema_entry.cpp:71-76 | The callback loop calls back the entries, in order, and makes the queries of the specification function |
| CatalogTransaction.FirebirdTransaction.Scan | native/src/storage/firebird_schema_entry.cpp:61-77 | Bulk load, then the callback loop: called-back entries, final cache and number of queries are those of the value-level scan that CatalogListing.ScanByPosition describes |
| CatalogTransaction.FirebirdTransaction.LookupEntry | native/src/storage/firebird_schema_entry.cpp:83-90 | Only tables are looked up, through the cache |
| CatalogTransaction.FirebirdTransaction.Replay | native/src/storage/firebird_transaction.cpp:41-79 | Over any history, with connects failing anywhere, every entry handed out is still the object cached under its name unless that name was cleared, and the cache is that of the value-level run of the operations that got through |
| Connections.FirebirdClient.Connect | native/rust/src/lib.rs:94-110 | A connect issues a handle never issued before, or none |
| Connections.FirebirdClient.Disconnect | native/rust/src/lib.rs:113-117 | Releases an open handle; the count of open and released handles is that of issued ones, so none is released twice |
| Connections.FirebirdConnection.Close | native/src/firebird_connection.cpp:104-109 | Releases the owned handle once and forgets it |
| Connections.FirebirdConnection.MoveFrom | native/src/firebird_connection.cpp:95-102 | Releases the own handle, takes over the other's and leaves the other with none; self-assignment changes nothing |
| TransactionManager.FirebirdTransactionManager.StartTransaction | native/src/storage/firebird_transaction_manager.cpp:11-17 | Adds one new transaction without a handle; every handle keeps its one owner |
| TransactionManager.FirebirdTransactionManager.CommitTransaction | native/src/storage/firebird_transaction_manager.cpp:19-23 | Removes the transaction and releases exactly its handle; every other handle keeps its one owner |
| TransactionManager.FirebirdTransactionManager.RollbackTransaction | native/src/storage/firebird_transaction_manager.cpp:25-28 | The same for a rollback |
| TransactionManager.FirebirdTransactionManager.Perform | native/src/storage/firebird_transaction.cpp:21-79 | One operation inside an active transaction continues its session by that operation alone, and every handle keeps its one owner |
| TransactionRuns.RunAll | native/src/storage/firebird_transaction_manager.cpp:11-28 | Over every run, with connects failing anywhere: the active transactions are exactly those started and neither committed nor rolled back since, each with the cache and connection that its own actions leave; open handles have one owner each among them, and with no active transaction every handle issued was released |
| Dsn.ParseDSN | native/src/firebird_settings.cpp:32-156 | The step-by-step parser returns the fields, or the exception of std::stoi, of the staged specification function, which the rows of DsnGrammar state on the text's own pieces |
| Dsn.ParseLocation | native/src/firebird_settings.cpp:72-128 | Host, port and database of every location text, with brackets, drive letters and bare databases |
| Dsn.ParseCredentials | native/src/firebird_settings.cpp:55-70 | User, password and what remains, split at the first at sign and the first colon |
| Dsn.ParseQuery | native/src/firebird_settings.cpp:130-153 | The loop over the parameters applies each key=value in order |
| DsnRoundTrip.PortRoundTrip | native/src/firebird_settings.cpp:89-90 | Every port below 65536 prints to a text that reads back as itself |
| DsnRoundTrip.ParsedOfPrint | native/src/firebird_settings.cpp:38-70 | With no question mark before the query and a printable end (a database; the charset or else the database's last character as trimming and splitting leave it) the printed string parses back if and only if its two authority parts do |
| DsnRoundTrip.PrintableParses | native/src/firebird_settings.cpp:32-156 | Every printable connection parses back to the same fields |
| DsnExact.LeadingAtIsLost | native/src/firebird_settings.cpp:55-58 | A host that starts with an at sign, printed without a user, never parses back |
| DsnExact.CredentialsWerePrintable | native/src/firebird_settings.cpp:55-70 | Credentials that read back had a non-empty user without colon, and no at sign |
| DsnExact.HostWasPrintable | native/src/firebird_settings.cpp:72-121 | A location that reads back had a printable host: no slash, no leading bracket, no closing bracket inside brackets, and not one character with a port |
| DsnExact.UserIsClean | native/src/firebird_settings.cpp:47-53 | A user with a question mark never comes back, not even through the query |
| DsnExact.PasswordIsClean | native/src/firebird_settings.cpp:47-53 | Nor does a password with a question mark |
| DsnExact.RoundTripIffPrintable | native/src/firebird_settings.cpp:32-156 | For every connection the documented form can express, printing and parsing gives the same fields if and only if it is printable and its credentials hold no question mark |
| DsnExact.AtSignExample | native/src/firebird_settings.cpp:55-58 | A concrete connection that does not come back: its password holds an at sign |
| DsnForms.SchemesAgree | native/src/firebird_settings.cpp:38-45 | Both schemes, in any letter case, give the same result whatever follows |
| DsnForms.DatabaseIffBare | native/src/include/firebird_settings.hpp:33-34 | A text names the database as it stands, and nothing else, if and only if it has no question mark, at sign, slash or leading bracket and at most the colon of a drive letter first |
| DsnForms.PathIsSplit | native/src/firebird_settings.cpp:108-121 | A path without question mark, at sign, colon or leading bracket is split at its first slash: its head, if any, becomes the host and the rest the database |
| DsnForms.PathExamples | native/src/include/firebird_settings.hpp:33-34 | Concrete paths: `srv/x.fdb` gives the host `srv` and the database `x.fdb`, and `/srv/x.fdb` the database `srv/x.fdb` |
| DsnForms.OneAssignment | native/src/firebird_settings.cpp:131-152 | One key=value sets exactly the field its trimmed, lower-cased key names, and throws exactly for a bad port |
| DsnForms.LastAssignmentWins | native/src/firebird_settings.cpp:130-153 | The query overrides what came before, the last assignment to a key wins for charset, user, password and port alike, host and database are out of its reach, and it throws if and only if some port parameter is bad |
| DsnForms.LastValueIsLast | native/src/firebird_settings.cpp:131-152 | What the last assignment to a key is |
| DsnGrammar.TrimCuts | native/src/firebird_settings.cpp:9-13 | Trimming removes exactly the white space (space, tab, line feed, vertical tab, form feed, carriage return) at both ends |
| DsnGrammar.SchemeForms | native/src/firebird_settings.cpp:34-45 | White space at the ends and one scheme, in any letter case, are dropped; a text without scheme is kept whole |
| DsnGrammar.QueryForms | native/src/firebird_settings.cpp:47-53 | The first question mark separates the authority from the query, which then overrides |
| DsnGrammar.CredentialForms | native/src/firebird_settings.cpp:55-70 | No at sign: no credentials; user@ and user:password@ up to the first at sign, the first colon ending the user; an empty user is unspecified, an empty password is specified |
| DsnGrammar.PortForms | native/src/firebird_settings.cpp:116 | White space, a sign, digits and anything after them: the number wrapped around to 16 bits, or an exception when it does not fit 32 |
| DsnGrammar.NoPort | native/src/firebird_settings.cpp:116 | Without a digit there, an exception |
| DsnGrammar.PortLocations | native/src/firebird_settings.cpp:93-121 | host:port with a database after a slash or without one, unless the host is one letter |
| DsnGrammar.NameLocations | native/src/firebird_settings.cpp:93-128 | A name without a colon, or with its first colon at a drive letter: the host before a slash, the database without one |
| DsnGrammar.BracketPortLocations | native/src/firebird_settings.cpp:75-94 | [host]:port with a database after a slash or without one |
| DsnGrammar.BracketLocations | native/src/firebird_settings.cpp:75-94 | [host] and anything but a colon up to the slash: no port |
| DsnGrammar.UnclosedBracket | native/src/firebird_settings.cpp:75-77 | An opening bracket that is never closed leaves host, port and database unspecified |
| DsnGrammar.QueryOfPieces | native/src/firebird_settings.cpp:131-132 | The query is its pieces between ampersands, applied in order |
| DsnGrammar.ParameterForms | native/src/firebird_settings.cpp:133-151 | key=value with white space around either: the key in any letter case names the field that takes the value; unknown keys change nothing |
| DsnGrammar.NoAssignment | native/src/firebird_settings.cpp:133-136 | A piece without an equals sign changes nothing |

## Left out

- The wire protocol, authentication, sockets and timeouts: the server is a fixed table, a list of relations and a sequence of fetched rows.
- Failing queries on an open introspection connection: only connects fail; errors while fetching rows are modelled.
- C string conversion, raw handles and lifetimes in the Rust layer, and the release of a scan's own cursor connection.
- Text of FLOAT and DOUBLE constants: a constant is a sign and a numeric literal as printed; rounding, NaN and infinity are not modelled. DECIMAL constants print alike and have no case of their own.
- Widths of integer constants and the server's own numeric ranges: constants and ROWS counts are unbounded in the text.
- Calendar texts: a date or time is a printed text without a quote; the engines' order on values is one abstract function.
- Collations, CHAR padding and character sets: strings are compared by the abstract order.
- Field descriptions are unbounded integers, and their mapping to DuckDB types (`FirebirdFieldToLogicalType`) is a parameter.
- Relation and column names are taken as the metadata queries return them, already without surrounding blanks.
- Locks: each locked method is one atomic step; in the scan protocol the claim and the opening of the cursor are two steps, in `ScanRuns` one initialisation is one event.
- `NormalizeUser`, `GetEnv`, `ResolveParameters` and `charset_from_name`: single-branch helpers.
- Read-only rejections, statistics, size reporting and schema lookup by name: constant results or unconditional exceptions.
- FilterClauses.TranslationIsExact: assumes no empty OR inside the filter, as do WhereClause.WhereIsExact, ScanQuery.ScanIsExact and the end-to-end results; `TextIsExactIffNoLeak` and `WhereIsExactIffNoLeak` prove when the text is exact with them.
- FilterClauses.TextIsExactIffNonEmptyOrs: assumes no masked part, since an empty OR whose other terms are covered by another branch is harmless (`MaskedIsHarmless`).
- FilterClauses.TranslationReadsBack: assumes a non-empty column name, since a delimited identifier has at least one character.
- WhereGuard.WhereIsExactIffJoinIsSafe: assumes filters on distinct columns whose texts can each keep and reject some value, because an unsafe join of filters that are constantly true or false can be harmless; a DuckDB filter set has one filter for each column. WhereGuard.WhereIsExactIffGuarded assumes the same and no masked parts.
- The vector size is DuckDB's default of 2048, which no file of the repository states.
- Server integers are unbounded in ScanCells.ConversionIsExact; a BIGINT column takes them as they are.
- ScanCursor.WriteCell: casts of floating-point values to other types are numbers supplied with the value.
- DsnExact.RoundTripIffPrintable: a connection without host or database, or with a password and no user, has no text in the documented form and is not printed.
