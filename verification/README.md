# Verified models of the FinSagent data pipeline and the release-metadata merge

This project models, in Dafny 4.11, the stateful cores of the repository and proves what they keep.

- **The ingestion ledger** (`Ledger*.dfy`, `Migration.dfy`, `Paths.dfy`). A versioned document store that is
  driven file by file. `LedgerSpec` says on values what each step does, `Ledger` does it in place on the tables
  and is proved equal, `LedgerInvariant`, `LedgerAccounting`, `Migration`, `LedgerRuns` and `LedgerRetries` prove what
  every step, every run and every history keeps; `LedgerColumns` and `MigrationColumns` say column by column what
  they write. Parser and classifier results, unreadable files, broken copies and database errors are arbitrary
  inputs; SHA-256 is injective; time is a logical clock.
- **Documents to chunks** (`Packing`, `PackingTight`, `TableRows`, `TablePacking`, `Markdown`, `MarkdownRules`,
  `MarkdownPacking`, `Regions`, `RegionLinks`). Bounded packing, table rows that print and read back, Markdown
  sectioning, whole Markdown files and Excel region detection.
- **Hot reload of the chat server** (`RagReload`). A state machine over the atomic steps of the event loop and the
  reload threads, and a class with the real variables.
- **Rate limiting and checkpointing** (`RateLimiter`, `Checkpoint`), **update metadata** (`UpdateMetadata`,
  `MergePromises`), **dedup and links** (`Dedup`), **class balancing** (`Balance`) and **prompt budgets**
  (`Prompt`). `Text`, `Orders` and `Options` are shared.

`dafny verify dfyconfig.toml` checks everything.

## Where the code and its promises differ

The models follow the code. Each point below is proved by the lemmas it names.

- A run may add a version although the current row of an unchanged file is `indexed`: when a newer revision
  failed to parse, every later run retries it and appends one more failed attempt (`FailedRevisionAddsForever`,
  over whole runs `FailedRevisionOverRuns`, reached in `FailedRevisionExample`), whenever the failure can be
  recorded. What a rerun adds is exactly `RerunAddsVersionIff`.
- A reused row whose classifier is outdated takes over a fresh conflict verdict without leaving the search index
  (`ConflictsStayOutIff`, an input in `RefreshExample`).
- The migration repairs every table with distinct ids except those that `Repairable` excludes: the empty-string
  deletion stamp of a row it makes current, and `pending` on a deleted row, survive it (`MigrationEstablishes`,
  inputs in `BlankExample` and `PendingExample`). It keeps the chunk accounts except where a document with a legacy
  status that is not a PDF has pages and no chunks (`MigrationAccounts`, a table in `PagesExample`).
- Legacy rows that contest a path are kept apart by a cut of their ids to 12 characters; where these and the file
  names are equal they are merged after all (`ContestantsMergeIff`).
- The packing bound holds for all inputs from `max_chars` 32 on, not from 64 (`BoundHoldsIff`). A table row
  without cells does not read back as such (`RowRoundTrip`).
- After a successful idle wait a request can still be running when the service is replaced, exactly when it stood
  between its check and its increment (`OverlapIffPending`, `RaceExample`).
- Fewer than `save_interval` results are unsaved at every completion (`CrashLoses`), but not at every moment: between
  appending a result and writing the checkpoint there are exactly `save_interval` when a checkpoint is due and the
  run has finished that many (`UnsavedReachesInterval`, a run in `UnsavedExample`).
- The merge of update metadata is order-independent in URLs and checksums. In `sha512`, `sha2` and the other fields
  it is so exactly for uniform entries (`FilesIgnoreOrderIff`, two orders that differ in `OrderExample`).
- Differing checksums are not always refused, nor equal ones always merged: an empty `sha512` hides `sha2` from the
  conflict check (exact conditions in `ConflictCheckIsRightIff`, inputs in `EmptySumHidesSha2` and
  `EmptySumRefusesEqual`).
- The answer tag can survive a limit its text does not stay below: at exactly five tokens, and in prompts that
  contain the marker text and rejoin behind it (`PreambleSurvivesIff`, a prompt in `RejoinsExample`).

## Model

| member | source | states |
|---|---|---|
| LedgerInvariant.FileStepKeeps | FinSagent/data_pipeline/private_fund_directory_ingest.py:2832-3074 | One file, whatever the copy, classifier, parser or database answers, keeps the row invariant: distinct ids, at most one current row per document, current iff active iff not deleted, no pending row, versions linked one by one |
| LedgerInvariant.SweepKeeps | FinSagent/data_pipeline/private_fund_directory_ingest.py:2547-2588 | Tombstoning missing files keeps the same invariant |
| LedgerInvariant.VersionsAreExactly | FinSagent/data_pipeline/private_fund_directory_ingest.py:1047-1056 | The versions of a document are exactly 1..n: a number is taken iff it is in the range, and the next one handed out is n+1 |
| LedgerInvariant.FileStepGrows | FinSagent/data_pipeline/private_fund_directory_ingest.py:2909-3074 | A file step is append-only: no existing row changes version, checksum, supersedes link, status or payload, and new chunks and pages belong to fresh documents |
| LedgerInvariant.RegisteredIsFresh | FinSagent/data_pipeline/private_fund_directory_ingest.py:930-1010 | In an honest ledger the id of a new attempt is unused and its version number is above every number the document has used, so registration cannot be refused |
| LedgerInvariant.ActivationKeeps | FinSagent/data_pipeline/private_fund_directory_ingest.py:1089-1115 | Retiring the document's live rows and activating a new attempt keeps the row invariant, for any status a step of today may give |
| LedgerColumns.AddedRowTells | FinSagent/data_pipeline/private_fund_directory_ingest.py:930-1010 | Every row a file step adds names the dataset, path, root, file name, kind, classification and content of its file and comes from a directory; its version is one above all others of the document and it names the row below |
| LedgerColumns.ReuseTells | FinSagent/data_pipeline/private_fund_directory_ingest.py:2856-2906 | A reused row learns the root and path of the run and takes a fresh verdict only when its classifier is outdated; nothing else in the store changes |
| LedgerColumns.SettledTells | FinSagent/data_pipeline/private_fund_directory_ingest.py:2850-2880 | What makes a row reusable, in its own columns and the raw directory |
| LedgerColumns.GoodAttemptTells | FinSagent/data_pipeline/private_fund_directory_ingest.py:2933-2995 | After a good attempt the new row is current, with the status the classifier and the parser decide and the count of the chunks stored |
| LedgerColumns.GoodAttemptReplaces | FinSagent/data_pipeline/private_fund_directory_ingest.py:1089-1115 | The row that was current before is superseded and every other row stays |
| LedgerColumns.GoodPayloadTells | FinSagent/data_pipeline/private_fund_directory_ingest.py:1178-1283 | A good attempt stores just the parser's chunks, chained, and its pages, numbered from one, and nothing after a company conflict |
| LedgerColumns.FailedAttemptTells | FinSagent/data_pipeline/private_fund_directory_ingest.py:2999-3050 | A failed attempt leaves a bare failed row, current only when the document had no current row |
| LedgerColumns.NothingAddedTells | FinSagent/data_pipeline/private_fund_directory_ingest.py:2832-3074 | Any other step changes the raw directory at most |
| LedgerColumns.CopyTells | FinSagent/data_pipeline/private_fund_directory_ingest.py:828-842 | The name a copy gets and what a good or broken copy leaves there |
| LedgerColumns.ChainIsUnique | FinSagent/data_pipeline/private_fund_directory_ingest.py:1178-1283 | Numbers, contents, ids and links of a document's chunk rows leave no choice: next of each is the id of the following and prev the id of the one before |
| LedgerColumns.SweepTells | FinSagent/data_pipeline/private_fund_directory_ingest.py:2547-2588 | The sweep changes lifecycle, flag and two stamps of the rows that vanished from this root, and nothing else |
| LedgerAccounting.FailureKeepsCurrent | FinSagent/data_pipeline/private_fund_directory_ingest.py:2909-3074 | Savepoint atomicity: an attempt that raises at any point leaves every existing row, the current one included, all chunks, pages and the registry as they were, and appends at most one row, which is a bare failed attempt |
| LedgerAccounting.FileStepAccounts | FinSagent/data_pipeline/private_fund_directory_ingest.py:1178-1283 | Chunk accounting survives every file step: chunk_count equals the stored chunk rows; failed, needs_ocr and review rows own none; no chunk or page is orphaned |
| LedgerAccounting.MigrationAccounts | FinSagent/data_pipeline/private_fund_directory_ingest.py:584-706 | The migration keeps sound accounts iff no page row belongs to a document that is not a PDF, has no chunks and has a legacy status, which the code turns into failed without looking at pages |
| LedgerAccounting.PagesExample | FinSagent/data_pipeline/private_fund_directory_ingest.py:584-706 | A sound, repairable table outside that condition: the migrated row is failed and still has a page |
| LedgerAccounting.RegistryTotals | FinSagent/data_pipeline/private_fund_directory_ingest.py:2602-2668 | The registry lists exactly the current indexed documents, and the total it gets by counting joined chunk rows is the sum of their chunk_count columns |
| LedgerAccounting.CopyOverwritesNothing | FinSagent/data_pipeline/private_fund_directory_ingest.py:828-842 | Copying a file in, even when it breaks off half way, leaves the raw copy of every registered version intact |
| LedgerAccounting.FileStepKeepsRaw | FinSagent/data_pipeline/private_fund_directory_ingest.py:2832-3074 | Raw copies of all versions stay intact over a file step |
| Migration.MigrationEstablishes | FinSagent/data_pipeline/private_fund_directory_ingest.py:584-706 | For a table with distinct ids the migration reaches the row invariant iff no group's chosen row has an empty-string deletion stamp and no deleted row is pending under a status of today (the predicate Repairable) |
| Migration.BlankExample | FinSagent/data_pipeline/private_fund_directory_ingest.py:584-706 | A table outside the condition: an undeleted row with an empty-string deletion stamp becomes current and stays stamped |
| Migration.PendingExample | FinSagent/data_pipeline/private_fund_directory_ingest.py:584-706 | A table outside the condition: a deleted row stays pending |
| Migration.MigrationIdempotent | FinSagent/data_pipeline/private_fund_directory_ingest.py:584-706 | Running the migration twice is running it once, for every table |
| Migration.MigrationIsIdentity | FinSagent/data_pipeline/private_fund_directory_ingest.py:584-706 | On every state that satisfies the invariant the migration changes nothing at all |
| Migration.RankOrders | FinSagent/data_pipeline/private_fund_directory_ingest.py:584-706 | The version numbers the migration assigns follow the sort of the group strictly |
| MigrationColumns.ContestantsStayApart | FinSagent/data_pipeline/private_fund_directory_ingest.py:584-637 | Two rows without logical id that claim one path never become one document when their short ids differ and stand out: each gets a synthetic path of its own |
| MigrationColumns.ContestantsMergeIff | FinSagent/data_pipeline/private_fund_directory_ingest.py:584-645 | Exactly: they become one document iff their synthetic paths coincide, as when short ids and file names are equal |
| MigrationColumns.UncontestedKeepPath | FinSagent/data_pipeline/private_fund_directory_ingest.py:584-645 | A row that has a logical id keeps it, one whose path nobody contests gets that path's digest, and both keep their path, normalised |
| MigrationColumns.AloneIsCurrent | FinSagent/data_pipeline/private_fund_directory_ingest.py:655-690 | An undeleted row whose identity no other row has becomes a current first version |
| MigrationColumns.VersionsFollow | FinSagent/data_pipeline/private_fund_directory_ingest.py:655-665 | One document's rows are numbered by old version, creation time and id text, in this order |
| MigrationColumns.VersionsCount | FinSagent/data_pipeline/private_fund_directory_ingest.py:668-700 | A version is one more than the number of rows of the document below it, and each row names the one before |
| MigrationColumns.CurrentIsLast | FinSagent/data_pipeline/private_fund_directory_ingest.py:664-672 | A row is current iff it is the last undeleted one of its document |
| MigrationColumns.StatusTells | FinSagent/data_pipeline/private_fund_directory_ingest.py:673-686 | The two statuses of old become indexed, needs_ocr or failed by what is stored for the document |
| MigrationColumns.LifecycleTells | FinSagent/data_pipeline/private_fund_directory_ingest.py:672-693 | Lifecycle and deletion stamp of current, replaced and earlier deleted rows |
| MigrationColumns.OthersStay | FinSagent/data_pipeline/private_fund_directory_ingest.py:584-706 | No other column and no other table changes |
| LedgerRuns.HistoryKeeps | FinSagent/data_pipeline/private_fund_directory_ingest.py:2671-3107 | Over every history of opens, file steps, sweeps, syncs and outside damage to the raw directory, the row invariant holds at every committed state, later states only extend earlier ones, and sound accounts stay sound, whatever ids the history began with |
| LedgerRuns.ReachableFromNew | FinSagent/data_pipeline/private_fund_directory_ingest.py:2671-3107 | From an empty database rows, ids and accounts are sound in every reachable state, and raw copies too unless damaged from outside |
| LedgerRuns.ReachableFromLegacy | FinSagent/data_pipeline/private_fund_directory_ingest.py:584-706 | From a legacy table the row invariant holds from the first open on, for ever, iff the table is repairable; and sound accounts then stay sound for ever iff its pages fit (the condition of MigrationAccounts) |
| LedgerRuns.ReconciliationIsExact | FinSagent/data_pipeline/private_fund_directory_ingest.py:2547-2588 | After a run over a root every current row under it was scanned; of the rows that were not scanned those current under this very root are tombstoned in the four columns named, and rows of another or unknown root, of another dataset, not from a directory or out of use stay exactly as they are |
| LedgerRuns.DeletedFileLeaves | FinSagent/data_pipeline/private_fund_directory_ingest.py:2547-2588 | A file indexed under a root and then deleted: after a later run over that root, whatever else it scans, no row of its document is current and the indexed one is marked removed |
| LedgerRuns.RunRegistryTotals | FinSagent/data_pipeline/private_fund_directory_ingest.py:3076-3107 | After a whole run the state is sound and the registry total is the sum of the searchable chunk counts |
| LedgerRuns.AddsVersionIff | FinSagent/data_pipeline/private_fund_directory_ingest.py:2856-2906 | A readable file adds a version iff its current row does not hold this content with an intact raw copy and status indexed or needs_ocr, and the attempt can leave a row behind: the bytes get copied, and a failure can be recorded (the predicate Recorded) |
| LedgerRuns.StepAddsIff | FinSagent/data_pipeline/private_fund_directory_ingest.py:2856-2906 | The same with or without a reset, which makes the step try again whatever the current row holds |
| LedgerRuns.SettledAfter | FinSagent/data_pipeline/private_fund_directory_ingest.py:2832-3074 | After any file step the document is settled iff the step copied and accepted the content without a company conflict, or did not replace a settled row |
| LedgerRuns.RerunAddsVersionIff | FinSagent/data_pipeline/private_fund_directory_ingest.py:2856-2906 | A second run over unchanged files adds a version for a readable file iff the first run did not leave that very content settled as the current version and the second attempt can leave a row behind; copies and failure records may break in both runs |
| LedgerRetries.FailedRevisionAddsForever | FinSagent/data_pipeline/private_fund_directory_ingest.py:2909-3074 | The promise that an indexed current row stops reruns is false after a failed revision: any number of further steps over the file adds as many failed attempts, keeps the current row as it is and leaves the same situation behind |
| LedgerRetries.FailedRevisionOverRuns | FinSagent/data_pipeline/private_fund_directory_ingest.py:2671-3107 | Over any sequence of whole runs that reject the revision, whatever other files they scan, the document gains exactly one version for each run that can record the failure, and its current row never changes |
| LedgerRetries.FailedRevisionExample | FinSagent/data_pipeline/private_fund_directory_ingest.py:2909-3074 | A file, at any path, that reaches that state and then gains a row at every step |
| LedgerRuns.ConflictsStayOutIff | FinSagent/data_pipeline/private_fund_directory_ingest.py:2856-2906 | A file step keeps documents of other companies out of the searchable rows, except iff it refreshes an outdated classification of a reused indexed row to a conflict |
| LedgerRuns.RefreshExample | FinSagent/data_pipeline/private_fund_directory_ingest.py:2856-2906 | A sound store and a file at which that happens |
| Ledger.Ledger.IngestFile | FinSagent/data_pipeline/private_fund_directory_ingest.py:2832-3074 | The per-file loop body on the tables in place, savepoint included, against the specification step, whose columns LedgerColumns spells out |
| Ledger.Ledger.CopyToRaw | FinSagent/data_pipeline/private_fund_directory_ingest.py:828-842 | Raw copy with its name collision rule and partial writes |
| Ledger.Ledger.Register | FinSagent/data_pipeline/private_fund_directory_ingest.py:930-1010 | Insertion, refused exactly on a duplicate id or a duplicate version; ids and versions stay distinct |
| Ledger.Ledger.WriteChunks | FinSagent/data_pipeline/private_fund_directory_ingest.py:1178-1283 | The chunk rows appended are numbered from one, hold the given contents and link each way between neighbours (IsChain); the count is stored |
| Ledger.Ledger.Activate | FinSagent/data_pipeline/private_fund_directory_ingest.py:1089-1115 | Afterwards no other row of the document is live and rows of other documents are untouched; when the row is the one just registered it becomes the current one, and the row invariant, broken while it was pending, holds again |
| Ledger.Ledger.TryVersion | FinSagent/data_pipeline/private_fund_directory_ingest.py:2933-2995 | One attempt up to its success or the exception |
| Ledger.Ledger.TryInSavepoint | FinSagent/data_pipeline/private_fund_directory_ingest.py:2909-3050 | The attempt and its rollback: either the version with its whole payload, or exactly one bare failure and no payload, or nothing |
| Ledger.Ledger.RecordFailure | FinSagent/data_pipeline/private_fund_directory_ingest.py:2999-3050 | What is recorded after the rollback |
| Ledger.Ledger.MarkRemoved | FinSagent/data_pipeline/private_fund_directory_ingest.py:2547-2588 | The sweep in place, returning exactly the ids of the current directory rows under this root whose document was not seen |
| Ledger.Ledger.SyncRegistry | FinSagent/data_pipeline/private_fund_directory_ingest.py:2602-2668 | Afterwards the registry lists exactly the searchable documents; with sound accounts its total, counted by joining chunk rows, is the sum of their chunk_count columns, and it is ready iff that sum is positive |
| Ledger.Ledger.Migrate | FinSagent/data_pipeline/private_fund_directory_ingest.py:584-706 | The grouping, sorting and relabelling loop against the rank-based specification, whose columns MigrationColumns spells out |
| Ledger.Ledger.IngestDirectory | FinSagent/data_pipeline/private_fund_directory_ingest.py:2671-3107 | The whole run: migration, every file, sweep, sync |
| Ledger.BuildChunks | FinSagent/data_pipeline/private_fund_directory_ingest.py:1178-1283 | The rows built are numbered from one, hold the given contents under distinct ids, and link each way between neighbours, the ends having no link outwards |
| Ledger.PositionIsRank | FinSagent/data_pipeline/private_fund_directory_ingest.py:584-706 | The place of a row in the code's insertion-sorted group is its rank in the specification |
| Ledger.LastIsChosen | FinSagent/data_pipeline/private_fund_directory_ingest.py:584-706 | The last undeleted row of the sorted group is the one the specification makes current |
| Paths.NormalizeIsCanonical | FinSagent/data_pipeline/private_fund_directory_ingest.py:573-576 | A normalised path has no backslash, no doubled and no outer slash |
| Paths.NormalizeFixes | FinSagent/data_pipeline/private_fund_directory_ingest.py:573-576 | Canonical paths are left alone, so normalising twice changes nothing |
| Paths.BackslashIsSlash | FinSagent/data_pipeline/private_fund_directory_ingest.py:573-576 | A backslash counts as a slash |
| Paths.DoubleSlashIsOne | FinSagent/data_pipeline/private_fund_directory_ingest.py:573-576 | Two slashes in a row count as one |
| Paths.OuterEdgesGo | FinSagent/data_pipeline/private_fund_directory_ingest.py:573-576 | A slash or blank at either end does not count; with the rows above and the empty path this determines the normal form of every path |
| Packing.HardSplit | FinSagent/data_pipeline/private_fund_format_adapters.py:575-588 | The splitting loop against its recursive specification |
| Packing.PartsAreBounded | FinSagent/data_pipeline/private_fund_format_adapters.py:575-588 | Splitting terminates with trimmed non-empty parts within the limit, loses white space only, and splits iff the text is too long |
| Packing.CutPrefersBreaks | FinSagent/data_pipeline/private_fund_format_adapters.py:575-588 | The cut falls at the last break of the window if one lies in its second half, and only otherwise in a word |
| Packing.PackNumberedItems | FinSagent/data_pipeline/private_fund_format_adapters.py:591-644 | The packing loop: pieces are runs of whole items or consecutive parts of one long item, in order and without gap, each run closed only when the next item does not fit |
| Packing.PackingIsUnique | FinSagent/data_pipeline/private_fund_format_adapters.py:591-644 | Those conditions admit exactly one list of pieces |
| Packing.BoundHoldsIff | FinSagent/data_pipeline/private_fund_format_adapters.py:591-644 | Every piece, prefix included, is within max_chars for all inputs iff max_chars is at least 32, half of what the callers validate |
| Packing.PackingKeepsEveryCharacter | FinSagent/data_pipeline/private_fund_format_adapters.py:591-644 | Dropping prefixes and white space gives back the non-white characters of the caller's items in order |
| Packing.PackingRangesFollow | FinSagent/data_pipeline/private_fund_format_adapters.py:591-644 | For increasing item numbers ranges are well-formed and follow one another; equal numbers occur only on successive parts of one item |
| PackingTight.FittingItemIsWhole | FinSagent/data_pipeline/private_fund_format_adapters.py:591-644 | For max_chars of at least 32 an item that fits behind the prefix and its newline lies whole in one piece, in lines of its own |
| PackingTight.NeighboursAreFull | FinSagent/data_pipeline/private_fund_format_adapters.py:591-644 | Two neighbouring pieces of whole items could not be joined: the first with a newline and the first item of the second is longer than max_chars |
| PackingTight.HeadLeads | FinSagent/data_pipeline/private_fund_format_adapters.py:603-607 | Every piece has the stripped prefix and a newline in front, unless its length plus 32 reaches max_chars, when none has |
| Text.StripTells | FinSagent/data_pipeline/private_fund_format_adapters.py:575-600 | Stripping takes white space off both ends, all of it and nothing else |
| TablePacking.PackTableRows | FinSagent/data_pipeline/private_fund_format_adapters.py:729-741 | Rendered rows packed behind the header; without rows the header is the only item |
| TablePacking.PieceIsTable | FinSagent/data_pipeline/private_fund_format_adapters.py:719-741 | Print, pack, read back: every piece either has exactly the header lines (when they fit) and its rows as lines, each of which reads back as its cells, and names its first and last row; or it is one part of one row that is too long for a piece, on one line behind the same header lines, and the row's parts stand in a row among the pieces, trimmed and bounded, with every non-white character of the row |
| TablePacking.SeparatorTells | FinSagent/data_pipeline/private_fund_format_adapters.py:723-726 | The line below the header reads back as one cell of dashes for each header |
| TableRows.RowSplitsIntoCells | FinSagent/data_pipeline/private_fund_format_adapters.py:715-720 | Splitting a rendered row at pipes without a backslash before them gives exactly its escaped cells (GFM specification, section 4.10) |
| TableRows.RowRoundTrip | FinSagent/data_pipeline/private_fund_format_adapters.py:715-720 | Render then parse returns the display text of every cell, for every row of one or more cells; a row of none prints as one empty cell |
| TableRows.CellReadsBack | FinSagent/data_pipeline/private_fund_format_adapters.py:715-716 | Trimming and unescaping a printed cell gives its display text |
| TableRows.RowIsOneLine | FinSagent/data_pipeline/private_fund_format_adapters.py:715-720 | No cell text breaks the line |
| TableRows.BreaksTell | FinSagent/data_pipeline/private_fund_format_adapters.py:715-716 | A newline in a value shows as <br>, a carriage return as a blank |
| TableRows.DisplayTells | FinSagent/data_pipeline/private_fund_format_adapters.py:715-716 | A value without line breaks shows as it is, stripped |
| Markdown.MarkdownSections | FinSagent/data_pipeline/private_fund_format_adapters.py:647-690 | The sectioning loop: sections cut the lines exactly at the headings outside fences, and each path is the outline in force there, skipped levels being untitled |
| Markdown.SectioningIsLossless | FinSagent/data_pipeline/private_fund_format_adapters.py:647-690 | Concatenating the sections gives every line with its number, in order |
| Markdown.SectioningIsUnique | FinSagent/data_pipeline/private_fund_format_adapters.py:647-690 | The lines admit exactly one such sectioning |
| Markdown.SectionsStartAtHeadings | FinSagent/data_pipeline/private_fund_format_adapters.py:647-690 | No section is empty; each but a preamble starts at a heading of level k and has a path of length k+1 |
| Markdown.BoundariesAreOutsideFences | FinSagent/data_pipeline/private_fund_format_adapters.py:647-690 | No section of a sectioning begins inside an open fence, and only a preamble may begin with a fence line |
| MarkdownRules.FenceTells | FinSagent/data_pipeline/private_fund_format_adapters.py:665-676 | A line is a fence of n marks iff only white space stands before a run of just n backticks or tildes, n at least three |
| MarkdownRules.OpenUntilClosed | FinSagent/data_pipeline/private_fund_format_adapters.py:665-676 | A fence is open after n lines iff it was opened outside any other and no line since is a run of its own mark at least as long |
| MarkdownRules.HeadingTells | FinSagent/data_pipeline/private_fund_format_adapters.py:678-683 | A line is a heading iff behind white space stand one to six hashes, a blank or tab, and at least one more character |
| MarkdownRules.HeadingTextTells | FinSagent/data_pipeline/private_fund_format_adapters.py:678-684 | Its level and its text: from the first character behind the blanks to the first place that leaves only a closing sequence |
| MarkdownRules.HeadingBegins | FinSagent/data_pipeline/private_fund_format_adapters.py:647-690 | Every heading outside fences begins a section |
| MarkdownRules.LabelTells | FinSagent/data_pipeline/private_fund_format_adapters.py:684-689 | An entry of a path is the heading in force at its level, or untitled when there is none |
| MarkdownPacking.AdaptMarkdown | FinSagent/data_pipeline/private_fund_format_adapters.py:147-189 | Sections of a file packed one by one, refused exactly for a limit below 64 |
| MarkdownPacking.FileIsFaithful | FinSagent/data_pipeline/private_fund_format_adapters.py:147-189 | The chunks of a file hold every non-white character of its lines once and in order, none exceeds max_chars, and their line ranges lie in the file and rise, two sharing a line only as successive parts of it |
| MarkdownPacking.ChunkTells | FinSagent/data_pipeline/private_fund_format_adapters.py:147-189 | Every chunk carries the heading path of a section and a line range within it |
| Regions.GroupSorted | FinSagent/data_pipeline/private_fund_directory_ingest.py:1913-1926 | The interval loop: disjoint groups wider apart than the gap, dense inside, covering exactly the values |
| Regions.DetectRegions | FinSagent/data_pipeline/private_fund_directory_ingest.py:1929-1944 | Two-level grouping: tight, pairwise disjoint boxes, every cell inside one of them, each box holding just the cells of one maximal run of columns within one maximal run of rows |
| RegionLinks.SameRegionIff | FinSagent/data_pipeline/private_fund_directory_ingest.py:1913-1944 | Two cells share a region iff steps of at most two rows link their rows within the sheet, and steps of at most two columns link their columns within those rows |
| Regions.CountsAddUp | FinSagent/data_pipeline/private_fund_directory_ingest.py:2210-2247 | For any kind of cell the per-region counts sum to the sheet's count |
| RagReload.EveryRunKeeps | FinSagent/deploy/app.py:194-340 | In every interleaving the counter is the number of requests between increment and decrement, and a raised flag implies a held reload lock |
| RagReload.ReloadsExclude | FinSagent/deploy/app.py:230-273 | At most one thread is inside a reload |
| RagReload.RunAccounts | FinSagent/deploy/app.py:322-340 | Over every run increments less decrements is the counter, and raises less lowers is the flag |
| RagReload.ServiceIsLast | FinSagent/deploy/app.py:230-273 | After any run the service is the one installed last |
| RagReload.ServiceStays | FinSagent/deploy/app.py:230-273 | Without any installation it is the first one |
| RagReload.WindowDrains | FinSagent/deploy/app.py:194-273 | While the flag is up nothing is admitted: only a request already past the check is still counted, and activity plus departures is conserved |
| RagReload.AfterSeeingZero | FinSagent/deploy/app.py:194-340 | After a successful wait at most one request becomes active before the flag is lowered, and none unless one was past the check |
| RagReload.OverlapIffPending | FinSagent/deploy/app.py:194-340 | After a successful wait some continuation replaces the service under a running request iff a request stood between check and increment when the zero was read |
| RagReload.InstallUnderRequest | FinSagent/deploy/app.py:244-273 | A service replaced under running requests means a wait cut short, or exactly one request that slipped in |
| RagReload.RaceExample | FinSagent/deploy/app.py:322-340 | A run in which that happens |
| RagReload.Server.Check | FinSagent/deploy/app.py:322-333 | The middleware up to the increment, as one atomic step |
| RagReload.Server.Increment | FinSagent/deploy/app.py:333-334 | The increment of an admitted request is the entering step: counter and tracked requests move together |
| RagReload.Server.Decrement | FinSagent/deploy/app.py:339-340 | The decrement on the way out is the leaving step |
| RagReload.Server.Acquire | FinSagent/deploy/app.py:244-244 | Entering the lock is the locking step, possible only while no thread holds it |
| RagReload.Server.Raise | FinSagent/deploy/app.py:244-245 | Raising the flag under the reload lock is the raising step |
| RagReload.Server.Replace | FinSagent/deploy/app.py:256-262 | Installing the service that was built, or none after a failed build, is the installing step |
| RagReload.Server.Lower | FinSagent/deploy/app.py:271-272 | Lowering the flag is the lowering step |
| RagReload.Server.Release | FinSagent/deploy/app.py:273-273 | Leaving the lock is the unlocking step |
| RagReload.Server.Poll | FinSagent/deploy/app.py:194-201 | One poll: true iff no request is tracked |
| RagReload.Server.TimeOut | FinSagent/deploy/app.py:202-209 | The end of the wait without a zero is the giving-up step |
| RateLimiter.Limiter.Acquire | FinSagent/data_pipeline/process_table.py:39-53 | One acquire: the grant comes at once if fewer than n grants lie in the last minute, else a minute and a tenth after the n-th last; a limit below one always fails |
| RateLimiter.EveryMinuteIsLimited | FinSagent/data_pipeline/process_table.py:32-53 | Over every sequence of calls grant j comes 60 s after grant j-n, and no minute, wherever it begins, holds more than n grants |
| RateLimiter.WindowHoldsAtMost | FinSagent/data_pipeline/process_table.py:32-53 | Spacing implies the sliding-window bound |
| RateLimiter.OpenIffWindowHasRoom | FinSagent/data_pipeline/process_table.py:46-51 | A request is delayed iff the window that ends now is full |
| RateLimiter.GrantTells | FinSagent/data_pipeline/process_table.py:39-53 | The time of the next grant, in seconds: now if fewer than n grants lie in the last 60, else 60.1 after the n-th last |
| RateLimiter.PruningTracks | FinSagent/data_pipeline/process_table.py:42-46 | The pruned list never exceeds n entries although expired entries stay in it after a sleep, and it is shorter than n iff the window has room |
| Checkpoint.Job.Reconstruct | FinSagent/data_pipeline/process_table.py:440-520 | One run, crashed or finished: the file it leaves and when it returns |
| Checkpoint.Job.Collect | FinSagent/data_pipeline/process_table.py:492-509 | The completion loop with its checkpoints; a zero interval divides by zero at the first result |
| Checkpoint.RunKeeps | FinSagent/data_pipeline/process_table.py:455-520 | A run leaves a file sorted with distinct tables of the input, in which every earlier chunk stands unchanged |
| Checkpoint.CrashLoses | FinSagent/data_pipeline/process_table.py:492-509 | A crash loses exactly the list length modulo the interval, or all results when no multiple was reached: always fewer than the interval |
| Checkpoint.CrashLeaves | FinSagent/data_pipeline/process_table.py:492-509 | Which results a crashed run leaves: those completed up to the last point at which the list's length was a multiple of the interval, with all chunks of before |
| Checkpoint.UnsavedReachesInterval | FinSagent/data_pipeline/process_table.py:492-509 | Between appending a result and writing the checkpoint at most an interval of results is unsaved, and exactly an interval iff the list's length is due and the run has finished at least that many |
| Checkpoint.UnsavedExample | FinSagent/data_pipeline/process_table.py:492-509 | A run of two tables with interval two in which two results are unsaved |
| Checkpoint.FinishingRunCompletes | FinSagent/data_pipeline/process_table.py:455-520 | A finishing run whose tasks all succeed leaves exactly one entry per table, in order |
| Checkpoint.OrderDoesNotMatter | FinSagent/data_pipeline/process_table.py:492-520 | The completion order does not change the file of a finishing run |
| Checkpoint.RunsKeep | FinSagent/data_pipeline/process_table.py:455-520 | Over every sequence of runs the file stays sorted and distinct and only grows |
| Checkpoint.RunsConverge | FinSagent/data_pipeline/process_table.py:455-520 | Whatever runs came before, one finishing run without failures completes the file, keeps all saved chunks, and later runs change nothing |
| UpdateMetadata.MetadataFiles | cc-haha/scripts/release-update-metadata.ts:133-153 | Succeeds iff every file of the entry has a URL and a checksum; an error names a real fault |
| UpdateMetadata.MergeEntries | cc-haha/scripts/release-update-metadata.ts:196-242 | Succeeds iff the entries are valid, of one version and free of conflicts; the result lists every URL once in order, each with its last file; an error names a real fault |
| UpdateMetadata.MergeLosesNothing | cc-haha/scripts/release-update-metadata.ts:196-242 | Every input artifact is listed exactly once with its checksum, and the primary is the least by architecture, kind and name |
| MergePromises.PrimaryIsPreferred | cc-haha/scripts/release-update-metadata.ts:155-186 | The primary file is of the preferred architecture among all artifacts, and of the preferred kind within it |
| MergePromises.FilesStandInOrder | cc-haha/scripts/release-update-metadata.ts:155-186 | The files stand by architecture (x64, arm64, ia32, rest), within it by kind, and then by collation |
| MergePromises.FilesTell | cc-haha/scripts/release-update-metadata.ts:133-140 | The files of an entry: its list, or else the one at its path, or none |
| MergePromises.ValidTells | cc-haha/scripts/release-update-metadata.ts:141-153 | A file is valid iff it has a URL and at least one sum |
| UpdateMetadata.MergeIgnoresOrder | cc-haha/scripts/release-update-metadata.ts:196-242 | The same entries in any order and with repetitions are mergeable or not alike, and merge to the same (url, checksum) list, primary and latest date |
| UpdateMetadata.LatestIsMaximum | cc-haha/scripts/release-update-metadata.ts:188-194 | The release date is the maximum of the dates present |
| UpdateMetadata.LastEntryWins | cc-haha/scripts/release-update-metadata.ts:215-218 | The remaining fields of an artifact come from the entry merged last |
| UpdateMetadata.FilesAgreeIff | cc-haha/scripts/release-update-metadata.ts:215-242 | Two merges, of the same entries in two orders or of any others, list the same files in every field iff each URL has the same last file in both; equal checksums are not enough |
| MergePromises.FilesIgnoreOrderIff | cc-haha/scripts/release-update-metadata.ts:196-242 | The files of the merge are the same in every field for every order of the entries iff any two entries that hold a URL hold the same file for it |
| MergePromises.SwapMatters | cc-haha/scripts/release-update-metadata.ts:215-218 | Of two entries that differ at a URL, whichever is merged last supplies the file |
| MergePromises.OrderExample | cc-haha/scripts/release-update-metadata.ts:196-242 | One artifact with one sha512, and a sha2 in only one of two entries: the two orders give different files |
| MergePromises.ConflictCheckIsRightIff | cc-haha/scripts/release-update-metadata.ts:210-222 | Against the sum a reader would check (sha512 unless empty, else sha2): merged entries agree in it iff no two files of a URL differ in sha2 behind an empty sha512; entries that agree in it are merged iff no URL has one file with an empty sha512 and one without; these two cases are the only wrong verdicts |
| MergePromises.ComparesRightIff | cc-haha/scripts/release-update-metadata.ts:215-218 | The comparison of two files is right in exactly three cases: neither sha512 is empty, both are and the sha2 are equal, or one is and the real sums differ |
| MergePromises.EmptySumHidesSha2 | cc-haha/scripts/release-update-metadata.ts:196-242 | Two different sha2 sums of one artifact behind empty sha512 are merged |
| MergePromises.EmptySumRefusesEqual | cc-haha/scripts/release-update-metadata.ts:196-242 | One sha2 sum, once behind an empty sha512 and once alone, is refused |
| Orders.SortOrders | cc-haha/scripts/release-update-metadata.ts:178-186 | Insertion sorting puts pairwise comparable elements into strict order |
| Dedup.Deduplicate | FinSagent/data_pipeline/load_data.py:96-145 | The nested loop over files and entries against the specification |
| Dedup.ReadIsAdmitted | FinSagent/data_pipeline/load_data.py:96-123 | Every chunk read is that of an entry which its file's page range admits |
| Dedup.AdmittedIsRead | FinSagent/data_pipeline/load_data.py:96-123 | Every such entry is read |
| Dedup.KeysInOrder | FinSagent/data_pipeline/load_data.py:125-137 | Hashes stand in the order in which they are first seen |
| Dedup.BestIsNewest | FinSagent/data_pipeline/load_data.py:125-137 | The chunk kept for a hash has the greatest date, and is the first read among equals |
| Dedup.DedupKeepsNewest | FinSagent/data_pipeline/load_data.py:96-145 | One chunk for every hash read, distinct hashes and distinct global ids, each the newest of its hash |
| Dedup.LinkNeighbours | FinSagent/data_pipeline/load_data.py:152-163 | Links written in place into the list |
| Dedup.LinksAreInverse | FinSagent/data_pipeline/load_data.py:152-163 | next and prev are mutually inverse and join exactly neighbours of one file |
| Dedup.WalksAdvance | FinSagent/data_pipeline/load_data.py:152-163 | Walks along links stay in one file and never return: disjoint acyclic paths |
| Dedup.ImportIsIdentified | FinSagent/data_pipeline/load_data.py:96-150 | Every import with non-empty digests satisfies what the link lemmas need |
| Dedup.ImportChunks | FinSagent/data_pipeline/load_data.py:96-163 | Both passes: what is written is the deduplicated list with its links |
| Balance.BalanceGroup | FinSagent/lightgbm/filter_query_balance.py:46-75 | All positives and exactly min(max(ratio*p, min_neg), n) negatives, or nothing without positives; of the negatives the first of the ranking, as many as the fraction of the quota rounded down, and a sample of the others |
| Balance.BalanceDataset | FinSagent/lightgbm/filter_query_balance.py:78-110 | Fails iff a label is neither 0, 1 nor missing; else every group is balanced and the rows are in index order |
| Balance.BalancedTells | FinSagent/lightgbm/filter_query_balance.py:46-110 | In terms of labels 0, 1 and missing: what is kept of every query and how many, unlabelled rows never |
| Balance.HardTells | FinSagent/lightgbm/filter_query_balance.py:58-61 | The number of hard negatives: none for a fraction of zero or less, all from one on, else the share rounded down |
| Balance.GroupsVanishIff | FinSagent/lightgbm/filter_query_balance.py:54-55 | A group is present in the result iff it has a positive |
| Balance.BalancingIsIdempotent | FinSagent/lightgbm/filter_query_balance.py:78-110 | Balancing the result again, with any ranking and sample, returns the same rows |
| Prompt.BudgetIsMet | FinSagent/data_pipeline/gt_gen_key_points.py:76-97 | For every prompt and every limit of at least one the estimate of the result is within the limit |
| Prompt.UnchangedIff | FinSagent/data_pipeline/gt_gen_key_points.py:76-97 | A prompt is returned unchanged iff there is no limit or it fits; applying a limit twice changes nothing more |
| Prompt.WholeIsCut | FinSagent/data_pipeline/gt_gen_key_points.py:76-97 | A prompt over the limit without an answer tag, or whose text through the tag takes the limit, is cut as a whole to four characters a token |
| Prompt.OnlyAnswerIsCut | FinSagent/data_pipeline/gt_gen_key_points.py:84-97 | Otherwise only the answer is cut, to what the text through the tag leaves |
| Prompt.CutTells | FinSagent/data_pipeline/gt_gen_key_points.py:47-58 | A cut gives the text if it fits, its beginning if there is no room for the marker, else a front, the marker and an end |
| Prompt.PreambleSurvives | FinSagent/data_pipeline/gt_gen_key_points.py:84-97 | Everything through the answer tag survives when its own estimate is below the limit |
| Prompt.PreambleSurvivesIff | FinSagent/data_pipeline/gt_gen_key_points.py:84-97 | For every prompt over the limit the text through the tag survives iff its own estimate is below the limit, or both are five tokens, where the cut is too short for a marker, or the prompt has the marker text where the cut sets it and repeats its kept end behind it (the predicate Rejoins, never true without the marker text) |
| Prompt.RejoinsExample | FinSagent/data_pipeline/gt_gen_key_points.py:84-97 | A prompt of that kind whose eighty characters through the tag survive at twenty tokens |
| Prompt.MiddleIsCut | FinSagent/data_pipeline/gt_gen_key_points.py:47-58 | A cut keeps seven tenths from the front and the non-empty rest from the end around the marker, without overlap, in exactly the length allowed |

## Left out

Ledger:

- Concurrent modification of files during a step, several ingesting processes, SQLite internals; database errors are
  the `Fault` values of a file.
- The taxonomy migration, job rows, per-file reports, parser names, locations, and the Excel and page tables beyond
  page ownership; an empty `doc_id` column.
- Collisions of shortened digests: the 8-character raw suffix, and legacy ids cut to 12 characters, by which the code
  would merge two ambiguous legacy rows of one file name.
- Unicode NFKC inside path normalisation (the part modelled is the slash handling), symbolic links in the source root
  (compared as stored text), file discovery and ignore rules.
- A clock per statement: one `now` per step. The order of ids inside the registry row.
- LastIsChosen, PositionIsRank: state the loop of one group; the grouping itself is proved inside `Migrate`.

Documents to chunks:

- PDF, OOXML, CSV and Excel parsing, region types and labels, document summaries, `_make_chunk` (a record constructor
  that strips and copies fields), `_pad_row`.
- AdaptMarkdown: gives the chunks of the sections; the summary chunk before them and display metadata are left out.
- MarkdownSections: lines carry no newline character, as `splitlines` yields them.

Other cores:

- RagReload: streamed response bodies after `call_next`, the initial build at start-up and the polling interval are
  not modelled; the time-out may strike at any poll.
- Acquire: times are exact reals, so floating-point rounding of the clock is not captured; the lock makes each call
  one step.
- Reconstruct: file writes are atomic, and the image, summary and key handling of a task is its arbitrary result; a
  missing input file returns before the part modelled.
- FinishingRunCompletes: requires a non-zero interval, because a zero interval raises at the first result.
- MergeEntries: `localeCompare` is an injective key, and `toLowerCase` is modelled for ASCII letters; the YAML
  reading, channel grouping and writing around the merge are not part of this model.
- Deduplicate: the hash is an arbitrary function, and date extraction, meta-chunk detection, title summaries, bundle
  ids and the vector store are left out; a file without entries raises before the part modelled.
- BalanceDataset: missing columns cannot occur in the typed model, `hard_neg_fraction` is a real number, and ratio and
  minimum are non-negative as the command line uses them.
- BudgetIsMet: holds for the estimate without a tokenizer; with `tiktoken` installed the code takes other branches.
- LLM calls, HTTP routes, model training, document builders, desktop and terminal user interfaces: input, output or
  presentation only.
