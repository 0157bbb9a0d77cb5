# Proofs about the Peakwork daemon

The daemon fetches company quotes from IEX in a background thread, stores them in an SQLite
database with a schema version, serves them over gRPC, keeps its settings in a JSON file, and
is supervised by a parent process. This project models the parts that carry logic of their own
and proves what they guarantee, over every input, every run or every interleaving.

| file | what it models |
|---|---|
| `Sql.dfy` | three tables, their id counters, and what each SQL statement issued does to them |
| `Companies.dfy` | ids, uuids and lookups over whole runs of statements |
| `Tables.dfy` | the connection with its recursive mutex, and the table classes |
| `TableLocks.dfy` | any number of threads running table operations step by step under one mutex |
| `Startup.dfy` | create, compare the stored version, upgrade or recreate |
| `Ingest.dfy` | the price loop against a reference: a book of profiles and a journal of quotes |
| `Controller.dfy` | worker and stopper: flag, mutex, condition variable, join, and the store over whole runs |
| `Passes.dfy` | what the worker gets done: whole passes, in order, for as long as it is not stopped |
| `HttpHeaders.dfy`, `Upload.dfy` | libcurl callbacks: header parsing and body streaming |
| `Folders.dfy`, `Digest.dfy` | recursive folder creation, chunked digests in hexadecimal |
| `Supervisor.dfy` | fork, wait for a signal, reap, restart |
| `PropertyTree.dfy`, `Config.dfy`, `ConfigInit.dfy` | the configuration tree, its key table, and initialisation |

Reading guide. A C++ exception is an `Err`. A choice the code leaves to the outside (how many
ids an ignored insert uses up, which matching row a query returns, when a wait times out, what
a fetch returns, whether `mkdir` fails) is an argument or an arbitrary value, and every theorem
holds for all of them. The main results are `Controller.NoLostWakeup`, `Controller.StopTerminates`
and `Controller.StoreOverWholeRuns`, with `Passes.AskedInOrder` and `Passes.ServiceGoesOn` for what
the worker must do; `TableLocks.Serialisable`; `Ingest.TurnMergesExactly`;
`Startup.CrashIsHarmlessExactly` with `Startup.CrashesAreHarmless`; `Companies.IdsAreForever`; `HttpHeaders.RoundTripExactly`;
`Upload.UploadCompletesExactly`; `Folders.FileTree.CreateFolder`; and
`ConfigInit.InitIsIdempotentExactly`.

Five places where the code does not do what one would expect are kept as they are, and the
theorems say exactly when it matters:

- `GetRowID` pastes the uuid between double quotes. SQLite reads a quoted word as a column name
  if it is one, and reads a query only up to its first NUL. For a uuid that stays inside its
  quotes, `Companies.RowIdIsRightExactlyForPlainText` gives the exact condition for one lookup
  and `Ingest.TurnMergesExactly` for a whole turn of the price loop. Once the text closes the
  quote itself nothing is guaranteed, and the model lets the lookup answer anything.
- The version update lacks a space before `SET`, so as written it throws and everything is
  recreated (`Daemon/db/table_db_version.cpp:47`). The `Startup` theorems cover both the text as
  written and a corrected one.
- The version table is dropped first and stamped first, so start-up is not crash-safe.
  `Startup.CrashIsHarmlessExactly` ranges over every crash point and says which databases come
  through; `Startup.CrashLeavesStaleRows` and `Startup.CrashLosesIntegrity` show what happens to
  the others, the latter for the crash between the drops of companies and prices.
- `GetIEXUpdateSymbols` reads the time-out's key (`Daemon/config/config_daemon.cpp:93`), so it
  always answers the built-in symbols: `ConfigInit.SymbolsAreAlwaysTheDefaults` during
  initialisation, `ConfigInit.WorkerGetsTheDefaults` for the worker afterwards.
- The array write looks for one child literally called `iex_api.update_symbols`
  (`Daemon/config/config.h:177`), so each start appends another list: `ConfigInit.SymbolListsPileUp`,
  with the exact condition in `ConfigInit.InitIsIdempotentExactly`.

Against section 3.2 of RFC 7230 the header parser differs in three ways, and the model follows
the parser: a horizontal tab is not trimmed, names are compared with their case, and only the
first of several headers with one name is kept.

## Model

| member | source | states |
|---|---|---|
| Controller.NoLostWakeup | Daemon/src/controller.cpp:33-42 | in every interleaving of Start, Stop and the worker, with or without time-outs, a worker still waiting after Stop's notify has been notified; the two threads are never in the mutex together |
| Controller.RunKeepsProtocol | Daemon/src/controller.cpp:62-75 | from any state satisfying it, every run keeps the invariant on mutex, flag, program counters and wait |
| Controller.StepKeepsProtocol | Daemon/src/controller.cpp:72-73 | each single step keeps that invariant; holding the mutex across the predicate check and the sleep is what carries it |
| Controller.NoDeadlock | Daemon/src/controller.cpp:35-40 | once the flag is set some step is possible until the join has completed or the worker has crashed, even if no time-out ever fires |
| Controller.StopStepGetsSmaller | Daemon/src/controller.cpp:62-75 | once the flag is set every step of either thread lowers a lexicographic measure (stopper, phase, fetches left, price steps left) |
| Controller.StopTerminates | Daemon/src/controller.cpp:33-42 | under no schedule, however unfair, can steps go on for ever after the flag is set |
| Controller.NoInfiniteDescent | Daemon/src/controller.cpp:33-42 | an endless run of such steps is contradictory |
| Controller.AtMostTheRestOfOnePass | Daemon/src/controller.cpp:62-71 | after the flag is set the worker fetches at most the symbols left in the pass it is in |
| Controller.StoreIsStillAfterExit | Daemon/src/controller.cpp:40 | once the worker has left, so after every join, no run without a new Start changes the store |
| Controller.StepKeepsStore | Daemon/src/controller.cpp:64-70 | every step of either thread keeps the store equal to the merge of what was fetched, up to the price in hand |
| Controller.StoreOverWholeRuns | Daemon/src/controller.cpp:55-75 | at every moment of every run, restarts included: price rows name live companies while no fetched symbol closes its quote; and with plain symbols (no quote, no NUL, no column name) the worker never crashes and the store is the fetched infos merged in order |
| Passes.NeverQuitsUnasked | Daemon/src/controller.cpp:59-62 | at every moment of every run a worker that has left with the flag unset had no symbols configured |
| Passes.NoSymbolsNoWork | Daemon/src/controller.cpp:58-61 | with no symbols the worker leaves at once, asks for nothing and writes nothing |
| Passes.AskedInOrder | Daemon/src/controller.cpp:62-64 | over every run, restarts included, the symbols asked for are those of the completed passes, each whole and in order, and the part of the pass under way; each brought one info |
| Passes.OnePassAsksForAll | Daemon/src/controller.cpp:62-72 | every run from a loop head to the end of the next pass fetches exactly the configured symbols in order |
| Passes.PassHappens | Daemon/src/controller.cpp:62-71 | from any unstopped loop head, whatever plain infos the fetches bring, the worker by its own steps can end the pass with every symbol asked for and every info merged |
| Passes.ServiceGoesOn | Daemon/src/controller.cpp:62-74 | unstopped and with time-outs, it can go on for any number of such passes |
| Passes.WaitTimesOut | Daemon/src/controller.cpp:72-73 | an unstopped wait that times out leads back to the loop head with the mutex free |
| Passes.LeavesTheWaitForAPass | Daemon/src/controller.cpp:62-64 | an unflagged worker leaving the wait can do nothing but begin another pass |
| Passes.ThrowEndsTheRun | Daemon/src/controller.cpp:67 | a lookup that throws is the last thing that happens: the exception leaves the thread |
| Ingest.AddMergesProfile | Daemon/db/table_companies.cpp:37-51 | adding a company keeps prices integral and adds the profile only if the symbol is new, whatever ids it uses up |
| Ingest.AddAppendsToJournal | Daemon/db/table_prices.cpp:36-49 | a price is refused exactly when enforced under a missing id; otherwise it joins to its id's symbol at the end, and integrity is kept if and only if the id is live |
| Ingest.LookupFindsLiveRow | Daemon/src/controller.cpp:67 | inside its quotes a symbol is never answered by a dead id; a plain symbol in the table is found and is answered by its own id |
| Ingest.AddPrices | Daemon/src/controller.cpp:68-70 | the price loop throws exactly when enforcement refuses the id and then changes nothing; otherwise it appends exactly the given quotes in order under the id's symbol, and touches no company |
| Ingest.IngestInfo | Daemon/src/controller.cpp:63-71 | for any symbol at all: the turn is the add followed by the filing under the answered id, or throws with nothing filed; integrity is kept inside the quotes, and for a plain symbol the turn is one merge |
| Ingest.TurnMergesExactly | Daemon/src/controller.cpp:63-71 | inside its quotes, a turn merges its info on every integral store if and only if the symbol is plain, or is the word uuid and brings no prices; otherwise some store makes it throw or file the prices elsewhere |
| Ingest.FiledElsewhere | Daemon/src/controller.cpp:67-69 | prices filed under an id of another symbol never amount to a merge of the info |
| Ingest.IngestPass | Daemon/src/controller.cpp:63-71 | a whole pass over any symbols keeps integrity while none closes its quote, and with plain symbols never throws and refines merging the infos one after the other |
| Ingest.PricesOfSymbol | Daemon/src/controller.cpp:63-70 | each symbol ends with its earlier prices followed by exactly those fetched for it, in order |
| Ingest.FirstProfileWins | Daemon/db/table_companies.cpp:40 | a symbol's name and logo are those of the first info that brought it; later ones are ignored; no other symbol appears |
| Sql.ExecAllAppend | Daemon/db/itable.cpp:82-88 | a command string of several statements is the shorter string followed by the last statement, unless something failed before |
| Companies.StatementKeepsValid | Daemon/db/table_companies.cpp:22-31 | every statement, failing or not, keeps ids increasing and below the counter and uuids unique |
| Companies.StatementKeepsIds | Daemon/db/table_companies.cpp:78-101 | no statement but a table drop moves the counter back or changes the uuid or name behind an id |
| Companies.LogoIsSetByIdOnly | Daemon/db/table_companies.cpp:78-81 | the row with the id has the link; every other cell, row and table is as it was |
| Companies.RemovalIsExact | Daemon/db/itable.h:102-110 | a removal that is not refused takes out exactly the rows with the id, or the company's prices, and gives no id back |
| Companies.UpdateSetsEveryVersion | Daemon/db/table_db_version.cpp:45-49 | a well-formed update sets every version row and nothing else |
| Companies.RefusesExactlyWhatBreaksKeys | Daemon/db/table_prices.cpp:27 | on an integral store a statement is refused for a foreign key if and only if keys are enforced and it would leave a price without its company |
| Companies.EnforcementKeepsIntegrity | Daemon/db/table_prices.cpp:22-27 | with keys enforced no run of statements breaks integrity |
| Companies.IdsAreForever | Daemon/db/table_companies.cpp:25-26 | over every run without a table drop an id means one uuid and name for ever; a removed id never returns |
| Companies.IssuedIdsIncrease | Daemon/db/table_companies.cpp:25 | the ids handed to new rows over a run strictly increase, and every row has an issued or an original id |
| Companies.SelectedById | Daemon/db/itable.h:45-58 | a lookup by id selects exactly the row with that id if present and never two, so the more-than-one-result throw is unreachable |
| Companies.RowIdAndUuidAreInverse | Daemon/db/table_companies.cpp:53-66 | for a plain uuid, the id lookup and the uuid lookup are inverse partial functions |
| Companies.RowIdIsRightExactlyForPlainText | Daemon/db/table_companies.cpp:56-60 | a uuid inside its quotes is looked up rightly on every table holding it if and only if it has no NUL and names no column in any case |
| Companies.ColumnNames | Daemon/db/table_companies.cpp:10-15 | the quoted words that are columns and not strings |
| Companies.ColumnNameMatches | Daemon/db/table_companies.cpp:56-58 | which rows each of them selects |
| Tables.Connection.RunTransaction | Daemon/db/itable.cpp:82-96 | the command takes effect whole or not at all, and the mutex depth is given back on both exits |
| Tables.CompanyTable.Add | Daemon/db/table_companies.cpp:37-51 | the store becomes the one after insert-or-ignore; throws only without the table |
| Tables.CompanyTable.GetRowID | Daemon/db/table_companies.cpp:53-61 | answers the id of a row satisfying the pasted text, throws when none does or a NUL cuts the query; changes nothing |
| Tables.CompanyTable.CreateGetFieldQuery | Daemon/db/itable.h:121-132 | an unstepped cursor over exactly the selected cells; depth given back under nested locking |
| Tables.CompanyTable.GetFieldValue | Daemon/db/itable.h:39-60 | the one cell of the one row with that id, or the matching exception for NULL and for no row; depth given back on every exit |
| Tables.CompanyTable.GetFieldValueList | Daemon/db/itable.h:62-74 | every cell of the column, in row order, NULL read as empty text |
| Tables.CompanyTable.SetLogoByID | Daemon/db/itable.h:90-100 | the store after the logo update, all or nothing |
| Tables.CompanyTable.RemoveByRowID | Daemon/db/itable.h:102-110 | the store after the delete, which enforcement may refuse |
| Tables.PriceTable.Add | Daemon/db/table_prices.cpp:36-49 | the store after the insert, which enforcement may refuse |
| Tables.PriceTable.RemoveAllByCompanyRowID | Daemon/db/table_prices.cpp:51-54 | the store without that company's prices |
| TableLocks.PerformIsDirect | Daemon/db/itable.h:90-110 | each operation's nested-lock program, run alone, means exactly its statement, question or list, on normal and throwing paths |
| TableLocks.PerformMeetsContracts | Daemon/db/table_companies.cpp:37-101 | the operations of the locking model keep the contracts of the table classes |
| TableLocks.GetVersionAnswers | Daemon/db/table_db_version.cpp:38-43 | the first stored version, or the exception for a missing table or row |
| TableLocks.TableIsThereAnswers | Daemon/db/itable.cpp:22-26 | each table is said to exist exactly if it does |
| TableLocks.PresenceAnswers | Daemon/db/table_companies.cpp:83-96 | an id is present exactly if a row has it, a plain uuid exactly if a row holds it |
| TableLocks.GetRowIDAnswers | Daemon/db/table_companies.cpp:53-61 | a plain uuid is answered by the id of a row holding it, and throws exactly if there is none |
| TableLocks.FieldAnswers | Daemon/db/table_companies.cpp:63-76 | each getter answers the row's own field, and throws on a NULL logo |
| TableLocks.NoFieldThrows | Daemon/db/itable.h:50-52 | a lookup of an id that is not there throws |
| TableLocks.ListAnswers | Daemon/db/itable.h:62-74 | a list holds each row's own field in row order, a NULL logo as empty text |
| TableLocks.MissingTableThrows | Daemon/db/itable.h:129 | without the table every read throws |
| TableLocks.CreateVersionTableAnswers | Daemon/db/table_db_version.cpp:17-27 | the store stamped as start-up describes it |
| TableLocks.CreatePricesTableAnswers | Daemon/db/table_prices.cpp:20-30 | the prices table there, as it was or empty |
| TableLocks.ListIsDirect | Daemon/db/itable.h:62-74 | stepping a list row by row under the nested locks yields the whole column, NULL as empty text |
| TableLocks.ProgramIsBalanced | Daemon/db/itable.h:42-43 | every operation's locks are well nested with one outermost scope, and only a prepare happens outside it |
| TableLocks.UnwindIsBalanced | Daemon/db/itable.cpp:84-87 | a throw at any depth rolls the open transaction back and releases every lock taken |
| TableLocks.FirstMatchIsAnAnswer | Daemon/db/table_companies.cpp:56-59 | the row this module's lookup takes is one of those the query may return |
| TableLocks.RunKeepsConsistent | Daemon/db/itable.h:116-118 | the invariant of every interleaving: the owner's remaining steps complete its serial result, the others wait outside |
| TableLocks.Serialisable | Daemon/db/itable.cpp:82-96 | for any threads, calls and schedule, store and answers are those of running the calls one by one in order of outermost acquisition |
| TableLocks.OnlyTheOwnerTouchesTheStore | Daemon/db/itable.h:42-58 | in every reachable state only the mutex owner can begin, execute, step, commit or unlock |
| TableLocks.SomeThreadCanStep | Daemon/db/itable.cpp:8 | while any thread has work left some thread can step |
| TableLocks.PreparesFindTheirTable | Daemon/db/table_prices.cpp:38-48 | in every interleaving in which no thread drops the prices table, it is there at every moment, so the insert prepared outside the mutex never fails to prepare |
| Startup.VersionTable.Create | Daemon/db/table_db_version.cpp:17-27 | afterwards a version row exists: the old one if there was one, else the given version; the statements committed, in order |
| Startup.VersionTable.GetDBVersion | Daemon/db/table_db_version.cpp:38-43 | the low 32 bits of the first version, or an exception |
| Startup.VersionTable.UpdateDBVersion | Daemon/db/table_db_version.cpp:45-49 | with well-formed text every version cell is the new one; as written it throws and changes nothing |
| Startup.DBManager.constructor | Daemon/db/db_manager.cpp:11-19 | the code with its catch branch ends exactly where the start-up function says, and commits exactly the statements of `Steps`, in that order |
| Startup.DBManager.UpgradeVersion | Daemon/db/db_manager.cpp:44-64 | keep, upgrade or recreate by comparison, every throw answered by recreation |
| Startup.DBManager.DropAllTables | Daemon/db/db_manager.cpp:79-85 | all three go, version first, or only the version table when enforcement refuses |
| Startup.DBManager.DropAndCreateAllTables | Daemon/db/db_manager.cpp:87-92 | three empty tables at the program's version, or the refusal |
| Startup.DBManager.CreateAndInitAllTables | Daemon/db/db_manager.cpp:66-77 | missing tables appear, present ones are untouched; the version is committed first |
| Startup.StartSucceedsExactly | Daemon/db/db_manager.cpp:11-19 | the constructor throws if and only if it must recreate and enforcement refuses the drop; never with enforcement off |
| Startup.StartConverges | Daemon/db/db_manager.cpp:17-18 | from any mix of missing tables and versions, a successful start has all tables and the program's version, whether the update works or throws |
| Startup.StartIsIdempotent | Daemon/db/db_manager.cpp:17-18 | a second start changes nothing |
| Startup.DataSurvivesExactly | Daemon/db/db_manager.cpp:46-62 | rows survive if and only if the version found is equal, absent, or lower and updatable; otherwise all are gone |
| Startup.VersionTableIsThereToCompare | Daemon/db/db_manager.cpp:46-48 | the missing-table branch is unreachable because creation stamps first |
| Startup.CrashLeavesStaleRows | Daemon/db/db_manager.cpp:79-92 | a crash or refused drop after the version table is gone makes the next start keep rows a normal start drops |
| Startup.StepsAreTheStart | Daemon/db/db_manager.cpp:44-97 | the statements the constructor commits, one after the other, make up the start |
| Startup.CrashInCreation | Daemon/db/db_manager.cpp:66-77 | a crash at any point of creation is made good by the next start |
| Startup.CrashInRecreation | Daemon/db/db_manager.cpp:79-92 | for each point of a recreation, which tables the next start keeps under the new stamp |
| Startup.CrashIsHarmlessExactly | Daemon/db/db_manager.cpp:11-97 | over every crash point of creation, update and recreation the next start makes it good if and only if the version found is kept or both tables are blank |
| Startup.CrashesAreHarmless | Daemon/db/db_manager.cpp:11-97 | under that condition any number of crashed starts in a row ends as one uninterrupted start |
| Startup.CrashLosesIntegrity | Daemon/db/db_manager.cpp:83-84 | a crash between the two data drops keeps every old price beside an empty companies table; integrity is lost unless there were none, and the first new company takes id 1 and inherits old prices |
| Startup.StartIsFitForIngest | Daemon/db/db_manager.cpp:66-77 | a started store meets what the price loop needs, and is integral if and only if no broken price rows were kept |
| HttpHeaders.TrimFindsCore | Daemon/common_utils/http_transaction.cpp:356-366 | exactly the surrounding blanks come off, all-blank text included |
| HttpHeaders.TrimIsExact | Daemon/common_utils/http_transaction.cpp:356-366 | the blanks are spaces and carriage returns and nothing else, so a tab stays |
| HttpHeaders.HttpTransaction.ProcessResponseHeaders | Daemon/common_utils/http_transaction.cpp:274-281 | the chunk is appended whole and reported consumed |
| HttpHeaders.HttpTransaction.ParseResponseHeaders | Daemon/common_utils/http_transaction.cpp:283-295 | the getline loop takes every remaining line and inserts first-wins |
| HttpHeaders.HttpTransaction.Receive | Daemon/common_utils/http_transaction.cpp:232-237 | for every cutting of the bytes into callbacks the headers are those of the whole |
| HttpHeaders.OlderHeadersWin | Daemon/common_utils/http_transaction.cpp:289-292 | headers already present win over every parsed line |
| HttpHeaders.SplitsCleanlyExactlyAtLineEnds | Daemon/common_utils/http_transaction.cpp:286 | a prefix can be split off without changing the lines, for every continuation, if and only if it ends a line |
| HttpHeaders.ParseIsHomomorphic | Daemon/common_utils/http_transaction.cpp:283-295 | after a newline, parsing two blocks is the left-biased union of parsing each |
| HttpHeaders.ParsedIsClean | Daemon/common_utils/http_transaction.cpp:287-293 | every parsed name and value is well formed |
| HttpHeaders.WellFormedComesBack | Daemon/common_utils/http_transaction.cpp:160-162 | printing well-formed headers free of NUL and parsing gives exactly them, colons in values included |
| HttpHeaders.RoundTripExactly | Daemon/common_utils/http_transaction.cpp:160-162 | headers with distinct names come back if and only if all are well formed and free of NUL, which c_str would cut |
| Upload.UploadTransaction.constructor | Daemon/common_utils/http_transaction.cpp:203-216 | the size is that of the data and the stream is back at its start |
| Upload.ProductWraps | Daemon/common_utils/http_transaction.cpp:250 | an overflowing buffer size is the exact product less whole turns of size_t |
| Upload.UploadTransaction.Read | Daemon/common_utils/http_transaction.cpp:246-260 | the next piece of the data, as far as data and wrapped buffer size go; never past the end |
| Upload.UploadTransaction.ReadAll | Daemon/common_utils/http_transaction.cpp:218-223 | any sequence of callbacks hands out the specified chunks |
| Upload.ReadSoFar | Daemon/common_utils/http_transaction.cpp:250-259 | for any request sizes the chunks end to end are exactly the data as far as the requests reach |
| Upload.UploadCompletesExactly | Daemon/common_utils/http_transaction.cpp:246-260 | the whole body is sent if and only if enough was requested, and every later call returns nothing |
| Folders.FileTree.CreateFolder | Daemon/common_utils/filesystem.cpp:38-67 | adds only folders the path names, parents first, keeps the tree a tree even if mkdir fails part-way or a regular file is in the way, gains all of them on completion short of a file at the end, and then changes nothing |
| Folders.FileTree.CreateParts | Daemon/common_utils/filesystem.cpp:50-66 | the loop stops where mkdir fails or has gone through the whole argument |
| Folders.FileTree.Enter | Daemon/common_utils/filesystem.cpp:59-64 | the stat and mkdir of one turn bring in exactly the next component, pass a regular file by, or stop |
| Folders.OrdinaryPartsAreNamedPlainly | Daemon/common_utils/filesystem.cpp:50-66 | without dots and empty components, the folders named are exactly the prefixes of the path |
| Folders.RelativePathNames | Daemon/common_utils/filesystem.cpp:40-61 | a relative path of ordinary parts names exactly the folders below the current one |
| Folders.AbsolutePathNames | Daemon/common_utils/filesystem.cpp:46-49 | an absolute one exactly those below the root, whatever the current folder |
| Folders.DotsLead | Daemon/common_utils/filesystem.cpp:59-60 | empty parts and single dots stay, a name and two dots lead back, above the root is the root |
| Folders.GetDirectory | Daemon/common_utils/filesystem.cpp:28-36 | directory, slash and file name make up the path again; without a slash the current directory |
| Folders.GetFileName | Daemon/common_utils/filesystem.cpp:18-26 | the longest end of the path without a slash: all of it, or what follows a slash |
| Digest.GetMD5 | Daemon/common_utils/filesystem.cpp:82-103 | for every length the 4096-byte loop ends having fed exactly the file once in order; a missing file throws, one that cannot be opened is digested as empty |
| Digest.DecodeRecovers | Daemon/common_utils/filesystem.cpp:98-102 | the text has two digits a byte and the digest can be read back |
| Digest.PrintIsInjective | Daemon/common_utils/filesystem.cpp:98-102 | equal texts mean equal digests |
| Supervisor.RunKeepsInv | Daemon/src/main.cpp:88-120 | the invariant of the fork, wait and restart loop |
| Supervisor.OneChildAtATime | Daemon/src/main.cpp:88-105 | never two unreaped children, none when a fork is tried, forks equal reaps plus the child out; the fork is never skipped and the wait never fails |
| Supervisor.RestartsUnlessToldToStop | Daemon/src/main.cpp:103-118 | after a child killed or exited with 0 the next step is a fork attempt, after one exited with 1 it is the unlink; it unlinks only then or after another signal, and last |
| Supervisor.ReturnsTheStatus | Daemon/src/main.cpp:105-126 | it returns 1 if and only if its last child exited with NeedToTerminate, else 0 after another signal; in that case alone it has sent its one unreaped child SIGTERM |
| Supervisor.EveryExitUnlinks | Daemon/src/main.cpp:122-126 | a supervisor has returned if and only if the last thing it did was to unlink its pid file; one that has left the loop does just that in every continuation in which it does anything |
| Supervisor.AfterTheLoop | Daemon/src/main.cpp:122-126 | in every continuation after the loop the supervisor unlinks once at most and returns by it, its exit status unchanged |
| Supervisor.AlwaysReacts | Daemon/src/main.cpp:88-118 | a pending signal can always be taken and an ended child always reaped |
| PropertyTree.GetAfterPut | Daemon/config/config.cpp:46 | a written path reads back, over the children it had |
| PropertyTree.PutElsewhere | Daemon/config/config.cpp:46 | a write changes no read except at prefixes of its path |
| PropertyTree.PutOnTheWay | Daemon/config/config.cpp:46 | nodes on the way keep their own value or are made empty |
| PropertyTree.PutSame | Daemon/config/config.cpp:46 | writing what is there leaves the whole tree as it is |
| PropertyTree.AddChildElsewhere | Daemon/config/config.h:178 | an appended child changes no read outside its path |
| PropertyTree.GetAfterAddChild | Daemon/config/config.h:178 | where nothing was found before the appended child is found |
| PropertyTree.AddChildAppends | Daemon/config/config.h:178 | the section gains exactly one child, at the end, even if the name is taken |
| Config.ParseOfPrint | Daemon/config/config.h:143 | every 32-bit integer survives being written and read |
| Config.ParsesExactly | Daemon/config/config.h:143 | a text reads as a number if and only if it writes that number, signed or not, and it fits 32 bits; else it throws |
| Config.KeyManager.Lookup | Daemon/config/config.h:109-120 | the dotted path of the first matching entry, or the exception if there is none |
| Config.KeyManager.AddKey | Daemon/config/config.h:122-128 | the key is appended unless an equal one is there |
| Config.TableHoldsEachKeyOnce | Daemon/config/config_daemon.cpp:24-33 | the daemon's table has one entry per key, in its own section |
| Config.DottedIsPath | Daemon/config/config.h:35 | a dotted key means exactly the two-step path of its section and name |
| Config.PathsAreIndependent | Daemon/config/config_daemon.cpp:24-33 | no key's path is a prefix of another's |
| Config.WritesAreIndependent | Daemon/config/config.cpp:42-47 | over any tree a write through one key never changes a read through another |
| Config.ConfigFile.GetString | Daemon/config/config.cpp:29-40 | the value at the path or the default, and the mutex is free again |
| Config.ConfigFile.WriteString | Daemon/config/config.cpp:42-54 | memory takes the value; the file equals memory unless the tree is not representable |
| Config.ConfigFile.WriteArray | Daemon/config/config.h:167-187 | appends the list unless the literal child exists; with the mutex already held it cannot proceed |
| Config.WrittenArrayReads | Daemon/config/config.h:171-179 | where neither path nor literal child exists, a written list is found value by value and GetArray answers it |
| Config.ConfigFile.GetArray | Daemon/config/config.h:146-159 | the values in order, the default for an empty list, and a hang for a missing path |
| Config.DaemonConfig.WriteBackScalar | Daemon/config/config_daemon.cpp:46-52 | one line of Init: value or default written back, memory and file equal |
| Config.DaemonConfig.Init | Daemon/config/config_daemon.cpp:44-54 | on success memory and file both hold the initialised tree and the mutex is free |
| ConfigInit.WriteBackAllReads | Daemon/config/config_daemon.cpp:46-52 | after the scalar lines each key reads as its own value in the tree found |
| ConfigInit.InitKeepsScalars | Daemon/config/config_daemon.cpp:44-89 | a scalar present is kept, a missing one is its default; the time-out is kept if and only if it was canonical text |
| ConfigInit.MissingSettingsGetDefaults | Daemon/config/config_daemon.cpp:9-89 | each setting by its own path and literal value: kept if present, else this default |
| ConfigInit.FirstStart | Daemon/config/config_daemon.cpp:44-54 | with no configuration Init succeeds and writes exactly these settings and symbols |
| ConfigInit.InitLeavesTheRest | Daemon/config/config_daemon.cpp:44-54 | nothing else in the file changes |
| ConfigInit.SymbolsAreAlwaysTheDefaults | Daemon/config/config_daemon.cpp:91-94 | in Init GetArray never meets a missing path, so never re-locks, and always answers the built-in symbols |
| ConfigInit.WorkerGetsTheDefaults | Daemon/src/controller.cpp:58 | on every initialised tree the worker's read of the symbols answers the built-in ones |
| ConfigInit.SymbolListsPileUp | Daemon/config/config.h:177-179 | without the literal child every Init appends one more list of "aapl" and "fb" |
| ConfigInit.SymbolsAreWritten | Daemon/config/config_daemon.cpp:53 | where there was no list the one written is found and reads "aapl", "fb" |
| ConfigInit.InitIsIdempotentExactly | Daemon/config/config_daemon.cpp:44-54 | a second Init rewrites all scalars unchanged; the tree is unchanged if and only if the literal child exists |
| ConfigInit.InitSucceedsExactly | Daemon/config/config.cpp:46-53 | on any JSON tree Init succeeds if and only if root and sections hold no value and the time-out is a 32-bit integer |

## Left out

- Tables.CompanyTable.GetRowID: says nothing of a uuid that closes its own quote, because SQL text and its parser are not modelled; the integrity and merge results then promise nothing either.
- Tables.CompanyTable.Add: ids are unbounded; a counter at the largest 64-bit value, a full disk and a failing commit are not modelled.
- Tables.PriceTable.Add: prices are real numbers; a NaN, which SQLite would reject as NULL, is not a value of the model.
- TableLocks.FirstMatchIsAnAnswer: the locking model returns matching rows in id order, one of the orders an index scan may choose; a text that names the id column is compared with the printed id only, not with other spellings of the number.
- TableLocks.Serialisable: the prepare of `Prices::Add` outside the mutex is a step that cannot fail; a prepare on a store without the prices table is not modelled, and `TableLocks.PreparesFindTheirTable` says when it does not arise. The filtered list read, which no table uses, is left out.
- Startup.DBManager.constructor: the program's version is any number below 2^32 rather than 1; failures of opening or committing are not modelled.
- Startup.CrashIsHarmlessExactly: a crash falls between committed transactions; SQLite's own recovery of a transaction cut in half is taken for granted.
- Controller.StopTerminates: steps of the worker are taken to finish; a fetch that never returns would hold up Stop. A crash of the worker ends the process.
- Controller.StoreOverWholeRuns: one thread calls Start and Stop in turn; a second Stop without a Start, whose join throws, is not a step. Starting and stopping the RPC service are left out.
- Controller.NoDeadlock: whether the wait may time out or wake spuriously is left open; the written duration of zero is one case.
- Upload.UploadTransaction.Read: only one transfer, with upload data present; the read into libcurl's buffer does not fail.
- Folders.FileTree.CreateFolder: symbolic links, file modes and `chmod` are not modelled, nor a `stat` that is denied on an existing folder.
- HttpHeaders.RoundTripExactly: the text format only; libcurl itself drops a header sent with an empty value.
- Digest.GetMD5: MD5 is a parameter; a file that changes while it is read is not modelled.
- Supervisor.OneChildAtATime: `sigwaitinfo` and `wait` are not interrupted; the child's own work and signal handlers are not modelled.
- Config.ConfigFile.GetArray: a second lock of the plain mutex is an error of the model; the real call never returns.
- Config.ConfigFile.WriteString: writing the file itself does not fail; reading and parsing the file at construction and the map of open configurations are left out.
- Config.DaemonConfig.Init: the sandbox token's default text is replaced by a stand-in; no result depends on it.
- Config.ParseOfPrint: locale-dependent digit grouping is not modelled.
- SQL text and SQLite internals are represented by what each statement does to the tables; `PRAGMA foreign_keys` inside a transaction is a no-op, so enforcement is a parameter.
- `RemoveAll` builds a command and never runs it; it has no model.
- The IEX client and its JSON parsing: a fetch is an arbitrary company info, the empty one of a failed request included; exceptions other than the HTTP one are left out.
- gRPC, protobuf, libcurl set-up, certificates, form data, logging, timestamps, the download callback and the order-preserving `GetCompanyInfo`: calls to libraries or single expressions.
