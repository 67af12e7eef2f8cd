# Local audiobooks plugin: a verified model

A Dafny model of the stateful parts of the local audiobooks plugin, with proofs of what they
promise. `dafny verify dfyconfig.toml` checks all of it.

The model has five parts, each in the form of the Go code it follows: a class where the code changes
rows or a list in place, a method with its loop where the code loops, functions where it computes.
Each method is proved against a specification on values, and the main results are lemmas about that
specification over all inputs, all states or all runs.

- **Enrichment queue** (`Queue`, `LeaseProtocol`, `Overtaking`, `Drain`). The job table and its
  statements; a machine of any number of overlapping workers that claim, complete, fail, die and
  enqueue in any order under one clock; and the drain loop with a clock that may do anything.
- **Catalog paging** (`Text`, `Base64`, `Cursor`, `Library`, `Sql`, `Pages`, `Catalog`,
  `Handlers`, `Keyset`, `Paging`, `SearchPaging`, `Facets`). Cursors down to their bytes, WHERE clauses as trees with numbered
  placeholders evaluated against an argument list, the handlers that produce the next cursor, and
  clients that follow it while the table changes. `Keyset` is the argument on any rows and keys;
  books and facet values are two uses of it. `Pages` says what a page is in the words of a request, and what
  the queries and handlers answer is proved to be that.
- **Library scan** (`StableId`, `Scan`, `Reconcile`, `Written`, `ScanRuns`). A walk over any sequence of entries
  against the book, chapter and cover tables with their unique index and foreign keys, where any
  statement may fail.
- **Metadata search** (`Cache`, `Aggregator`, `Confidence`). The cache under puts, gets and evictions, goroutines
  interleaved step by step over one cache and one list, the stable sort and cut, and the score.
- **Scraped JSON** (`Collector`). The depth-bounded traversal shared by three sources, which differ only
  in what a book record looks like.

`Orders` holds sequences, sorting and permutations.

## Where the code and its promises part

Four promises fail in some cases. For each the exact condition is proved, and a case that fails is
exhibited.

- *Search paging.* The search orders by title whatever the request says, but its next cursor is made
  with the request's sort (internal/server/catalog.go:152-156 and 167). Following it is complete if and only
  if that sort resolves to the title: `SearchPaging.SearchCompleteExactly`. Two books that a search with
  another sort skips one of: `SearchPaging.OtherSortSkips`.
- *Drain.* On a cancellation or deadline error of a request the drain returns `ctx.Err()`, which is nil
  while its own context lives (internal/metadata/worker.go:70-71), so returning without error does not mean
  an empty queue, against internal/metadata/worker.go:50. It does if and only if processing ends that way only
  when the drain's own context is over: `Drain.DrainEmptiesExactly`. A table left with a ready job:
  `Drain.ContextErrorLeavesReady`.
- *Scan.* Soft-deleted rows are not among the refs (internal/store/audiobook.go:124), so a file that returns
  changed is given a new id (internal/scanner/scan.go:179) while the upsert keeps the old one
  (internal/store/audiobook.go:72), and its chapters and cover violate the foreign key: one file stops the
  scan, against docs/operations.md:92-93. When a walk stops: `ScanRuns.WalkStopsExactly`. Three walks of which
  the third stops: `ScanRuns.ReturningFileStopsWalk`. The parser gives every MP3 a chapter
  (internal/scanner/mp3.go:92-99).
- *Confidence.* internal/metadata/confidence.go:7-8 says that an ASIN match beats a title match. It never
  loses, and ties in one case exactly: `Confidence.AsinNeverLoses`. The tie: `Confidence.AsinCanTie`.

One promise has hypotheses, and each is shown to be needed by a run that breaks it without:

- *Leases.* Exclusivity needs that holders end within the lease and that held jobs are not enqueued anew:
  `LeaseProtocol.OutlivedLeaseIsShared`, `LeaseProtocol.ReenqueuedHoldIsShared`. After crashes `attempts` may
  exceed five, since a claim does not look at it.

And some comments describe something else than the code, which the model follows; nothing is proved of these:

- *Backfill.* internal/store/metadata.go:35-37 and docs/operations.md:148-149 speak of books without a job or a
  completed one; the statement re-arms every active book's job.
- *Keys.* internal/store/audiobook.go:61 ("by id") and internal/store/audiobook.go:167 ("last-seen id") describe
  an older design.

## Model

| member | source | states |
|---|---|---|
| Queue.JobTable.Enqueue | internal/metadata/queue.go:43-55 | whatever the row was, it is afterwards exactly a fresh pending job due now; no other row changes |
| Queue.JobTable.BulkEnqueueBackfill | internal/store/metadata.go:38-56 | one job for every active book is a fresh pending job due now, also where a failed or completed one stood; other jobs are untouched; the count is the number of active books |
| Queue.JobTable.SelectReady | internal/metadata/queue.go:69-75 | finds a row exactly if one is pending and due, and then the one that comes before all others by (run_after, id) |
| Queue.JobTable.ClaimNext | internal/metadata/queue.go:61-104 | "empty" is answered only when no row is pending and due, and changes nothing; otherwise the first ready row is the one claimed, its attempt is counted, it is hidden for the lease, no other row changes, and the worker is told the attempt number the row now carries |
| Queue.JobTable.MarkCompleted | internal/metadata/queue.go:107-114 | the row is completed, finished now and without an error, and nothing else about it or the table changes; an id without a row changes nothing |
| Queue.JobTable.MarkFailed | internal/metadata/queue.go:120-136 | decided by the attempt the worker was told, not by the row: a fifth or later failure is final and finished now, an earlier one puts the row off by 2, 4, 8 or 16 minutes and leaves it pending; either carries the error text, and nothing else changes |
| Queue.ShiftMinutes | internal/metadata/queue.go:129 | the shifted duration is 2^k minutes for every k a rescheduled job can have |
| Queue.FirstIsUnique | internal/metadata/queue.go:72 | at most one row is first in claim order |
| Queue.ReadyHasFirst | internal/metadata/queue.go:69-75 | if any row is ready then one is first, so an empty answer really means nothing is ready |
| LeaseProtocol.AttemptsCountClaims | internal/metadata/queue.go:47-51 | in every run of any number of workers, lease respected or not: `attempts` is the number of claims since the last enqueue, and a pending job is never put off by more than 16 minutes, so none is stuck |
| LeaseProtocol.StepKeepsLeases | internal/metadata/queue.go:84-96 | every single step that respects the lease keeps: one holder per job, holder and row agreeing, an idle row telling how its last claim ended, and the spacing of past claims |
| LeaseProtocol.LeasesKept | internal/metadata/queue.go:61-136 | so does every run of such steps, from any state in which it holds |
| LeaseProtocol.LeaseExclusivity | internal/metadata/queue.go:61-104 | in every state of every lease-respecting run no two workers hold one job, and a holder's attempt number and claim time are the row's |
| LeaseProtocol.RetryAccounting | internal/metadata/queue.go:89-136 | in every lease-respecting run: `failed` means five claims or more, exactly five without crashes and at least 30 minutes after the first; the claim after the k-th failure comes no sooner than 2^k minutes later, after a lost claim no sooner than 15 minutes; a finished row carries the time and the error of its end |
| LeaseProtocol.FiveFailuresTakeHalfAnHour | internal/metadata/queue.go:116-134 | the four backoffs between five failed claims add up to at least 30 minutes |
| LeaseProtocol.ClaimLinks | internal/metadata/queue.go:89-94 | a claim of a ready idle row comes no sooner than the backoff or the lease its previous claim ended with |
| LeaseProtocol.EndedIdle | internal/metadata/queue.go:107-136 | however a holder ends, completion, failure or death, the row tells that end: status, time, error, and when it may run again |
| LeaseProtocol.EndedRow | internal/metadata/queue.go:107-136 | and only its own row and its own last claim are touched |
| LeaseProtocol.OutlivedLeaseIsShared | internal/metadata/queue.go:15-22 | the first hypothesis is needed: a worker that outlives its lease ends up sharing the job |
| LeaseProtocol.ReenqueuedHoldIsShared | internal/metadata/queue.go:47-52 | the second one too: enqueueing a held job lets another worker claim it at once |
| Overtaking.StepShrinksAhead | internal/metadata/queue.go:69-94 | any step that neither claims nor enqueues a due unheld job leaves it due and unheld, adds nothing to the jobs before it, and a claim takes one of those away |
| Overtaking.BoundedOvertaking | internal/metadata/queue.go:69-94 | in every run, lease respected or not, a due unheld job that is not enqueued anew is claimed once more claims have been made than there were jobs before it, whatever else is claimed, failed, abandoned or enqueued |
| Drain.Drain | internal/metadata/worker.go:52-82 | the loop terminates for every clock, cancellation and outcome of the jobs, in at most as many rounds as there is work, and leaves a log of its rounds, as the next row says |
| Drain.DrainedLogs | internal/metadata/worker.go:52-82 | each finished round claims the earliest due job and leaves all other rows alone; the claimed row is completed exactly if processing was done, failed with the error text from the fifth attempt on, otherwise pending with that text and put off by 2, 4, 8 or 16 minutes; the drain stops, with the right result, when its context is over, nothing is due, or processing is cut short, which leaves the job pending under its lease |
| Drain.RoundShrinksWork | internal/metadata/worker.go:57-80 | claiming and then finishing a job, either way, lowers the sum over pending jobs of max(1, 5 - attempts) |
| Drain.Drained | internal/metadata/worker.go:52-82 | a drain that starts at round i ends within as many further rounds as the pending jobs' work |
| Drain.NoneLeftWithOwnContextOnly | internal/metadata/worker.go:54-72 | if processing ends in a cancellation or deadline error only when the drain's own context is over, a drain that returns no error left nothing that was ready when it last looked |
| Drain.ContextErrorLeavesReady | internal/metadata/worker.go:70-72 | in whatever round one such error comes while the context is live, there is a table on which the drain ends without error although another job is ready |
| Drain.DrainEmptiesExactly | internal/metadata/worker.go:54-72 | for every clock, context and outcomes: returning without error means an empty queue, for every table and round to begin in, if and only if processing ends in a cancellation or deadline error only when the drain's own context is over |
| Keyset.PageServes | internal/store/cursor.go:10-13 | a page holds a given row exactly when its key lies after the cursor and not after the page's last key, and is not empty while the row is ahead |
| Keyset.PageCuts | internal/store/audiobook.go:196-199 | a page is in strict order, holds only rows ahead of the cursor, and leaves one out only if it is full and ends before it |
| Keyset.StableRowOnce | internal/store/cursor.go:77-80 | rows may come, go and move between requests: a row that keeps its key is served exactly once by the time a page is empty |
| Keyset.RestAfterRow | internal/store/cursor.go:10-13 | what is left after stopping at a row is exactly the tail after that row: nothing skipped, nothing twice |
| Keyset.CrawlIsWhole | internal/store/cursor.go:77-80 | on a fixed table the pages, put together, are the whole ordered list |
| Keyset.CrawlLength | internal/store/audiobook.go:169-171 | and they are as many as it takes: one per full or partial page and the empty one |
| Base64.RoundTrip | internal/store/cursor.go:54-60 | unpadded URL-safe base64 of every byte string decodes to that byte string |
| Base64.LettersFollowTable | internal/store/cursor.go:56 | the letters are A to Z, a to z, 0 to 9, minus and underline, as in table 2 of RFC 4648 |
| Base64.ThreeBytesAreFourLetters | internal/store/cursor.go:56 | three bytes are four letters of six bits each, from the highest |
| Cursor.RoundTrip | internal/store/cursor.go:54-75 | decoding an encoded cursor gives back exactly the sort value and the id, for every sort value, if and only if the id is free of the separator |
| Cursor.CursorLayout | internal/store/cursor.go:54-57 | the cursor is made of the magic, the text of the column that the sort names, and the id |
| Cursor.LegacyIdRejected | internal/store/cursor.go:15-22 | an old-style cursor, a bare hexadecimal id of any length, never decodes |
| Library.SortValueMatchesColumn | internal/store/cursor.go:26-50 | for every sort name, known or not, the text put in the cursor is read back as the cell of the very column the page is ordered by, cast or not as that column needs |
| Library.KeyOrderIsTotal | internal/store/audiobook.go:196-199 | ORDER BY column and direction, then id, is a strict total order on keys in both directions |
| Sql.AndAllBinds | internal/store/audiobook.go:188-194 | the AND-joined statement binds exactly if each clause does |
| Sql.AndAllEval | internal/store/audiobook.go:188-194 | and accepts a row exactly if each clause does |
| Sql.KeysetMeaning | internal/store/cursor.go:81-99 | the fragment accepts exactly the rows strictly after the key its two arguments spell, in the direction asked for; it fails to bind exactly when the value is no value of the column |
| Catalog.KeysetClause | internal/store/cursor.go:81-99 | appends the value and the id, and only those, to the caller's arguments and answers the fragment that refers to just these two; touches nothing when the cursor does not decode |
| Catalog.Conjoin | internal/store/audiobook.go:188-194 | the joining loop yields the left-nested AND of all clauses in order |
| Catalog.KeysetPartMeaning | internal/store/cursor.go:77-99 | wherever in the argument list it is put, the keyset part accepts exactly what is beyond the decoded position; absent, legacy and garbage cursors accept everything |
| Catalog.LibraryPartMeaning | internal/store/audiobook.go:184-187 | the library clause finds its own argument whatever comes before, and restricts rows exactly when a library is asked for |
| Catalog.AssembledMeaning | internal/store/audiobook.go:177-199 | for every cursor, sort, order and library the assembled tree over the assembled arguments accepts exactly the visible matching rows strictly after the cursor row, and fails exactly when the cursor's value cannot be read |
| Catalog.SelectIsListPage | internal/store/audiobook.go:196-199 | so the statement returns the first rows, up to the limit, of what is left of the ordered list |
| Catalog.QueryPage | internal/store/audiobook.go:169-199 | the imperative assembly with its growing argument list runs to that page and leaves exactly those arguments |
| Catalog.ListActiveAudiobooks | internal/store/audiobook.go:168-214 | for every cursor made from a book, or none, the rows returned are the first visible books after it, in the order asked for, as many as the limit allows, and none is left out before the last: "desc" descends and anything else ascends, by author, time added, time updated, or title for any other sort, equals by id; limits out of 1 to 200 are 50; a library above 0 is the only one |
| Catalog.ListPageIs | internal/store/audiobook.go:168-264 | so it is for what either query is to return, whatever rows match |
| Catalog.ListPageFailsExactly | internal/store/cursor.go:81-92 | the statement fails exactly when a time is sorted by and the cursor decodes to a text that is no timestamp |
| Catalog.SearchAudiobooks | internal/store/audiobook.go:219-264 | the same of the visible books whose title or author is found with anything before and after the query |
| Catalog.PageLimit | internal/store/audiobook.go:169-171 | whatever limit is asked for, a page has 1 to 200 rows |
| Handlers.HandleListCatalog | internal/server/catalog.go:121-143 | for every cursor made from a book, or none, the items are that page in order, each with its own book's fields and its library's name, 50 without a limit and 200 at most; the next cursor is that of the last book, none exactly after an empty page |
| Handlers.HandleSearchCatalog | internal/server/catalog.go:145-170 | an empty query answers nothing; any other the same of the books found, by title and ascending whatever sort was asked for, with a cursor made from the request's sort |
| Handlers.Shape | internal/server/catalog.go:135-141 | the loop keeps order and number of the books |
| Paging.CursorIsPosition | internal/server/catalog.go:139-141 | the next cursor, sent back, stands exactly at the last book of the page |
| Paging.ClientFollows | internal/server/catalog.go:139-142 | a client that sends back each next cursor to a handler until there is none gets, one by one, the envelopes of the pages followed in the store |
| Paging.ListClientFollows | internal/server/catalog.go:121-143 | so it is for the listing, whatever the library names are at each request |
| Paging.SearchClientFollows | internal/server/catalog.go:145-170 | and for the search with a query |
| Paging.FollowIsCrawl | internal/store/audiobook.go:177-199 | pages followed through encoded cursors are a crawl of the list by keys, never meeting an error |
| Paging.StableBookOnce | internal/store/audiobook.go:168-214 | with any books added, deleted, renamed and libraries toggled between requests, a book that stays listed with an unchanged sort value is served exactly once by the time a page is empty, ascending and descending, for every limit and library |
| Paging.PagesAreWholeList | internal/store/audiobook.go:168-214 | on a fixed table following the cursor from the start ends, after exactly the requests it takes, and the pages together equal the whole list |
| Paging.WholeListIsOrdered | internal/store/audiobook.go:168-199 | that list is the visible matching books, each once, in the order asked for: "desc" descends and anything else ascends, by the column the sort names, equals by ascending id |
| SearchPaging.TitleSearchFindsAll | internal/server/catalog.go:152-167 | a search whose request sort resolves to the title pages through every match |
| SearchPaging.OtherSortSkips | internal/server/catalog.go:152-167 | with any other sort and any non-empty query that finds a certain timestamp text, there are two visible matching books of which paging ends after showing one |
| SearchPaging.SearchCompleteExactly | internal/server/catalog.go:152-167 | following a search is complete for every table, non-empty query, limit and library if and only if the request's sort resolves to the title, as long as ILIKE finds timestamp texts by some query |
| Facets.GroupsTally | internal/store/audiobook.go:290-294 | grouping lists each value once, counts its rows exactly, and the counts add up to all rows |
| Facets.FilterGroups | internal/store/audiobook.go:273-277 | restricting rows to values past the cursor and then grouping is the same as grouping and then restricting |
| Facets.FacetClausesMeaning | internal/store/audiobook.go:272-288 | the assembled tree always binds and accepts exactly the visible books with a value past the cursor |
| Facets.SelectGroupsIsPage | internal/store/audiobook.go:290-294 | so the grouped statement is a keyset page of the values |
| Facets.ListWithCounts | internal/store/audiobook.go:268-309 | the query never fails on its own; the values returned are non-empty, after the cursor, strictly ascending, each with the number of visible books that have it, 100 for a limit out of 1 to 500; a value that some visible book has is left out only of a full page that ends before it |
| Facets.FacetPageIs | internal/store/audiobook.go:268-353 | so it is for authors and genres alike |
| Facets.FacetLimit | internal/store/audiobook.go:313-315 | whatever limit is asked for, a page has 1 to 500 values |
| Facets.HandleBrowse | internal/server/browse.go:15-34 | answers such a page in order with its counts, 100 values without a limit and 200 at most, and the last value as the next cursor, none exactly after an empty page |
| Facets.BrowseIsCrawl | internal/server/browse.go:36-55 | a client that sends back each next value crawls the values; the empty cursor, which means the start, never comes up in between |
| Facets.BrowseCountsEveryBook | internal/store/audiobook.go:268-353 | on a fixed table browsing lists every value of a visible book exactly once, in strict order, with its exact count, and the counts over all pages add up to the visible books that have a value |
| Facets.StableValueOnce | internal/store/audiobook.go:268-353 | with books changing between requests, a value that always has a visible book is listed exactly once |
| StableId.IntegerInjective | internal/scanner/id.go:17 | decimal text determines the integer, negative ones included |
| StableId.EncodingInjective | internal/scanner/id.go:17 | the text that is hashed determines path, size and time, for paths holding any bytes, NUL included, and for all integers |
| StableId.OnePath | internal/scanner/id.go:12-19 | an id is made from one path at most |
| Scan.ScanStore.UpsertBook | internal/store/audiobook.go:67-98 | a row at a known (library, path) becomes the new one in every field but its id, and is active; a new one is inserted as it is, unless its id is taken; a failure changes nothing |
| Scan.ScanStore.ReplaceChapters | internal/store/chapter.go:18-35 | the chapters of the id become the new ones, all or none; they are refused exactly if two have one index or there are some and no book has the id |
| Scan.ScanStore.UpsertCover | internal/store/cover.go:18-31 | the cover of the id becomes the new one; it is refused exactly if its source is neither embedded nor sidecar or no book has the id |
| Scan.ScanStore.SoftDeleteBook | internal/store/audiobook.go:142-149 | the row is marked, not removed |
| Scan.VisitEntry | internal/scanner/scan.go:133-245 | one visit changes the tables, the seen ids and the counts as the specification says, on every skip and every error exit |
| Scan.WriteFile | internal/scanner/scan.go:211-236 | upsert, chapters, cover, job in that order, each kept if a later one fails |
| Scan.Walk | internal/scanner/scan.go:121-261 | the whole walk, through every early exit, leaves the state of the specification run, for the order in which the map happened to be iterated |
| Scan.DeleteUnseen | internal/scanner/scan.go:250-260 | each row of the library is looked at once, in some order, and soft-deleted if unseen, up to the first failure |
| Reconcile.Reconciled | internal/scanner/scan.go:118-261 | after a walk without error a path is active if and only if the walk met a supported entry there that was active already or could be statted, was regular and parsed; every readable file has its current signature under the id its row had; no other library's row changed |
| Written.SupportedPathExactly | internal/scanner/scan.go:95-103 | a file counts exactly if its path ends in a dot and m4b or mp3, in any case |
| Written.WalkWrites | internal/scanner/scan.go:133-245 | after a walk without error: every readable file that is new or changed has a row with its own size, time, tags and signature, active, under the id the row had or else the signature; under the id it was known by are exactly its chapters and, if it has one, its cover; its job is enqueued; and every other audio file met leaves its row as it was |
| Written.OneWriter | internal/scanner/scan.go:175-182 | no two files of a walk write chapters, covers or jobs under one id |
| Reconcile.NoWrongfulDeletion | internal/scanner/scan.go:143-149 | however a walk ends, a row that is deleted afterwards was in the table before it; if it was active then, it was of the walk's library, and the walk had been through the whole tree without meeting a supported entry at its path |
| Reconcile.WalkKeepsIdentity | internal/scanner/scan.go:175-182 | however the walk ends, no row vanishes or changes its id, and ids stay unique and made from their own path |
| Reconcile.TreeIngests | internal/scanner/scan.go:184-217 | every file to be ingested is, if the tree phase ends well, and no later visit disturbs it |
| Reconcile.TreeSees | internal/scanner/scan.go:143-149 | the ids seen are exactly accounted for: those of known supported entries, read or not, and those ingested |
| Reconcile.SeenMeansMet | internal/scanner/scan.go:143-149 | an old row's id is seen only because its own path was met |
| Reconcile.DeletesEffect | internal/scanner/scan.go:250-259 | the deletes only ever mark rows that were unseen, and nothing else about them |
| Reconcile.DeletesReachAll | internal/scanner/scan.go:250-259 | and, without error, mark every one of them, in whatever order the map is iterated |
| ScanRuns.StableIdentity | internal/store/audiobook.go:67-89 | across any walks of any libraries, soft deletes and returns, complete or stopped: the id of a (library, path) row never changes, every id is a StableID of its own path, different rows have different ids |
| ScanRuns.DifferentPathsDifferentIds | internal/scanner/id.go:12-19 | rows at different paths could not have equal ids even without the primary key |
| ScanRuns.SecondWalkDoesNothing | internal/scanner/scan.go:168-173 | after a walk without error, another walk of the same tree writes nothing, enqueues nothing and reports zeros, even if every statement but the listing would fail |
| ScanRuns.Conserved | internal/scanner/scan.go:232-259 | in a walk without error active-after = active-before + Added - Deleted, and with a queue the enqueue calls are Added + Changed |
| ScanRuns.VisitStopsExactly | internal/scanner/scan.go:175-230 | with a database that answers everything and the refs read at the start, a visit stops the walk if and only if it is an error of the tree, or a new or changed file whose chapters repeat an index or whose cover has an unknown source, or a readable file that returns from soft deletion with a changed signature and has a chapter or a cover |
| ScanRuns.WalkStopsExactly | internal/scanner/scan.go:121-261 | with a database that answers everything, a walk returns without error if and only if it has a root and no visit of its tree is one of those; what the table held before the walk decides |
| ScanRuns.ReturningFileStopsWalk | internal/scanner/scan.go:175-230 | from an empty table, for every readable file: it is there, is gone, is back with another size or time and a chapter or a cover; the first two walks return without error and the third does not |
| ScanRuns.EmptyTree | internal/scanner/scan.go:250-260 | a walk of an empty tree returns without error and soft-deletes every row, ids kept |
| Cache.KeyInjective | internal/metadata/cache.go:41-45 | equal keys mean equal source, kind, region and query, whatever bytes region and query hold, for sources without a colon |
| Cache.KeyLayout | internal/metadata/cache.go:41-45 | the key is source, kind, region and digest, with colons between |
| Cache.ColonSourceCollides | internal/metadata/cache.go:41-45 | a colon in a source's name would make two queries share a key |
| Cache.CacheTable.Get | internal/metadata/cache.go:60-80 | answers the row exactly if it was fetched no longer ago than the time to live, 24 hours for a negative |
| Cache.CacheTable.PutHit | internal/metadata/cache.go:83-93 | the row answers the response from now on and is no negative |
| Cache.CacheTable.PutNotFound | internal/metadata/cache.go:96-106 | the row is a negative from now on |
| Cache.CacheTable.EvictExpired | internal/metadata/cache.go:113-123 | keeps exactly the rows fetched no longer ago than that, unchanged, and counts those removed |
| Cache.LookupAfterOp | internal/metadata/cache.go:60-123 | one operation changes what a later lookup of a query finds only if it is a put for that very query |
| Cache.LookupFollowsRule | internal/metadata/cache.go:60-123 | after any puts, gets and evictions a lookup answers the latest put for the same source, kind, region and query while it is within its time to live, and nothing else |
| Cache.ServedExactly | internal/metadata/cache.go:59-123 | with the ages written out: what is served for a query is exactly what the last put for that query left, source, region, answer and time, if that is no longer ago than the time to live, 24 hours for a negative |
| Cache.AnswerIgnoresEvictions | internal/metadata/cache.go:108-123 | that rule does not depend on evictions |
| Cache.EvictionUnobservable | internal/metadata/cache.go:113-123 | runs that differ only in where evictions were put in answer every lookup alike |
| Aggregator.Rank | internal/metadata/aggregator.go:161-171 | every candidate becomes one match, in order, with its own source and confidence |
| Aggregator.SearchOne | internal/metadata/aggregator.go:110-145 | the matches are all candidates of a fresh readable row, none for a fresh negative, else all those of an admitted live call that succeeds; only such a call changes the cache, in the row of the asked key only, to its answer or a negative, as of the put |
| Aggregator.ClassifyExactly | internal/metadata/aggregator.go:147-159 | a query is an ASIN or an ISBN exactly if it is spelled as the expressions say |
| Aggregator.CachedAnswerIsTheSame | internal/metadata/aggregator.go:116-144 | a repeated search within the time to live has the same matches from the cache, whatever the source would say by then |
| Aggregator.StepKeeps | internal/metadata/aggregator.go:85-98 | each atomic step of any goroutine leaves the others what they would find alone |
| Aggregator.InterleavingKeeps | internal/metadata/aggregator.go:85-99 | so at every point of every interleaving the shared list holds exactly the matches of the finished sources |
| Aggregator.SameMatches | internal/metadata/aggregator.go:85-99 | whatever the interleaving of lookups, puts and appends, the matches gathered are the same, with multiplicity |
| Aggregator.StableSort | internal/metadata/aggregator.go:101-103 | sorting loses and invents nothing |
| Aggregator.SortDescending | internal/metadata/aggregator.go:101-103 | and sorts by descending confidence |
| Aggregator.SortStable | internal/metadata/aggregator.go:101-103 | keeping the order of equal ones |
| Aggregator.TopIsBest | internal/metadata/aggregator.go:101-106 | the result is descending, has min(20, total) matches, all of them found, and every match strictly above its last one as often as it was found |
| Aggregator.SameConfidences | internal/metadata/aggregator.go:101-106 | the confidences returned depend only on which matches there are, not on the order they arrived in |
| Aggregator.Merge | internal/metadata/aggregator.go:93-107 | appending the parts as they come in, sorting and cutting returns the best of all parts |
| Aggregator.FinishingOrder | internal/metadata/aggregator.go:91-98 | whatever the interleaving, the shared list is what the sources find alone, each finished one once, joined in the order they finish |
| Aggregator.AllScored | internal/metadata/aggregator.go:85-98 | whatever the interleaving, each candidate is matched as often as the sources answered it, and nothing else is |
| Aggregator.SearchResult | internal/metadata/aggregator.go:76-108 | for every complete interleaving the result is the merge of what each source finds, each once, in the order they finish; it has min(20, all) matches, descending, none more often than answered, and every candidate answered that scores above the last one as often as it was answered; every match carries its candidate's source and confidence against the query and the book, 0 to 100; and the confidences are those of any other interleaving |
| Aggregator.ScheduleIndependent | internal/metadata/aggregator.go:76-108 | for every two interleavings of the goroutines the returned confidence sequence is the same |
| Confidence.TitleScore | internal/metadata/confidence.go:59-83 | nested loops and break count the query words that overlap a title word |
| Confidence.MatchingNames | internal/metadata/confidence.go:87-106 | counts the original names that overlap some candidate name, blank ones on either side not counting |
| Confidence.MatchesSome | internal/metadata/confidence.go:94-103 | the inner loop stops exactly if some non-blank name overlaps |
| Confidence.NameScore | internal/metadata/confidence.go:29-46 | authors and narrators score the fraction of the original names matched, nothing if either side has none |
| Confidence.CompletenessScore | internal/metadata/confidence.go:111-141 | the fraction of nine fields, an ASIN and an ISBN being one between them |
| Confidence.CalculateConfidence | internal/metadata/confidence.go:14-55 | the running score is the sum of the points of its parts, and 0 to 100 for all inputs, whatever the library functions do |
| Confidence.PointsWithinWeights | internal/metadata/confidence.go:5-8 | each part stays within its published weight, for all inputs |
| Confidence.FillingNeverLowers | internal/metadata/confidence.go:10-13 | filling any empty field of a candidate, or appending authors or narrators, never lowers its score |
| Confidence.AsinNeverLoses | internal/metadata/confidence.go:7-8 | against a book known by its ASIN alone, the matching candidate never scores below another, and scores the same in exactly one case: no title point and none for completeness against all of both |
| Confidence.AsinCanTie | internal/metadata/confidence.go:7-8 | and that case occurs: a bare matching ASIN and a complete candidate with a perfect title both score 35, one field of nine being worth no point |
| Confidence.EachSignalIsWorth | internal/metadata/confidence.go:5-8 | one agreement adds exactly 35 (ASIN), 15 (authors), 15 (ISBN) or 10 (narrators) to what the candidate scores by itself |
| Confidence.OriginalIsWorth | internal/metadata/confidence.go:22-54 | against any book: 35 for the ASIN, the fraction of its authors matched of 15, 15 for the ISBN, the fraction of its narrators matched of 10, on top of what the candidate scores alone, 100 at most |
| Confidence.TitleIsWorth | internal/metadata/confidence.go:57-83 | a title is worth 30 if it is the query but for case and blanks around, 22 if one holds the other, else the fraction of the query's words that overlap one of its own |
| Confidence.FieldsAreWorth | internal/metadata/confidence.go:108-141 | by itself a candidate scores the fraction of nine fields it fills, of 5 |
| Confidence.CountIsHits | internal/metadata/confidence.go:73-81 | what the loops count is the number of places that match, not of different words or names |
| Confidence.PerfectMatchIsCertain | internal/metadata/confidence.go:14-55 | agreement in every respect and all fields filled is 100 |
| Collector.Traverse | internal/metadata/sources/storytel.go:384-404 | appends to the caller's list what the specification finds, keeping what was there |
| Collector.CollectableInside | internal/metadata/sources/storytel.go:394-401 | being collectable, a statement about whole paths, can be decided one step at a time |
| Collector.FoundIff | internal/metadata/sources/storytel.go:384-404 | from any starting depth, a record is found at a path if and only if it is collectable there |
| Collector.FoundOnce | internal/metadata/sources/storytel.go:384-404 | nothing is found twice at one place |
| Collector.CollectsExactly | internal/metadata/sources/storytel.go:384-404 | on any tree, with any ranging over fields: exactly the objects of the shape with a title text that are at depth 64 at most and inside no other of the shape are collected, each once, under its own title and fields |
| Collector.ShapesAre | internal/metadata/sources/storytel.go:407-418 | what makes a record of each of the three sources |
| Collector.FieldOrderIrrelevant | internal/metadata/sources/storytel.go:400-402 | the order in which object fields are ranged over changes at most the order of the records |
| Collector.ShallowIsUnbounded | internal/metadata/sources/source.go:23-26 | on trees no higher than 64 the bound does not show |

## Left out

Assumptions, each a parameter or a hypothesis of the lemmas that need it:

- Postgres: each statement or transaction is one atomic step, so SKIP LOCKED never has a lock to skip. The collation is any strict total order, ILIKE any predicate, and timestamp text any exact round trip. Text that is not valid UTF-8, which the database refuses, is not singled out.
- Hashes: BLAKE2b and SHA-1 are any injective functions; what is proved is that the texts hashed determine what they stand for. Nanosecond times are unbounded integers, without the wrap-around of years after 2262.
- Floating point: scaled fractions are any function that is monotone, within the weight and all of it at a full match. Go's lower-casing, trimming, word splitting and case folding in the confidence formula are any functions whatsoever; for file extensions lower-casing is ASCII.
- Sources: what a source answers, and whether the rate limiter admits the call in time, are parameters. The JSON of cached candidates is an abstract encoding that need only round-trip where a lemma says so.

Not modelled:

- HTTP routing, error replies, the admin page, gRPC, configuration, the migration runner: plumbing without a state argument.
- Upstream HTTP, the field mapping of each source, external ids, `ApplyMatch`, tag and MP4 parsing, images, JWT: foreign code or easy members. Parsing a file is one outcome per entry.
- Catalog.QueryPage: holds the text that the two Go functions ListActiveAudiobooks and SearchAudiobooks repeat; the two call it.
- Facets.ListWithCounts: stands for the author and the genre query, which differ in the column only; Facets.HandleBrowse likewise for their handlers. Errors of the connection are not modelled there or in the catalog.
- Queue.JobTable.MarkCompleted: a write that fails, which the worker only logs, is not modelled, and neither are a failing claim, `enqueued_at`, and the removal of jobs with their book. A job whose final write failed looks to the protocol like one whose worker died.
- Handlers.ListAnswer: the names of the libraries are a parameter; cutting them out of their paths is left out.
- Drain.Drain: one drain at a time; overlapping drains are the runs of LeaseProtocol. Which source `process` asks and what it writes is an arbitrary outcome.
- Aggregator.SearchOne: a cache read that fails is a miss in the code, and a cache write that fails is ignored; the model's cache does not fail. The confidence is any function of the candidate, and Confidence.Score in Aggregator.SearchResult.
- Aggregator.ScheduleIndependent: goroutines are a step machine (look up, call and put, append under the lock); that a call and its put are one step is no loss, since no other goroutine reads that key. Candidates of equal confidence may come in another order, as in the code.
- Scan.Walk: the entries come as any sequence of distinct paths; that WalkDir visits a tree, and in which order, is not modelled. The times a row carries (scanned, created, updated) are left out.
- ScanRuns.WalkStopsExactly: assumes that no other library has a row at a path of the tree, as when library roots are disjoint.
- SearchPaging.SearchCompleteExactly: its failing half assumes that ILIKE finds the text of a timestamp by some query, as the real one does.
- Reconcile.Reconciled: says nothing of chapters and covers, which Written.WalkWrites does for a walk without error. After a walk that stopped between a book and its chapters, the signature is already stored and a later walk does not write them.
- ScanRuns.StableIdentity: libraries are not removed.
- Collector.Traverse: a converted record is its title and its fields; which fields a source copies is its own mapping.
