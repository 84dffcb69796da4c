# checkit core, modelled in Dafny

Check It! (caltechlibrary/checkit) reads a file of library item barcodes. It
logs in to Caltech's TIND catalog through Shibboleth and asks TIND for the
item record of each barcode, searching 1000 barcodes per request. It then
scrapes the holdings page of each record and writes a CSV spreadsheet: one row
per barcode, plus one row for every other copy of the item at the same
location that is not on the shelf.

This project models the core of that program and proves properties of the
model:

- `network.dfy` (module `Network`): the retry-with-backoff loop of
  `timed_request`, and the status-code classification of `net` with its
  bounded recursion on HTTP 429.
- `tind_query.dfy` (`TindQuery`): `grouper`, the search expression and AJAX
  payload of a chunk, the checks `_tind_ajax` makes on a reply, and the
  chunk-by-chunk collection of `_tind_json`.
- `tind_names.dfy` (`TindNames`): the title/author heuristics
  `title_and_author` and `first_author`.
- `tind_login.dfy` (`TindLogin`): the Shibboleth login loop of
  `_tind_session` and `_tind_request`, as specification functions.
- `tind.dfy` (`TindClient`): `filled_record`, the scraping of a holdings page
  (`_tind_holdings`), and the class `Tind`. Its two caches are fields updated
  by `records` and `holdings`, and its methods also run the login loop.
- `main_body.dfy` (`MainBody`): input filtering, the header-line check,
  reordering the records into input order, the output rows, and the output
  file name.
- `record.dfy` (`ItemRecords`) and `records.dfy` (`BaseRecords`): the two
  record classes, their constructors, equality, hashing, ordering and
  `field_title`.
- `access.dfy` (`Access`): credential resolution in `AccessHandler`.
- `pystr.dfy` (`PyStr`): the Python string operations the code relies on.
  `errors.dfy` (`Errors`): the exception kinds, plus Option and Result.

Everything outside the program is a parameter of the model:

- the HTTP status codes and Shibboleth replies;
- the AJAX replies and holdings pages;
- the keyring, the login dialog and the "try again?" answers;
- the name parser.

Each operation is proved correct for every behaviour of these parameters.
A parameter that is a plain function of its input answers the same input
the same way every time; where the code may call it twice with one input,
"## Left out" says what that leaves out.

Where the code and its comments or docstrings disagree, the model follows the
code:

- `net` with `polling` set turns 404/410 into NetworkFailure.
- Before a retry of the login, the code does not keep the rejected
  credentials out of the dialog (`RetryReoffersRejectedCredentials`).
- An uncached TIND id that appears twice in the input is fetched twice
  (`DuplicateIdFetchedTwice`).

## Model

| member | source | states |
|---|---|---|
| Network.BackoffPauses | checkit/network.py:102-108 | the pause after backoff round r is 10·r² seconds, one per round |
| Network.BackoffSchedule | checkit/network.py:104-108 | the five backoff pauses are 10, 40, 90, 160 and 250 seconds |
| Network.TimedRequest | checkit/network.py:68-111 | returns the first attempt that delivers, every earlier attempt having raised, after one backoff pause per three failures; after 18 failed attempts and 5 pauses it re-raises the first exception, not the latest |
| Network.Classify | checkit/network.py:178-207 | success iff the code is in [200,400); 429 is rate limiting; 404/410 give NoContent only without polling and NetworkFailure with it |
| Network.ClassifyTable | checkit/network.py:181-204 | each error kind arises from exactly the codes the code lists for it; every other code outside [200,400) gives NetworkFailure |
| Network.RateLimitPauses | checkit/network.py:191-197 | the pause at recursion depth d is 5·(d+1) seconds |
| Network.ErrorOf | checkit/network.py:178-207 | the error `net` returns for a final verdict: none for success, the kind for a failure, RateLimitExceeded after the last 429 |
| Network.Net | checkit/network.py:178-207 | at most 10 − recursing rate-limit pauses; no error iff the final status is in [200,400) |
| Network.NetSettlesAtFirstNon429 | checkit/network.py:191-198 | while replies are 429 below depth 10, `net` pauses 5, 10, … seconds and reports the verdict of the first other status |
| Network.NetGivesUpOnRateLimit | checkit/network.py:191-198 | 429 at every depth up to 10 ends in RateLimitExceeded after one pause per recursion |
| Network.NetSucceedsIff | checkit/network.py:178-207 | `net` succeeds iff the first non-429 status is in [200,400) |
| TindQuery.Chunked | checkit/tind.py:422-437 | the tuples `grouper` yields, characterised by `ChunkedShape` and computed by `Grouper` |
| TindQuery.ChunkedShape | checkit/tind.py:422-437 | for n > 0 the chunks are non-empty, at most n long, all but the last exactly n, ⌈|xs|/n⌉ of them, none for empty input, and their concatenation is the input |
| TindQuery.TwentyFiveHundredBarcodes | checkit/tind.py:243-247 | 2500 barcodes make three requests of at most 1000 barcodes |
| TindQuery.Grouper | checkit/tind.py:422-437 | the slicing loop yields exactly the chunks `Chunked` describes |
| TindQuery.SplitJoin | checkit/tind.py:248 | splitting an ' OR '-join of space-free codes at ' OR ' gives the codes back |
| TindQuery.SearchExpr | checkit/tind.py:248 | one chunk's search expression (`SearchExprNamesItsCodes`) |
| TindQuery.SearchExprNamesItsCodes | checkit/tind.py:248 | a one-code chunk is searched as the bare code, a longer one as '(' + join + ')', and the expression names exactly the chunk's codes |
| TindQuery.AjaxPayload | checkit/tind.py:287-292 | `_tind_ajax_payload(field, expr)`: one searchable column, ascending on column 0, search 'field:expr', length 1000, table crcITEM |
| TindQuery.ChunkPayload | checkit/tind.py:248-249 | the payload for one chunk, on the barcode field (`ChunkPayloadSearchesChunk`) |
| TindQuery.ChunkPayloadSearchesChunk | checkit/tind.py:287-292 | the payload searches 'barcode:' followed by the chunk's expression, sorted ascending on the barcode column, with page length 1000 ≥ chunk size |
| TindQuery.TindAjax | checkit/tind.py:310-328 | `_tind_ajax` on a decoded reply, characterised by `AjaxReplyHandling` |
| TindQuery.AjaxReplyHandling | checkit/tind.py:310-328 | NoContent gives []; other errors are raised; a missing `recordsTotal` or `data` gives InternalError; data is returned unchanged iff its length equals `recordsTotal`, otherwise ServiceFailure |
| TindQuery.CountMismatchFails | checkit/tind.py:322-326 | a reply announcing 5 records and carrying 4 is a ServiceFailure |
| TindQuery.Collected | checkit/tind.py:246-252 | the chunks' records in chunk order, or the first failure (`CollectedOkIff`, `CollectedErrIsFirstFailure`, `CollectedAppend`) |
| TindQuery.CollectedOkIff | checkit/tind.py:246-252 | collection succeeds iff every chunk's reply is good |
| TindQuery.CollectedErrIsFirstFailure | checkit/tind.py:246-252 | a failed collection raises the error of a chunk's reply |
| TindQuery.CollectedAppend | checkit/tind.py:246-252 | the records of two runs of chunks are concatenated in chunk order |
| TindQuery.CollectedErrPersists | checkit/tind.py:246-252 | once a chunk fails, later chunks change nothing |
| TindQuery.TindJson | checkit/tind.py:241-252 | sends one payload per chunk, in order, stopping at the first failure, whose error it returns; otherwise returns all chunks' records in order |
| TindNames.FirstSepFrom | checkit/tind.py:412 | the first position at or after p where `re.split`'s separator pattern matches |
| TindNames.Cleaned | checkit/tind.py:395-398 | drops one trailing '.', then a leading 'by' with the character after it (`TrailingPeriodIgnored`, `LeadingByIgnored`) |
| TindNames.NameFragment | checkit/tind.py:400-413 | the fragment handed to the name parser: the 'edited by' branch (`EditedByBranch` and the two `EditedByStops` lemmas) or the stripped first `re.split` segment (`FirstSegment`) |
| TindNames.FirstAuthor | checkit/tind.py:391-419 | '' for empty text (`EmptyAuthorText`), otherwise the parsed last name of `NameFragment`, or the fragment itself when parsing raises |
| TindNames.TitleAndAuthor | checkit/tind.py:368-388 | the title/author split, characterised by `SlashSplit`, `BracketBySplit`, `CommaBySplit`, `MarkerAtStartIgnored`, `NoMarkerKeepsWholeTitle` and `TitleIsPartOfInput` |
| TindNames.FirstSegment | checkit/tind.py:412-413 | the first segment is a prefix of the text containing no separator, followed by a separator or the end |
| TindNames.EmptyAuthorText | checkit/tind.py:393-394 | an empty author text gives '' |
| TindNames.TrailingPeriodIgnored | checkit/tind.py:395-396 | one trailing '.' does not change the name fragment handed to the name parser |
| TindNames.LeadingByIgnored | checkit/tind.py:397-398 | a leading 'by ' does not change the name fragment |
| TindNames.FirstSegmentOfPlainText | checkit/tind.py:412-413 | text without separator characters is its own first segment |
| TindNames.FirstSegmentBeforeSeparator | checkit/tind.py:412-413 | the first author ends at ',', ';', '...', ' and ' or ' [and] ' |
| TindNames.SeparatorMatches | checkit/tind.py:412 | each alternative of the separator pattern (",", ";", "...", a spaced "and" with or without brackets) matches where it occurs |
| TindNames.FirstSegmentAt | checkit/tind.py:412-413 | the first fragment ends at the first separator |
| TindNames.EditedByBranch | checkit/tind.py:395-410 | an "edited by" text without a trailing period is searched for "and", then "...", after its first ten characters |
| TindNames.EditedByStopsAtAnd | checkit/tind.py:401-405 | after 'edited by' the name is the text before the first 'and', stripped |
| TindNames.EditedByStopsAtEllipsis | checkit/tind.py:406-408 | after 'edited by', without 'and', the name is the text before '...', stripped |
| TindNames.PlainNameFragment | checkit/tind.py:412-413 | a plain name such as 'John Smith' is its own fragment |
| TindNames.TitleIsPartOfInput | checkit/tind.py:368-388 | the title is always a substring of the JSON title |
| TindNames.SlashTitleHasNoSlash | checkit/tind.py:374-377 | a title cut at ' / ' contains no ' / ' |
| TindNames.SlashSplit | checkit/tind.py:374-377 | 'T / A' splits into strip(T) and the first author of strip(A) |
| TindNames.BracketBySplit | checkit/tind.py:378-381 | without ' / ', 'T[by] A' splits into strip(T) and the first author of strip(A) |
| TindNames.CommaBySplit | checkit/tind.py:382-385 | otherwise the last ', by' splits, the author starting 5 characters after it |
| TindNames.MarkerAtStartIgnored | checkit/tind.py:374-388 | a ' / ', '[by]' or ', by' at index 0 does not count (each test is `> 0`): the whole string is the title and the author is '' |
| TindNames.NoMarkerKeepsWholeTitle | checkit/tind.py:386-388 | without any marker the title is the unstripped input and the author is '' |
| TindLogin.TindRequest | checkit/tind.py:230-238 | a failed request raises ServiceFailure; otherwise the content is returned |
| TindLogin.LoginSucceeded | checkit/tind.py:193 | the test `find('Forgot your password') <= 0` (`LoginSucceededIff`) |
| TindLogin.LoginSucceededIff | checkit/tind.py:193 | the login test passes iff 'Forgot your password' is absent or at index 0 |
| TindLogin.BytesReprMakesTestExact | checkit/tind.py:193 | on `str()` of bytes, which starts with "b'", the test passes iff the phrase is absent |
| TindLogin.LoginRound | checkit/tind.py:164-200 | a round aborts only with ServiceFailure or UserCancelled; a round that reached the SAML steps remembers non-empty credentials |
| TindLogin.Writes | checkit/access.py:69-74 | a round's keyring write as a list of at most one entry |
| TindLogin.Login | checkit/tind.py:162-200 | at least one round and at most one more than the retry answers; every round but the last was followed by a "yes" to retry; when another round follows, this round was rejected |
| TindLogin.AfterRound | checkit/tind.py:192-200 | the same bounds once a round has ended; another round follows only after this round was rejected |
| TindLogin.HandshakeResult | checkit/tind.py:205-227 | a page without the form gives IndexError, a raising or non-200 post gives ServiceFailure, and only 200 returns the last round's session |
| TindLogin.DialogCancelEndsLogin | checkit/tind.py:175-178 | cancelling the dialog raises UserCancelled in that round and keeps the remembered credentials |
| TindLogin.EmptyCredentialsEndLogin | checkit/tind.py:179-181 | an empty or missing user name or password raises UserCancelled, with no SAML request |
| TindLogin.StepFailureEndsLogin | checkit/tind.py:170-190 | a round fails with ServiceFailure iff the login page fails, or a SAML step made with accepted credentials fails |
| TindLogin.DeclinedRetryCancels | checkit/tind.py:194-200 | a rejected login that the user will not retry raises UserCancelled |
| TindLogin.LoggedInContent | checkit/tind.py:188-194 | a successful round hands on the second SAML answer, which passed the test |
| TindLogin.AskCredentials | checkit/tind.py:175 | `name_and_password` called with None for both values (`RetryReoffersRejectedCredentials`) |
| TindLogin.RetryReoffersRejectedCredentials | checkit/tind.py:195-197 | after a rejection, the next dialog is offered the rejected user name and password, and the keyring is not read |
| TindLogin.SessionOutcome | checkit/tind.py:154-227 | a session is returned iff the login succeeded and the form post answered 200; it is the last round's, within the available retry answers; a login error is raised unchanged |
| TindClient.FilledRecord | checkit/tind.py:124-151 | the filled record has class ItemRecord and the JSON barcode |
| TindClient.FilledRecordFields | checkit/tind.py:130-148 | each JSON value lands in its field; status and request count go to the undeclared `item_status`/`holds_count`, leaving `item_loan_status`/`item_holds_count` ''; the record URL is the prefix plus the record id |
| TindClient.FilledRecordTitle | checkit/tind.py:130-133 | title and author are `title_and_author` of the JSON title, and the title is part of it |
| TindClient.FilledRecordIdentity | checkit/tind.py:124-151 | two filled records are `==` iff their JSON barcodes agree |
| TindClient.Filled | checkit/tind.py:92-93 | one filled record per JSON record, in order |
| TindClient.CachedPart | checkit/tind.py:85 | at most one cached value per key |
| TindClient.Uncached | checkit/tind.py:86 | at most one entry per key |
| TindClient.UncachedMembers | checkit/tind.py:86 | the uncached list holds exactly the keys missing from the cache |
| TindClient.CacheSplitLength | checkit/tind.py:85-86 | every key lands in exactly one of the cached and uncached lists |
| TindClient.AllCachedPart | checkit/tind.py:85 | when every key is cached, the cached list has one value per key, in the keys' order |
| TindClient.CacheSplit | checkit/tind.py:85-86 | the cached and uncached lists split the keys: counts add up, the uncached ones are exactly the keys not in the cache, and none is uncached iff every key is cached |
| TindClient.CacheWith | checkit/tind.py:92-95 | the record cache after writing each record under its barcode in turn (`CacheWithContents`) |
| TindClient.CacheWithKeys | checkit/tind.py:92-95 | after caching, the keys are the old ones plus the records' barcodes |
| TindClient.CacheWithUntouched | checkit/tind.py:92-95 | an entry whose barcode no record carries is unchanged |
| TindClient.CacheWithLastWins | checkit/tind.py:92-95 | a record is cached under its barcode unless a later record has the same barcode |
| TindClient.CacheWithContents | checkit/tind.py:92-95 | after caching, the keys are the old ones plus the new barcodes; the last record of each barcode wins; other entries are unchanged |
| TindClient.AllCachedNoFetch | checkit/tind.py:84-87 | with every barcode cached the service is not asked, and the cached records come back in input order with the cache unchanged |
| TindClient.RecordsOutcome | checkit/tind.py:84-103 | the result and the record cache after `records`; characterised by `AllCachedNoFetch`, `RecordsFailure`, `RecordsOrder`, `RecordsCacheFetched` and `RecordsCacheKeys` |
| TindClient.RecordsFailure | checkit/tind.py:87-101 | a failed or empty fetch raises (ServiceFailure for an empty answer) and leaves the cache unchanged |
| TindClient.RecordsOrder | checkit/tind.py:85-96 | the result is the cached records in input order followed by the fetched records in reply order |
| TindClient.RecordsCacheFetched | checkit/tind.py:92-95 | every fetched record is cached under its own barcode, and old entries not fetched are unchanged |
| TindClient.RecordsCacheKeys | checkit/tind.py:84-103 | afterwards a barcode is cached iff it was cached before or came back in the reply |
| TindClient.RowsToHoldings | checkit/tind.py:349-357 | one Holding per table row from cells 9, 4, 7 and 3, IndexError for a short row (`HoldingsPageCases`) |
| TindClient.HoldingsResult | checkit/tind.py:337-359 | `_tind_holdings` on a fetched page (`HoldingsPageCases`, `TindHoldings`) |
| TindClient.HoldingsPageCases | checkit/tind.py:331-362 | NoContent, an empty page, "This record has no copies." or fewer than two tables give []; other errors are raised; otherwise one copy per body row of the second table, with IndexError for a short row |
| TindClient.TindHoldings | checkit/tind.py:331-362 | the scraping loop computes `HoldingsResult`: cells 9, 4, 7 and 3 give barcode, copy, status and location |
| TindClient.HoldingsOutcome | checkit/tind.py:106-121 | the result, the holdings cache and the fetched ids after `holdings`; characterised by `HoldingsSucceeded`, `HoldingsFailed` and `HoldingsFailedKeepsEarlier` |
| TindClient.FirstFailure | checkit/tind.py:116-117 | the position of the first uncached id whose page fails, all earlier ones succeeding |
| TindClient.Looked | checkit/tind.py:116-119 | the fetched holdings have exactly the ids as keys and each id's scraped holdings as value |
| TindClient.HoldingsOutcomeOk | checkit/tind.py:106-121 | a successful lookup fetched every uncached id and returns the cached holdings plus the fetched ones |
| TindClient.HoldingsSucceeded | checkit/tind.py:106-121 | the result's keys are exactly the given ids, with cached or freshly scraped holdings; exactly the uncached ids are fetched; every id is then cached; old entries are unchanged |
| TindClient.HoldingsFailed | checkit/tind.py:114-119 | a failure fetches a prefix of the uncached ids and raises the last one's error, with old entries unchanged |
| TindClient.HoldingsFailedKeepsEarlier | checkit/tind.py:116-119 | ids fetched before the failing one stay cached; the failing one is not cached, given that a page is fixed per id (see "## Left out") |
| TindClient.DuplicateIdFetchedTwice | checkit/tind.py:113-117 | an uncached id listed twice is fetched twice |
| TindClient.Tind.constructor | checkit/tind.py:71-76 | both caches start empty |
| TindClient.Tind.Records | checkit/tind.py:84-103 | the result and the new record cache are `RecordsOutcome` of the old cache; the holdings cache is unchanged |
| TindClient.Tind.CacheRecords | checkit/tind.py:92-96 | caches each filled record under its barcode, in order, and returns them |
| TindClient.Tind.Holdings | checkit/tind.py:106-121 | the result, the new holdings cache and the ids fetched are `HoldingsOutcome` of the old cache; the record cache is unchanged |
| TindClient.Tind.FetchHoldings | checkit/tind.py:116-119 | fetches the uncached ids in turn, caching each result, up to and including the first failure |
| TindClient.Tind.TindSession | checkit/tind.py:154-227 | the session, the handler's remembered credentials and the keyring writes are `SessionOutcome` of the old credentials |
| TindClient.Tind.LoginAttempt | checkit/tind.py:164-200 | one pass of the loop ends as `LoginRound` says, updating the handler's credentials |
| MainBody.BarcodeForms | checkit/main_body.py:203-204 | a barcode is exactly an all-digit string or one starting with 'nobarcode' |
| MainBody.IsBarcode | checkit/main_body.py:203-204 | `is_barcode`: non-empty and all digits or starting with 'nobarcode' (`BarcodeForms`) |
| MainBody.CleanLine | checkit/main_body.py:209 | the cleaned line is no longer than the line and neither starts nor ends with ',' |
| MainBody.FileContainsBarcodesIff | checkit/main_body.py:207-213 | the file passes iff its first or its second cleaned line is a barcode |
| MainBody.FileContainsBarcodes | checkit/main_body.py:207-213 | `file_contains_barcodes` on the file's lines; characterised by `FileContainsBarcodesIff` and `EmptyFileHasNoBarcodes` |
| MainBody.EmptyFileHasNoBarcodes | checkit/main_body.py:207-213 | an empty file does not pass |
| MainBody.ReadBarcodesAsWritten | checkit/main_body.py:135 | the comprehension raises IndexError iff some CSV row is empty |
| MainBody.BlankRowBreaksRead | checkit/main_body.py:135 | a file ending in a blank line fails with IndexError |
| MainBody.ReadBarcodes | checkit/main_body.py:135 | the barcode list holds only barcodes, at most one per row |
| MainBody.ReadBarcodesAgree | checkit/main_body.py:135 | without blank rows, the corrected read equals the comprehension's result |
| MainBody.ReadBarcodesMembership | checkit/main_body.py:135 | a string is read iff it is a barcode and the first cell of some row |
| MainBody.FirstWithBarcode | checkit/main_body.py:154 | None iff no record has the barcode; otherwise the earliest record that has it |
| MainBody.ReorderRecords | checkit/main_body.py:152-155 | one entry per input barcode: the first record with that barcode, or None |
| MainBody.ReorderedBarcode | checkit/main_body.py:152-155 | a reordered entry carries the barcode it stands for |
| MainBody.Header | checkit/main_body.py:39-49 | the header is the nine column titles in order, from 'Barcode' to 'Holdings total' |
| MainBody.RowForRecord | checkit/main_body.py:216-217 | one value per column, in column order |
| MainBody.RowForRecordCells | checkit/main_body.py:39-49 | under each title sits the field it names, and the last column counts the copies |
| MainBody.RowForMissing | checkit/main_body.py:220-222 | the barcode followed by 'n/a' in the other eight columns |
| MainBody.OtherCopies | checkit/main_body.py:189-190 | exactly the copies at the record's location, with another barcode and not 'on shelf' |
| MainBody.OtherCopiesAppend | checkit/main_body.py:189-190 | the comprehension keeps the copies' order: filtering a concatenation filters each part in turn |
| MainBody.OtherCopiesCount | checkit/main_body.py:189-190 | one entry per qualifying copy: a qualifying copy occurs as often as in `copies`, any other copy not at all |
| MainBody.ExtraRecordAsWritten | checkit/main_body.py:193-195 | the copy gets the other barcode; the status goes to the attribute `status`, and `item_status` stays the primary's |
| MainBody.ExtraRowRepeatsPrimaryStatus | checkit/main_body.py:193-196 | as written, an extra row is the primary row with only the barcode changed |
| MainBody.ExtraRowHidesCopyStatus | checkit/main_body.py:193-196 | an on-loan copy is shown as 'on shelf' when the primary item is on the shelf |
| MainBody.ExtraRecord | checkit/main_body.py:193-195 | the copy carries the other copy's barcode and status |
| MainBody.ExtraRowShowsCopy | checkit/main_body.py:193-196 | an extra row differs from the primary row only in the Barcode and Status columns, which show the other copy |
| MainBody.ExtraFor | checkit/main_body.py:192-194 | the record of an extra row: `ExtraRecordAsWritten` as the code builds it, or the corrected `ExtraRecord` |
| MainBody.ExtraRows | checkit/main_body.py:191-195 | one row per other copy, in order, with that copy's barcode; as written each row is otherwise the record's own row, Status included; corrected it shows the copy's status |
| MainBody.BlockFor | checkit/main_body.py:184-195 | a missing record gives one missing-row; a record gives its own row first, then one row per other copy (as written or corrected) |
| MainBody.Blocks | checkit/main_body.py:183 | one block per input barcode, in input order |
| MainBody.BlockStartsWithBarcode | checkit/main_body.py:184-189 | every block starts with a full row for its own barcode |
| MainBody.OutputShape | checkit/main_body.py:183-196 | the header comes first, then at least one row per input barcode, exactly one when no record was found |
| MainBody.ConcatLengths | checkit/main_body.py:184-196 | blocks of at least one row give at least one row each |
| MainBody.WriteSheet | checkit/main_body.py:181-195 | the rows written are `OutputRows` of the same variant: the header, then each barcode's block in input order |
| MainBody.WriteBlock | checkit/main_body.py:184-195 | the rows written for one barcode are `BlockFor` of the same variant |
| MainBody.OutputRows | checkit/main_body.py:181-195 | the sheet: the header, then the blocks in input order; its shape is `OutputShape`, and `SheetVariants` compares the two variants |
| MainBody.BlockVariants | checkit/main_body.py:184-195 | the block the code writes and the corrected one have the same rows and the same record row, and differ at most in the Status column |
| MainBody.ConcatSameButStatus | checkit/main_body.py:183-195 | blocks that differ at most in the Status column concatenate to sheets that do too |
| MainBody.SheetVariants | checkit/main_body.py:181-195 | the two sheets have the same rows and differ at most in the Status column; both start with the header, and block by block the record rows agree, so only extra rows can differ |
| MainBody.CopiesOf | checkit/main_body.py:187 | `holdings.get(rec, [])`, keyed by the record's barcode |
| MainBody.OutputName | checkit/main_body.py:177-178 | the name ends in '.csv'; it is unchanged iff it already did, and otherwise '.csv' is appended |
| MainBody.OutputNameIdempotent | checkit/main_body.py:177-178 | naming twice is naming once |
| ItemRecords.NewItemRecord | checkit/record.py:63-79 | all sixteen declared attributes are '', and `item_status`, `holds_count` and `status` are unset |
| ItemRecords.Repr | checkit/record.py:82-83 | `repr`: '<' + class name + ' ' + barcode + '>' |
| ItemRecords.Eq | checkit/record.py:90-92 | `==` on class and barcode (`EqIsIdentityOnClassAndBarcode`, `EqIgnoresOtherFields`) |
| ItemRecords.Ne | checkit/record.py:95-96 | the negation of `==` (`EqIsIdentityOnClassAndBarcode`) |
| ItemRecords.HashKey | checkit/record.py:86-87 | the hash is the barcode's (`EqIsIdentityOnClassAndBarcode`) |
| ItemRecords.Less | checkit/record.py:111-112 | `<` on `repr` (`LessIsBarcodeOrder`, `PrefixBarcodeSortsAfter`) |
| ItemRecords.LessEq | checkit/record.py:103-104 | `<=` on `repr` (`LessIsBarcodeOrder`) |
| ItemRecords.EqIsIdentityOnClassAndBarcode | checkit/record.py:86-96 | `==` is an equivalence on class and barcode, `!=` is its negation, and equal records hash equal |
| ItemRecords.EqIgnoresOtherFields | checkit/record.py:90-92 | any two records of one class with the same barcode are `==`, whatever their other fields hold |
| ItemRecords.LessIsBarcodeOrder | checkit/record.py:103-112 | for one class, `<` and `<=` on `repr` are barcode order, unless one barcode is a proper prefix of the other |
| ItemRecords.PrefixBarcodeSortsAfter | checkit/record.py:82-83 | '12' sorts after '123' under `<`, since '>' follows the digits |
| ItemRecords.FieldTitle | checkit/record.py:115-120 | a non-empty title exactly for the sixteen known attribute names, None otherwise |
| BaseRecords.NewBaseRecord | checkit/records.py:35-53 | the listed fields are ''; `requester_name` and `date_requested` are not set |
| BaseRecords.Eq | checkit/records.py:64-67 | true iff barcode, requester name and request date agree; false at once on different barcodes; AttributeError iff an unset attribute is reached before a difference |
| BaseRecords.Ne | checkit/records.py:70-71 | the negation of `==`, raising when it raises |
| BaseRecords.HashKey | checkit/records.py:60-61 | defined iff requester name and request date are set |
| BaseRecords.EqualRecordsHashEqual | checkit/records.py:60-67 | records that compare equal hash equal |
| BaseRecords.FreshRecordsCannotBeCompared | checkit/records.py:35-67 | comparing a fresh record with one of the same barcode raises AttributeError |
| BaseRecords.Repr | checkit/records.py:56-57 | `repr`: '<BaseRecord ' + TIND id + '>' |
| BaseRecords.Less | checkit/records.py:86-87 | `<` on `repr` (`OrderIsByTindId`, `SameTindIdUnordered`) |
| BaseRecords.LessEq | checkit/records.py:78-79 | `<=` on `repr` (`OrderIsByTindId`) |
| BaseRecords.OrderIsByTindId | checkit/records.py:78-87 | `<` and `<=` order by TIND id, not by the fields `==` compares |
| BaseRecords.SameTindIdUnordered | checkit/records.py:56-87 | records with the same TIND id are not `<` each other, even when `==` says they differ |
| Access.Resolve | checkit/access.py:53-77 | what `name_and_password` decides, characterised by `ExplicitArgumentsOverride`, `KeyringPrecedence` and `KeyringWrites` |
| Access.ExplicitArgumentsOverride | checkit/access.py:57-65 | explicit non-empty arguments are offered to the dialog and the keyring is not consulted |
| Access.KeyringPrecedence | checkit/access.py:57-65 | None arguments fall back to the remembered values; the keyring is consulted iff enabled and a value is missing or empty, and it replaces both values only when it knows a user |
| Access.KeyringWrites | checkit/access.py:66-74 | the dialog's answer is returned; a cancel writes nothing; an accepted answer is written exactly when the keyring is enabled and holds different credentials, and the write stores the returned values |
| Access.AccessHandler.constructor | checkit/access.py:35-39 | keeps the given user, password and keyring flag |
| Access.AccessHandler.NameAndPassword | checkit/access.py:53-77 | returns what `Resolve` decides; the remembered values change only on a non-cancelled dialog, and then become the returned ones |

## Findings

| source | as written | input that shows it | evidently intended | confidence | as-written member | corrected member |
|---|---|---|---|---|---|---|
| checkit/main_body.py:135 | `row[0]` is read for every CSV row, and a blank line is an empty row, so reading raises IndexError | a barcode file whose last line is blank: rows `[["12345"], []]` | blank lines are skipped | not executed; high (csv.reader yields [] for a blank line) | MainBody.ReadBarcodesAsWritten | MainBody.ReadBarcodes |
| checkit/main_body.py:195 | the extra row's record gets `status`, but the Status column reads `item_status`, so the row repeats the primary item's status | primary item 'on shelf' at SFL; another copy 'on loan' at SFL | the extra row shows the other copy's status | not executed; high | MainBody.ExtraRecordAsWritten | MainBody.ExtraRecord |

The sheet functions and `MainBody.WriteSheet` take the variant as a
parameter: `AsWritten` builds the extra rows as main_body.py:192-195 does,
`Corrected` with `ExtraRecord`. `MainBody.SheetVariants` shows that the two
sheets differ only in the Status column of the extra rows. The corrected read `ReadBarcodes` agrees with the code on
every file without blank lines (`ReadBarcodesAgree`).

## Left out

- I/O and the GUI are left out. That covers file selection, the existence,
  readability and lock checks, renaming an existing output, CSV reading and
  writing, and the alert/inform/warn messages. The input arrives as lines or
  CSV rows, and the output is the list of rows.
- The first checks of `_do_main_work` are left out: `network_available`,
  which probes a socket, and a missing input file.
- The thread wrapper `run`, which maps exceptions to messages, is left out.
- checkit/files.py is not part of this model.
- HTML parsing is not modelled:
  - a holdings page arrives as its tables of cell texts;
  - the SAML form post arrives as a `Handshake` outcome;
  - `tree is None` and `xpath(...) is None` never hold, and an empty xpath
    result raises IndexError.
- `HumanName(...).last` is an oracle `lastName`, and its exception path falls
  back to the fragment.
- In the cache proofs, `filled_record`'s title split is a parameter
  (`TitleSplit`). `FilledRecordTitle` ties it to `title_and_author`.
- `Tind.Holdings`: `_tind_holdings(id)` is the parameter `fetch`. `TindHoldings`
  gives the page-to-holdings part.
- TindClient.HoldingsFailedKeepsEarlier: `fetch` gives one fixed answer per id,
  so the model cannot express a page that succeeds on one call and fails on
  the next (a timeout, or 429s until the limit). `to_get` keeps duplicates
  (tind.py:113). For ids `[x, x]`, the code can cache `x` on the first fetch
  (tind.py:119) and then raise on the second (tind.py:117), leaving the
  failing id cached. "The failing one is not cached" holds only when the
  failing id was not fetched successfully earlier in the same call.
- `Tind.TindSession`: the keyring, the dialog and the Shibboleth replies are
  oracles indexed by round. A keyring write is returned as data rather than
  performed.
- `TindLogin.Login`: the answers to "Incorrect login. Try again?" are a finite
  list. A rejection past its end counts as "no", which bounds the loop; the
  code would ask again for ever.
- The exceptions `net` raises or returns from the request itself (timeouts,
  connection errors, bad URLs) are not modelled. That includes the
  ConnectionResetError branch, which reads an undefined name. `Net` starts
  from the status code, and a failed post in the login hand-off is
  `PostRaised`.
- `timed_request` records its pauses instead of sleeping, and `net` likewise.
- `__gt__`/`__ge__` of both record classes are not modelled. They call
  undefined global names and would raise NameError.
- `Tind._cache` and `Tind._holdings` are class attributes in the code, shared
  by every `Tind` object. In the model each object has its own caches, which
  start empty.
- The `Tind` constructor also logs in. Here the login is the separate method
  `TindSession`.
- `_do_main_work` calls `tind.holdings(records)` with record objects where
  TIND ids are expected. The output model keys holdings by the record's
  barcode, which is what `ItemRecord`'s hash and equality use (`CopiesOf`).
- `MainBody.RowForRecord` requires `item_status` to be set. Every record the
  program writes comes from `filled_record`, which sets it; another record
  would raise AttributeError.
- JSON values are strings, and a missing JSON key in `filled_record`
  (a KeyError) is not modelled.
- `_tind_ajax` decodes the reply with `response.json()` (tind.py:317), which
  raises on a body that is not JSON; `AjaxReply` is the reply already
  decoded, so that exception is not modelled.
- RequestError is raised by `net` but is not defined in checkit/exceptions.py
  (a NameError at run time). It is kept as an error kind.
- Whitespace for `strip` and `\s` is space, \t, \n, \r, \v and \f, and `isdigit` accepts
  only '0'-'9'. Python's other whitespace (\x1c-\x1f, \x85 and the Unicode
  spaces) and its Unicode digit classes are not modelled.
- `str(content)` of a response is taken as the given text. Its "b'" prefix
  is used only in `BytesReprMakesTestExact`.
- TindNames.FirstAuthor: `re.split` is modelled by an explicit separator
  scan (`SepAt`), covering `\s[and]\s`, `\sand\s`, `\s[and\s`, `\sand]\s`,
  `,`, `...` and `;`.
