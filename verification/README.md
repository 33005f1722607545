# pg-web in Dafny

pg-web is an HTTP server that lives inside Postgres, with a command-line tool that pushes a directory
tree into it. This project models the rules around the I/O and proves what the system relies on:

- **From a file to an answer.** `PageScan`, `Paths`, `Push`, `Router` and `SnapshotCache` model the path of
  a page: file tree, segments, route pattern, transaction, table of patterns, snapshot, lookup. `EndToEnd`
  composes them: after a committed push, and once no reload notification is pending, a request that fills
  a page's captures, and that nothing else matches as specifically, is answered with that page's handler,
  template and captured values; and the server calls the handler iff its name passes (`HandlerCalls`).
  `Serve` models the choice between route, asset and not-found page, and `Answers` says of files, methods and
  URLs what requests get. `Redeployment` says what is left of the pages a tree no longer has.
- **Push as a transaction** (`Push`, `PublicAssets`, `PushTransaction`, `PushProperties`, `Retry`, `Pushers`,
  `PushCommand`): each attempt
  commits one well-defined new database or changes nothing; the new database matches the tree; any
  interleaving of retrying pushers keeps the ledger exact.
- **Migrations** (`Migrate`): overlapping, crashing and restarted runs, each deciding from a stale
  applied-set, still apply every file once and in order.
- **The SQL splitter** (`SqlLexer`, `SqlSplitter`, `SqlTokens`, `SqlResplit`, `SqlClassify`, `SqlProperties`): the
  five-flag loop computes a one-mode machine, which is a conventional token lexer wherever no text is lost; a
  file printed from statements is cut into these statements; a statement of any file splits into itself iff its
  text loses nothing; a statement bypasses the parser iff it begins with the words of one of four kinds;
  classification sees through exactly the leading comments that the stripping loop can walk through.
- **Text transformations** (`Rewrite`, `Fingerprint`, `Escape`, `AppName`): confluence, injectivity and round
  trips over unbounded strings.
- **Responses** (`Envelope`, `HttpResponse`): from what a handler returns to the response handed to the HTTP library.
- **Shutdown** (`Shutdown`): a timed state machine of the drain.

`Prelude`, `Text` and `Sorting` hold what the models share.

Loops that update variables are methods with invariants, each proved against a function; the theorems are
about those functions. Objects updated in place are classes (`SqlSplitter.Scanner`,
`PushTransaction.Transaction`, `Migrate.Database`, `SnapshotCache.Worker`). Protocols are state machines
over all finite runs.

## Where the code does not do what it says

Each of these is a theorem: the exact condition under which the code keeps the promise, or a run or an
input that breaks it.

- A dollar tag is measured in bytes and skipped in characters, so text after a non-ASCII tag is lost:
  `SqlLexer.LosslessIffDelimitersFit`, `SqlLexer.WideTagLosesText`. What is left of such a statement may lose
  more when it is split again: `SqlProperties.StatementIsFixpointIffFits`, `SqlProperties.WideTagIsNoFixpoint`.
- The end of a block comment is searched from its opening on, so a comment `/*/c*/` is taken to end after
  three characters and makes a trusted statement untrusted:
  `SqlProperties.PrefixIsTransparentIffClean`, `SqlProperties.CommentOnLosesTrust`.
- Push accepts pages whose handler names the server then refuses to call, under `about-us` for one:
  `PushProperties.PushedPageMayBeRefused`, `EndToEnd.PageIsServedIff`.
- What a handler asks for is not always in the response: a status outside 100 to 999 becomes 200, and
  denied or malformed headers and malformed cookies vanish: `HttpResponse.OutcomeIsReceived`.
- A literal directory name with a colon makes a pattern that does not parse back:
  `RouteRoundTrip.RouteParsesBackIffNoColon`. A capture name used twice keeps only its last value:
  `RouteRoundTrip.CapturesRecoverIffConsistent`.
- Handler names collide for directory names with a double underscore inside, with an underscore at their
  end, or that are a dollar sign before a valid capture name: `Paths.UnsafeNameCollides`; for no others:
  `Paths.HandlerNamesAreInjective`.
- Rows of equal specificity are answered in the order the database returns them:
  `RoutingProperties.OrderIrrelevantIffBestsAgree`.
- Template rewriting depends on the iteration order of a hash map iff a fingerprinted URL is itself an
  asset's URL: `Rewrite.OrderIrrelevantIffNoChains`, `PublicAssets.PushRewritesAreOrderIndependentIff`.
  Pushing a tree again in production may therefore change templates, exactly if it has such an asset:
  `PublicAssets.SecondPushChangesOnlyLedgerIff`, `PublicAssets.StylesheetIsMistaken`. A double quote in a file
  name can have the same effect: `PublicAssets.QuotedNameMakesOrderMatter`.
- A fingerprinted file without an extension is not recognised by the server:
  `Fingerprint.RecognisedIffExtension`.
- `docs/CACHING.md` says no torn state is ever served. A build reads routes, templates and environment in
  separate statements, so a commit between them gives a torn snapshot, though always with a reload
  pending, and only then: `SnapshotCache.TornSnapshotIsReachable`,
  `SnapshotCache.UninterruptedBuildIsNotTorn`, `SnapshotCache.StaleImpliesReloadPending`. A failed read is
  cached as an empty part with nothing pending, and stays until the next commit:
  `SnapshotCache.FailedReadSticks`, `SnapshotCache.CacheStaysUntilCommit`.

## Model

| member | source | states |
|---|---|---|
| `EndToEnd.PushedPageAnswers` | crates/pg_web_ext/src/router.rs:704-722 | after a committed push of a scanned tree, a request that fills a page's captures, and that no other page and no default row matches as specifically, is answered with exactly that page's handler, that page's template and the captured values |
| `EndToEnd.PageAnswersIffUnrivalled` | crates/pg_web_ext/src/cache.rs:117-135 | a page that owns its route is the most specific match in every listing of the rows iff no other page and no default row ties with it or beats it |
| `EndToEnd.RivalPageIff` | crates/pg_web_ext/src/router.rs:513-534 | the rivals among colon-free pages are those of the same method whose directory fits the request with as many literal names or more |
| `EndToEnd.RoutablePagesOwnTheirRoutes` | crates/pg_web_cli/src/paths.rs:285-298 | two pages of colon-free directories with one method and route are one page |
| `EndToEnd.PageKeepsItsRow` | crates/pg_web_cli/src/push.rs:586-606 | the row of a page that owns its route holds that page's own handler and template |
| `EndToEnd.PageIsServedIff` | crates/pg_web_ext/src/router.rs:757-762 | every pushed page has its handler and template in the database, and the server calls the handler iff every literal directory name is made of ASCII letters, digits, underscores and dollar signs and the whole name is at most 128 bytes |
| `EndToEnd.AnswerRecoversCaptures` | crates/pg_web_ext/src/router.rs:513-534 | the answer names exactly the page's captures, and gives each its value iff captures of one name were given one value |
| `EndToEnd.SomeRowAnswers` | crates/pg_web_ext/src/router.rs:704-722 | rivals or not, a request for a page is answered by the most specific match: a row of the tree with handler and template in place, or a default row push left alone |
| `EndToEnd.ServedPageAnswers` | crates/pg_web_ext/src/cache.rs:50-73 | the page answers in the same way through the cached snapshot, in every run of the cache protocol, whenever no reload is pending and the routes could be read |
| `EndToEnd.ListedRowIsTrustworthy` | crates/pg_web_cli/src/push.rs:268-286 | every row the server can read after a push is the tree's, with handler and template in place, or a default row push left alone |
| `Answers.PageFileAnswers` | crates/pg_web_cli/src/paths.rs:174-184 | after a committed push, a request that fills a file's directory, and that nothing else matches as specifically, is answered by that file's handler and template with status 200: GET and HEAD by a file named index, POST, PUT, PATCH and DELETE by files of these names |
| `Answers.CachedTableServes` | crates/pg_web_ext/src/cache.rs:50-73 | all that is said of the table built from the pushed rows holds of the worker's cached one, in every run, whenever no reload is pending and the routes could be read |
| `Answers.BuiltTableServes` | crates/pg_web_ext/src/cache.rs:117-135 | and of the table a build makes of these rows |
| `Answers.FallbackIsTheRootPage` | crates/pg_web_ext/src/router.rs:727-737 | the not-found route is the tree's _404 file at its root, under its own handler name and template, and there is none without such a file |
| `Answers.MissesAreNotFound` | crates/pg_web_ext/src/router.rs:141-191 | a request that no row matches, nor an asset if it is a GET or HEAD, gets that page with status 404, or the built-in one |
| `Answers.AssetIsServedIff` | crates/pg_web_ext/src/router.rs:163-178 | a pushed asset is served at its URL iff no row matches the URL but a suppressed health route |
| `Answers.HealthFollowsConfiguration` | crates/pg_web_ext/src/router.rs:267-283 | after a push a default health route is suppressed iff the configuration turns it off, or, where it is silent, the stored setting is "false" |
| `Answers.ToolAndServerAgreeOnProduction` | crates/pg_web_ext/src/settings.rs:26-44 | when the environment is configured, the tool fingerprints the assets iff the server then runs in production; when it is not, nothing is fingerprinted and the stored setting decides, production if there is none |
| `Serve.ServeRequest` | crates/pg_web_ext/src/router.rs:122-191 | OPTIONS, then the route, then the asset, then the not-found page |
| `Redeployment.NoForeignPageHandler` | crates/pg_web_cli/src/push.rs:684-714 | after a push no route outside the tree calls a handler of a name push gives to pages |
| `Redeployment.RemovedPagesAreGone` | crates/pg_web_cli/src/push.rs:684-714 | two trees pushed in turn: at a key the second has no page for there is a route iff there was a seeded one before both and the first had no page for it either, and it is that one |
| `Redeployment.SeededRows` | crates/pg_web_ext/src/schema.rs:261-271 | of the rows the extension starts with the two health routes survive a push that does not claim them, and the greeting does not |
| `Redeployment.NoRowDangles` | crates/pg_web_cli/src/push.rs:735-769 | every route of the tree, and any other that had its function before the push, has it after |
| `Redeployment.RemovedHandlersAreDropped` | crates/pg_web_cli/src/push.rs:735-769 | a page's handler that the tree has no more is dropped if the server could call it |
| `PageScan.GroupFiles` | crates/pg_web_cli/src/paths.rs:63-93 | the grouping loop succeeds only if every file name is allowed where it is, and then yields the grouping; it fails with a file that is not |
| `PageScan.GroupedMeaning` | crates/pg_web_cli/src/paths.rs:63-93 | the grouping lists each directory and stem of the tree once and holds, per key, its last template and handler file |
| `PageScan.BuildEntries` | crates/pg_web_cli/src/paths.rs:95-127 | one entry per key, in key order, or the error of a malformed directory |
| `PageScan.Scan` | crates/pg_web_cli/src/paths.rs:58-134 | a scan succeeds iff every file is named index, post, put, patch or delete, or _404 at the root, and every directory is well named, and then gives one entry per directory and stem, sorted by method and then by route |
| `PageScan.ScanCoversTree` | crates/pg_web_cli/src/paths.rs:58-134 | the entries of a scan are exactly those its keys stand for, as many as there are keys |
| `PageScan.EntryHasItsFiles` | crates/pg_web_cli/src/paths.rs:89-115 | an entry has a template iff its page has an HTML file, and reads template and handler from the last HTML and the last SQL file |
| `PageScan.NoHandlerIsOverwritten` | crates/pg_web_cli/src/paths.rs:306-319 | in a scanned tree with disciplined names, two entries with one handler function are one entry |
| `PageScan.NoTemplateIsOverwritten` | crates/pg_web_cli/src/paths.rs:321-329 | in any scanned tree, two entries with one template key are one entry |
| `Paths.ValidateCaptureName` | crates/pg_web_cli/src/paths.rs:258-280 | accepts exactly the ASCII identifiers of at most 63 bytes |
| `Paths.ParseSegmentMeaning` | crates/pg_web_cli/src/paths.rs:225-251 | a directory name is accepted iff bracket-free or one bracketed identifier, and the segment spells it back |
| `Paths.NameableIsAccepted` | crates/pg_web_cli/src/paths.rs:225-251 | every bracket-free name and every valid capture is accepted as itself |
| `Paths.ParsedSegmentsSpellTheDirectory` | crates/pg_web_cli/src/paths.rs:220-223 | parsing a whole directory keeps every component |
| `Paths.ParseStemMeaning` | crates/pg_web_cli/src/paths.rs:142-172 | a stem is accepted iff it is one of the six names, the fallback at the root only |
| `Paths.StemIsAllowedIff` | crates/pg_web_cli/src/paths.rs:142-172 | the file names that are allowed, spelled out |
| `Paths.HandlerNamesAreInjective` | crates/pg_web_cli/src/paths.rs:306-319 | directory and stem are determined by the handler name, the root fallback included, if no part contains a double underscore or ends in an underscore and no literal is a dollar sign before a valid capture name |
| `Paths.UnsafeNameCollides` | crates/pg_web_cli/src/paths.rs:306-319 | every name that breaks this discipline, whatever it is and whatever two names stand around it, gives its directory the handler name of another directory |
| `Paths.TemplatePathsAreInjective` | crates/pg_web_cli/src/paths.rs:321-329 | template keys determine directory and stem, for all names |
| `RouteRoundTrip.RouteParsesBackIffNoColon` | crates/pg_web_cli/src/paths.rs:285-298 | the stored pattern parses back to the directory's segments iff no literal name contains a colon |
| `RouteRoundTrip.SegmentsOfSpread` | crates/pg_web_ext/src/router.rs:538-540 | a request path has the same segments however many slashes surround them |
| `RouteRoundTrip.RequestMatches` | crates/pg_web_ext/src/router.rs:513-534 | a request that fills the captures matches the parsed pattern |
| `RouteRoundTrip.RequestMatchesIff` | crates/pg_web_ext/src/router.rs:513-534 | a request matches the stored pattern of a colon-free directory iff it has as many segments and the literal ones are themselves |
| `RouteRoundTrip.RequestRecoversCaptures` | crates/pg_web_ext/src/router.rs:513-534 | the match names exactly the directory's captures, and gives every capture its value iff equal names got equal values |
| `RouteRoundTrip.CapturesRecoverIffConsistent` | crates/pg_web_ext/src/router.rs:513-534 | all values come back iff positions of one name agree |
| `RouteRoundTrip.DistinctCapturesRecover` | crates/pg_web_ext/src/router.rs:513-534 | distinct capture names give every value back |
| `RouteRoundTrip.PathIsItsSegmentsSpread` | crates/pg_web_ext/src/router.rs:538-540 | every request path is its segments, in order, with runs of slashes before, between and after them |
| `Router.Parse` | crates/pg_web_ext/src/router.rs:479-511 | the parsing loop computes the parsed pattern, counts and first error included |
| `Router.ParseSegmentsMeaning` | crates/pg_web_ext/src/router.rs:479-511 | parsing succeeds iff every segment is colon-free or a colon and a name, and the result spells the pattern |
| `Router.Matches` | crates/pg_web_ext/src/router.rs:513-534 | the matching loop accepts exactly the requests that fit and returns their captures |
| `Router.CaptureIsLast` | crates/pg_web_ext/src/router.rs:513-534 | a captured name has the value at its last position |
| `Router.BuildRoutes` | crates/pg_web_ext/src/cache.rs:117-135 | the table holds, per method, the well-formed rows stably sorted by specificity |
| `Router.LookupRoute` | crates/pg_web_ext/src/router.rs:704-722 | the loop returns the first entry that fits |
| `Router.LookupFallback` | crates/pg_web_ext/src/router.rs:727-737 | the not-found page is what the pseudo-method answers at the root |
| `RoutingProperties.LookupIsMostSpecific` | crates/pg_web_ext/src/router.rs:704-722 | the first hit of the sorted table exists iff some stored row matches, and is the earliest of the matches with most static segments |
| `RoutingProperties.MostSpecificIsTheAnswer` | crates/pg_web_ext/src/router.rs:704-722 | conversely, whatever row is most specific is the one answered with |
| `RoutingProperties.NeverShadowed` | crates/pg_web_ext/src/cache.rs:128-135 | a matching row is never beaten by a pointwise less specific one |
| `RoutingProperties.OrderIrrelevantIffBestsAgree` | crates/pg_web_ext/src/cache.rs:87-135 | the answer is the same for every row order iff the most specific matches would answer alike |
| `Push.FingerprintAssets` | crates/pg_web_cli/src/push.rs:235-247 | in production the assets get their fingerprinted URLs and the rewrite map records them; otherwise nothing changes |
| `Push.UpsertAllMeaning` | crates/pg_web_cli/src/push.rs:586-606 | a run of upserts adds exactly its keys and leaves the other rows as they were |
| `Push.LastUpsertDecides` | crates/pg_web_cli/src/push.rs:586-606 | of several upserts of a key the last one's value is stored |
| `PushTransaction.Transaction.ApplyEntry` | crates/pg_web_cli/src/push.rs:547-609 | one entry runs its handler file or a synthesised handler, upserts its template and its route, and counts what it did; the tables afterwards exactly |
| `PushTransaction.Transaction.ApplyEntries` | crates/pg_web_cli/src/push.rs:267-270 | the loop over entries leaves the folded upserts |
| `PushTransaction.Transaction.ValidateHandler` | crates/pg_web_cli/src/push.rs:615-682 | refuses with the right reason exactly when the handler is missing, ambiguous or of another signature |
| `PushTransaction.Transaction.ValidateEntries` | crates/pg_web_cli/src/push.rs:272-276 | stops at the first faulty entry |
| `PushTransaction.Transaction.DeleteRoutes` | crates/pg_web_cli/src/push.rs:684-714 | deletes exactly the routes neither expected nor default, and counts them |
| `PushTransaction.Transaction.DeleteTemplates` | crates/pg_web_cli/src/push.rs:716-733 | deletes exactly the unexpected templates, and counts them |
| `PushTransaction.Transaction.DropHandlers` | crates/pg_web_cli/src/push.rs:740-769 | drops exactly the safe-named functions of the reserved shape that are not expected, and counts them |
| `PushTransaction.Transaction.UpsertAssets` | crates/pg_web_cli/src/push.rs:288-293 | leaves the folded asset upserts |
| `PushTransaction.Transaction.DeleteAssets` | crates/pg_web_cli/src/push.rs:935-949 | deletes exactly the unexpected assets, and counts them |
| `PushTransaction.Transaction.SyncSettings` | crates/pg_web_cli/src/push.rs:296-315 | writes the settings present in the configuration and no others |
| `PushTransaction.Transaction.RunPhases` | crates/pg_web_cli/src/push.rs:263-330 | all phases together reach the specified tables, and only if validation passes; an error is a refused statement or the first validation fault; the summary counts what was written and what was deleted |
| `PushTransaction.PushAttempt` | crates/pg_web_cli/src/push.rs:263-350 | one attempt, failing at any statement: a committed push makes the specified tables and sends one reload notification; an error or a dry run changes nothing and sends none |
| `PushProperties.RouteKeysMatchTree` | crates/pg_web_cli/src/push.rs:684-714 | after a push the routes are the tree's keys and, elsewhere, the rows whose handler name begins with pgweb._default_, those untouched |
| `PushProperties.ClaimedRoutesMatchTree` | crates/pg_web_cli/src/push.rs:586-600 | a claimed key has the row of the last entry claiming it |
| `PushProperties.TemplatesAndAssetsMatchTree` | crates/pg_web_cli/src/push.rs:716-733 | the stored template and asset keys are exactly the tree's |
| `PushProperties.TemplateContentsMatchTree` | crates/pg_web_cli/src/push.rs:564-584 | a stored template is the rewritten text of the last entry with its path |
| `PushProperties.StoredTemplatesAreRewritten` | crates/pg_web_cli/src/push.rs:564-571 | whatever order the hash map has, that text is the simultaneous rewriting, unless fingerprinted URLs are themselves keys |
| `PushProperties.AssetContentsMatchTree` | crates/pg_web_cli/src/push.rs:921-933 | a stored asset is the last scanned one with its URL |
| `PushProperties.SettingsMatchConfiguration` | crates/pg_web_cli/src/push.rs:296-315 | each configured setting takes the configured value, every other setting is kept |
| `PushProperties.DeploymentIsRecorded` | crates/pg_web_cli/src/push.rs:316-329 | the ledger gets one row more, with the host and the numbers of files and of migrations, up to the largest 32-bit integer |
| `PushProperties.AssetUrlsFollowEnvironment` | crates/pg_web_cli/src/push.rs:235-247 | the stored URLs are the scanned ones, fingerprinted iff the configured environment is production or prod |
| `PushProperties.DefinedFunctions` | crates/pg_web_cli/src/push.rs:547-563 | the functions after the handler files have run are those that were there, those a file defines, and one of its name for each entry that has only a template |
| `PushProperties.ValidatesIff` | crates/pg_web_cli/src/push.rs:615-682 | a push passes validation iff the handler of every entry is then the only function of its name, takes the request, and returns JSON, or text where there is no template |
| `PushProperties.HandlersMatchTree` | crates/pg_web_cli/src/push.rs:735-769 | no stale reserved handler survives; no function that is not one is dropped or changed unless a file redefines it |
| `PushProperties.PushedRoutesAreServableIff` | crates/pg_web_ext/src/router.rs:757-762 | every route of the tree has its handler with the right signature and its template, even after reconciliation, so the server serves it iff it accepts the handler's name |
| `PushProperties.PushedPageMayBeRefused` | crates/pg_web_cli/src/push.rs:615-682 | a tree of one page is pushed whatever its directory is called, and refused by the server iff the name is; "about-us" is refused |
| `HandlerCalls.CheckIdent` | crates/pg_web_ext/src/router.rs:560-577 | accepts exactly the names of at most 128 bytes made of letters, digits, underscores, dollar signs and one dot, with a letter or underscore in front |
| `HandlerCalls.SafeIdentIff` | crates/pg_web_ext/src/router.rs:560-577 | these names, character by character |
| `HandlerCalls.PageIsCallableIff` | crates/pg_web_ext/src/router.rs:560-577 | a page's handler name is accepted iff its literal directory names are identifier characters and it fits |
| `HandlerCalls.HyphenIsRefused` | crates/pg_web_ext/src/router.rs:560-577 | a hyphen in a directory name is enough to be refused |
| `PublicAssets.SecondPushChangesOnlyLedgerIff` | crates/pg_web_cli/src/push.rs:263-350 | for assets as scanned, no name with a double quote, and a server section: pushing a tree with them twice, onto whatever tables, with whatever pages and hash orders, is accepted the second time and changes nothing but the ledger, iff the push is not a production push or no asset's fingerprinted URL is another asset's URL |
| `PublicAssets.FingerprintedNeighbourIsMistaken` | crates/pg_web_cli/src/push.rs:863-877 | a scan violates that condition as soon as it has, next to any asset, a file whose URL is the asset's fingerprinted one |
| `PublicAssets.StylesheetIsMistaken` | crates/pg_web_cli/src/push.rs:863-877 | for one, a stylesheet next to a copy named with its hash |
| `PushProperties.RunsStoreTemplatesAlike` | crates/pg_web_cli/src/push.rs:564-571 | two runs with different hash-map orders store the same templates when no fingerprinted URL is itself a key |
| `Retry.WithRetryInner` | crates/pg_web_cli/src/retry.rs:40-71 | at most the budget of calls, one sleep between calls with the attempt's number, each call followed by what the retry decision says, and the exhaustion wrapper iff the last error is retryable |
| `Pushers.LedgerCountsLandedPushes` | crates/pg_web_cli/src/push.rs:263-355 | in every interleaving of retrying pushers the ledger grows by exactly the non-dry-run pushes that returned Ok, and every caller follows the retry discipline |
| `Pushers.LastCommitIsServed` | crates/pg_web_cli/src/push.rs:263-350 | at every moment all routes of the last committed push have their handler and template, and the server serves exactly those whose names it accepts |
| `PushCommand.Attempt` | crates/pg_web_cli/src/push.rs:263-350 | one attempt at the transaction is one step of the pushers' state machine, from any state the other pushers have left |
| `PushCommand.PushWithRetry` | crates/pg_web_cli/src/push.rs:263-355 | the retry loop over attempts is a run of that state machine, and returns what the machine says its caller got |
| `Migrate.Discover` | crates/pg_web_cli/src/migrate.rs:76-100 | the loop keeps exactly the .sql files and sorts them by name |
| `Migrate.DiscoveredMigrations` | crates/pg_web_cli/src/migrate.rs:76-100 | the migrations found are exactly the files with something before a final .sql, with their contents, in the order of their names |
| `Migrate.DiscoveryIgnoresListingOrder` | crates/pg_web_cli/src/migrate.rs:76-100 | the order of application does not depend on the order of the directory listing |
| `Migrate.Apply` | crates/pg_web_cli/src/migrate.rs:33-72 | a run alone applies exactly what was pending, in order, up to the first failing file, which the error names |
| `Migrate.MigrationsApplyOnceInOrder` | crates/pg_web_cli/src/migrate.rs:33-72 | in every interleaving of overlapping, aborted and restarted runs the committed files are a prefix of the pending ones, each once and in order; once any run returns Ok all of them are |
| `Migrate.LedgerStaysPrefix` | crates/pg_web_ext/src/schema.rs:89-95 | a ledger that is a prefix of the sorted files stays one |
| `SnapshotCache.StaleImpliesReloadPending` | crates/pg_web_cli/src/push.rs:331-347 | in every run, if any part of the cached snapshot, or of one being built, is older than the database, a reload notification is queued |
| `SnapshotCache.DrainingMakesCurrent` | crates/pg_web_ext/src/listen_router.rs:231-251 | taking all queued notifications leaves no stale snapshot, drops the snapshot iff a reload was among them, and keeps the invariant |
| `SnapshotCache.SettledSnapshotIsCurrent` | crates/pg_web_ext/src/cache.rs:79-178 | in every run, with no reload pending, all parts of the cached snapshot that could be read are of one version, the current one |
| `SnapshotCache.SettledRoutingFollowsLastPush` | crates/pg_web_ext/src/cache.rs:79-135 | with no reload pending, requests are routed to the most specific row of the last push if the routes could be read, and to nothing if they could not |
| `SnapshotCache.UninterruptedBuildIsNotTorn` | crates/pg_web_ext/src/cache.rs:50-65 | in every run, a snapshot installed without a commit since its request began is of one version |
| `SnapshotCache.CacheStaysUntilCommit` | crates/pg_web_ext/src/cache.rs:50-73 | in every run, a snapshot cached with nothing pending stays until the next commit, empty parts included |
| `SnapshotCache.TornSnapshotIsReachable` | crates/pg_web_ext/src/cache.rs:79-178 | for any two versions, a run in which the snapshot holds the routes of one and the templates of the other |
| `SnapshotCache.FailedReadSticks` | crates/pg_web_ext/src/cache.rs:109-115 | a run in which a failed read leaves an empty part cached with nothing pending |
| `SnapshotCache.Worker.GetSnapshot` | crates/pg_web_ext/src/cache.rs:50-65 | returns what is cached, or installs the snapshot built from three reads: an install step of the protocol |
| `SnapshotCache.Worker.Invalidate` | crates/pg_web_ext/src/cache.rs:69-73 | empties the cache |
| `SnapshotCache.Worker.ForwardOne` | crates/pg_web_ext/src/listen_router.rs:231-251 | one turn of the pump is a pump step of the protocol |
| `SqlLexer.MachineIsTokenLexer` | crates/pg_web_cli/src/check.rs:83-225 | from any mode, where no text is lost, the one-mode machine finishes the token it is in and then cuts where the token lexer cuts |
| `SqlLexer.BuffersArePieces` | crates/pg_web_cli/src/check.rs:83-225 | the buffers of a file that loses no text are the token lexer's statements |
| `SqlLexer.LosslessIffDelimitersFit` | crates/pg_web_cli/src/check.rs:140-168 | the buffers concatenate to the input iff every dollar delimiter taken is ASCII or ends the input |
| `SqlLexer.AsciiIsLossless` | crates/pg_web_cli/src/check.rs:83-225 | on ASCII no character is lost |
| `SqlLexer.WideTagLosesText` | crates/pg_web_cli/src/check.rs:140-168 | an input with a non-ASCII tag that loses text |
| `SqlLexer.DelimiterEndWindow` | crates/pg_web_cli/src/check.rs:229-241 | the look-ahead for a closing dollar, cut short anywhere, finds the same delimiter or none |
| `SqlResplit.PieceFits` | crates/pg_web_cli/src/check.rs:83-225 | every statement of a file that loses no text loses none on its own |
| `SqlLexer.PieceIsOneStatement` | crates/pg_web_cli/src/check.rs:83-225 | each statement, lexed alone, is one statement |
| `SqlSplitter.Scanner.Advance` | crates/pg_web_cli/src/check.rs:97-212 | one turn of the loop, with its four flags and dollar tag, is one move of the one-mode machine; so quote modes exclude each other, the comments and the dollar region |
| `SqlSplitter.Scanner.Turn` | crates/pg_web_cli/src/check.rs:97-217 | a turn hands out a buffer at a cut and loses none |
| `SqlSplitter.SplitSqlStatements` | crates/pg_web_cli/src/check.rs:83-225 | the whole loop returns the classified buffers of the machine, and where no text is lost those of the token lexer |
| `SqlTokens.PrintedFileIsSplit` | crates/pg_web_cli/src/check.rs:83-225 | a file printed from statements, each of complete strings, names, comments, dollar bodies and other characters and a semicolon, is cut into exactly these, whatever semicolons the tokens hold |
| `SqlClassify.FinalizeStatement` | crates/pg_web_cli/src/check.rs:244-297 | keeps a buffer iff more than whitespace and comments is in it, whole, and trusts it iff what is left, case ignored, begins with the words comment on, create extension, create index or create unique index |
| `SqlClassify.TrustedIff` | crates/pg_web_cli/src/check.rs:281-291 | a text that does not begin with whitespace has the tokens the source looks for iff it begins with these words, any whitespace between them and whitespace or the end behind them |
| `SqlClassify.StripLeadingComments` | crates/pg_web_cli/src/check.rs:250-276 | the probe loop terminates and strips leading whitespace and comments |
| `SqlProperties.SplittingIsFixpoint` | crates/pg_web_cli/src/check.rs:83-225 | for every file that loses no text, all ASCII files included, each statement it yields splits into itself with the same trust |
| `SqlProperties.StatementIsFixpointIffFits` | crates/pg_web_cli/src/check.rs:83-225 | whatever the file, also one that loses text, each statement it yields splits into itself with the same trust iff its own text loses nothing |
| `SqlProperties.WideTagIsNoFixpoint` | crates/pg_web_cli/src/check.rs:140-168 | a file with a non-ASCII tag whose only statement does not split into itself |
| `SqlProperties.PrefixIsTransparentIffClean` | crates/pg_web_cli/src/check.rs:244-297 | a prefix leaves presence and trust of every statement alone iff the stripping loop can walk through it |
| `SqlProperties.LeadKeepsClassification` | crates/pg_web_cli/src/check.rs:244-297 | whitespace and complete comments, none opening on a slash, neither hide a statement nor change its trust |
| `SqlProperties.SlashCommentIsComplete` | crates/pg_web_cli/src/check.rs:263-269 | the block comment that has a slash and a c for its body is complete |
| `SqlProperties.SlashCommentLosesTrust` | crates/pg_web_cli/src/check.rs:263-269 | and behind it every statement is kept and not trusted |
| `SqlProperties.CommentOnLosesTrust` | crates/pg_web_cli/src/check.rs:263-269 | so a statement that begins with "comment on" is trusted, and not behind that comment, whatever follows |
| `SqlProperties.CreateOfOthersIsParsed` | crates/pg_web_cli/src/check.rs:281-291 | whatever is created, unless it is an extension, an index or unique, is kept and not trusted, complete comments in front or not |
| `SqlProperties.CreateTableIsParsed` | crates/pg_web_cli/src/check.rs:281-291 | a table and a function for two |
| `Rewrite.RewriteAssetRefs` | crates/pg_web_cli/src/push.rs:906-919 | the loop, in whatever order the map iterates, is a sequence of replacements; without chains it is the simultaneous rewriting |
| `Rewrite.OnlyWholeSegmentsChange` | crates/pg_web_cli/src/push.rs:906-919 | the simultaneous rewriting changes whole quote-delimited segments only, each to what the map says, and changes every key but one that repeats its neighbour |
| `Rewrite.PassIsRewriteOfOne` | crates/pg_web_cli/src/push.rs:912-916 | one leftmost, non-overlapping replacement is the rewriting of one key, even where matches share a quote |
| `Rewrite.EveryOrderIsSimultaneous` | crates/pg_web_cli/src/push.rs:906-919 | every order of replacements gives the simultaneous rewriting when no new URL is itself a key |
| `Rewrite.OrderIrrelevantIffNoChains` | crates/pg_web_cli/src/push.rs:906-919 | all orders agree on all templates iff no new URL is itself a key |
| `Fingerprint.UnfingerprintInverts` | crates/pg_web_cli/src/push.rs:863-877 | hash and file name can be read back from the fingerprinted name in all three shapes |
| `Fingerprint.FingerprintIsInjective` | crates/pg_web_cli/src/push.rs:863-877 | for slash-leading URLs and hashes free of dots and slashes no two assets or versions share a URL |
| `Fingerprint.InjectivityNeedsItsConditions` | crates/pg_web_cli/src/push.rs:863-877 | families of collisions when the hash has a slash or the URL does not lead with one |
| `Fingerprint.RecognisedIffExtension` | crates/pg_web_ext/src/http.rs:42-50 | the server recognises what push emits iff the file has an extension, or is a hidden file named like a hash |
| `Fingerprint.RecognisedIffHashed` | crates/pg_web_ext/src/http.rs:42-50 | the server takes a name for a fingerprinted one iff it ends in at least eight hex digits and an extension, both after dots |
| `PublicAssets.PushRewritesAreOrderIndependentIff` | crates/pg_web_cli/src/push.rs:239-247 | the map a production push builds from scanned assets, no name with a double quote, gives the same templates in every order iff no asset's fingerprinted URL is another asset's URL |
| `PublicAssets.QuotedNameMakesOrderMatter` | crates/pg_web_cli/src/push.rs:906-919 | two scanned files, one with a double quote in its name, of which no fingerprinted URL is another's URL, and whose map gives different templates in its two orders |
| `PublicAssets.EveryAssetKeepsItsRow` | crates/pg_web_cli/src/push.rs:921-949 | a push stores as many asset rows as files were scanned, fingerprinted or not, each with its own content |
| `Escape.EscapeHtml` | crates/pg_web_ext/src/errors.rs:470-483 | the one-pass loop computes the character-wise escape |
| `Escape.SqlEscapeIsRustEscape` | crates/pg_web_ext/src/schema.rs:353-364 | five nested replacements equal the one-pass escaper on every string |
| `Escape.UnescapeInverts` | crates/pg_web_ext/src/errors.rs:470-483 | a decoder gives every text back |
| `Escape.EscapeIsInjective` | crates/pg_web_ext/src/schema.rs:353-364 | different texts escape differently |
| `Escape.EscapedIsSafe` | crates/pg_web_ext/src/schema.rs:353-364 | no markup character is left and every ampersand begins one of five entities |
| `Escape.EscapingTwiceIsHarmlessIffNothingToEscape` | crates/pg_web_ext/src/schema.rs:349-351 | escaping again changes the text iff it had something to escape |
| `AppName.ParseAnyTail` | crates/pg_web_cli/src/db.rs:62-82 | whatever follows "host=", verb and process id are parsed back |
| `AppName.RoundTripIffVerbIsPlain` | crates/pg_web_cli/src/db.rs:44-82 | the name parses back iff the verb does not contain the delimiter, for every u32 process id and every host |
| `AppName.TruncationKeepsVerbAndPid` | crates/pg_web_cli/src/db.rs:15-18 | cut at 63 bytes, the name still gives verb and process id exactly and a prefix of the host |
| `AppName.ToolNamesSurviveTruncation` | crates/pg_web_cli/src/db.rs:34-60 | so for every verb the tool connects with, every u32 process id and every ASCII host |
| `Envelope.ParseResponseEnvelope` | crates/pg_web_ext/src/router.rs:320-358 | the extraction computes the envelope of a value |
| `Envelope.CallHandler` | crates/pg_web_ext/src/router.rs:757-762 | a name that is not a safe identifier is refused before the database is asked |
| `Envelope.RenderRoute` | crates/pg_web_ext/src/router.rs:360-436 | the branches with their early returns give the handler's error or the outcome of its text; without an envelope that is the text itself on a raw route, and what the template renders of it, with the router's status and no headers or cookies, on a template route |
| `Envelope.RawRoutesAnswerAlikeIff` | crates/pg_web_ext/src/router.rs:360-436 | on raw routes the new contract answers a handler text as the earlier one did iff the text carries no envelope |
| `Envelope.TemplateRoutesAnswerAlikeIff` | crates/pg_web_ext/src/router.rs:360-436 | on template routes it does so for every template iff the text carries no envelope |
| `Envelope.PlainTextIsABody` | crates/pg_web_ext/src/router.rs:404-436 | on a raw route a text without an envelope is answered like a respond of that text |
| `Envelope.PlainObjectIsAContext` | crates/pg_web_ext/src/router.rs:404-436 | on a template route an object without the sentinel is answered like an envelope that has it for a context |
| `Envelope.ContextIsRouted` | crates/pg_web_ext/src/router.rs:366-400 | an envelope without a body has its template rendered on its context, an object or null, and otherwise an empty body, with its status, headers and cookies |
| `Envelope.RespondParsesBack` | crates/pg_web_ext/src/schema.rs:438-455 | what respond packs the parser unpacks, for all arguments, null and out-of-range ones included |
| `Envelope.RespondIsRouted` | crates/pg_web_ext/src/router.rs:360-395 | what respond was given, null and out-of-range arguments included, is what render_route returns, on raw and template routes |
| `Envelope.OnlyStringsAreGiven` | crates/pg_web_ext/src/router.rs:320-358 | of headers and cookies the strings are given and nothing else |
| `Envelope.StringArgumentsAreGiven` | crates/pg_web_ext/src/router.rs:320-358 | of headers and cookies that are all strings every one is given |
| `HttpResponse.Handle` | crates/pg_web_ext/src/http.rs:161-226 | the response branch computes status, headers, cookies and body of the response handed to the HTTP library; its body is the given one, but for HTML in development, unmarked and with a closing body tag, where the script stands before the last such tag |
| `HttpResponse.OutcomeIsReceived` | crates/pg_web_ext/src/http.rs:161-226 | exactly what that response has of an outcome: the status if it is one, else 200; the body, with the script before its last closing body tag if it is HTML in development, or for a HEAD its length; the headers that are neither denied nor malformed and no others; the well-formed cookies in order |
| `HttpResponse.RespondReachesClient` | crates/pg_web_ext/src/http.rs:161-226 | from respond to that response: what it has of the body, status, headers, content type and cookies a handler gave, whatever these arguments are |
| `HttpResponse.BodyIsLeftAloneIff` | crates/pg_web_ext/src/livereload.rs:219-241 | a body is left alone iff in production, marked already, or not a whole document |
| `HttpResponse.ScriptCanBeCutOut` | crates/pg_web_ext/src/livereload.rs:219-241 | cut out of the body again the script leaves the body that was given |
| `HttpResponse.InjectingTwiceIsOnce` | crates/pg_web_ext/src/livereload.rs:219-241 | the script is never injected twice |
| `HttpResponse.RedirectReachesClient` | crates/pg_web_ext/src/schema.rs:481-494 | the response to a redirect has an empty body and its cookies, its location iff one was given and is a header value, and its status, or the default one, iff that is a status |
| `HttpResponse.JsonReachesClient` | crates/pg_web_ext/src/schema.rs:499-513 | a JSON payload is sent as its own text in every environment, even one that contains the sentinel or looks like a document |
| `Shutdown.ShutdownIsBounded` | crates/pg_web_ext/src/worker.rs:252-283 | the drain arm ends the worker only after SIGTERM is observed and exactly when the budget is spent; the flag is observed within one poll; no worker outlives the budget |
| `Shutdown.NoSigtermNoDrainEnd` | crates/pg_web_ext/src/worker.rs:264-272 | without SIGTERM the drain arm never ends the worker |
| `Shutdown.NeverStuck` | crates/pg_web_ext/src/worker.rs:326-339 | a worker that has not ended can always poll, end or let time pass |
| `Shutdown.EveryRunEnds` | crates/pg_web_ext/src/worker.rs:264-283 | after the flag is observed every run is of bounded length, and a run that cannot be extended has ended within the budget |
| `Shutdown.DrainedWorkerEndsAtOnce` | crates/pg_web_ext/src/worker.rs:274-283 | in every run, once an unfinished worker has nothing left to serve, no time passes, the drain arm never wins, at most three steps are left, and a run that cannot be extended has ended by the serve arm |
| `Shutdown.StartupBudgetKillsIdleWorker` | crates/pg_web_ext/src/worker.rs:235-251 | with the budget armed at startup, as it once was, an idle worker ends after eight seconds |

## Left out

- Postgres itself: a transaction is one atomic step that commits or aborts, a primary-key clash aborts, and a statement may fail at any point. Its lexer and its snapshots are not modelled, nor how it reads a handler name that is interpolated unquoted, in the statements that create a synthesised handler, drop a stale one and call one: such a name is taken as it is spelled, without folding its case, cutting it at 63 bytes or refusing other characters.
- A handler file is the set of functions it creates or replaces; other statements in it, functions with default arguments, and Postgres refusing to replace a function with another signature are not modelled.
- `NOTIFY` is taken not to fail, as the source ignores its result, and a commit's outcome is taken to reach its caller.
- The LISTEN session is taken to be up: a reconnect does not invalidate the cache (crates/pg_web_ext/src/listen_router.rs:254-256).
- The gate in front of push that refuses or applies pending migrations (crates/pg_web_cli/src/push.rs:205-233) and the listing order of file-system walks; migrations committed by the gate stay when the push fails.
- Which database errors count as transient: one error stands for them (crates/pg_web_cli/src/retry.rs:77-94). The retried closure is a function from the attempt's number to its outcome in `Retry`, and a step of a shared state in `Pushers`.
- Texts of error messages: errors are values of a datatype.
- Tera, the JSON parser, the mime table, the hash and what the HTTP library accepts as header names and values are parameters; a JSON object is a map, so of response headers that differ in case only, which one is sent is not captured.
- The broadcast side of the listen router (subscribe, publish, preregister) and browser live reload.
- Which methods OPTIONS lists (crates/pg_web_ext/src/router.rs:122-136): what it would list is a parameter of `Serve.ServeRequest`. Failing lookups, request timeouts, role grants, `init`, `env`, `set_cookie`.
- Answers.FallbackIsTheRootPage: assumes that no seeded row uses the pseudo-method of not-found pages; the extension seeds none.
- What the HTTP library does with the response it is handed: it drops the body of a 204 or 304, and does not send most statuses below 200 as final ones.
- In SnapshotCache every change to routes, templates and environment is a push: a commit of something else sends no reload notification, and nothing is said about what the cache then holds.
- PublicAssets.PushRewritesAreOrderIndependentIff: for file names without a double quote, which a scan accepts too; `PublicAssets.QuotedNameMakesOrderMatter` shows that with one the equivalence fails.
- PublicAssets.SecondPushChangesOnlyLedgerIff: for file names without a double quote, likewise.
- Restoring a default health route once it is gone: the code only deletes.
- The loops over the rows of a result set and over hash maps take their elements in an arbitrary order.
- SnapshotCache.FailedReadSticks: what a template or environment read that fails does beyond leaving its part empty (the on-demand compile of a missing template) is not modelled.
- Shutdown.ShutdownIsBounded: assumes that every task yields; a handler that blocks the thread delays all timers.
- Paths.HandlerNamesAreInjective: Postgres may still fold together or cut off two names that differ.
- EndToEnd.PageIsServedIff: states when the server passes the name on to Postgres; a directory name with a capital letter passes, but Postgres would look for the folded name.
- HttpResponse.OutcomeIsReceived: error pages, asset responses and headers the HTTP library adds itself are not modelled.
