# rss-sub in Dafny

rss-sub is a small RSS subscription service. A job, meant to run daily to judge by its "today" filter,
goes through a list of feed URLs. For each feed it fetches the document and cuts it into `<item>` elements
with a lazy regular expression. It reads each item's title, link and pubDate, and it
keeps the posts whose pubDate falls on today's local date. It sends one email per such
post, with subject `<title> - from <feed url>` and the link as body. A failure of one
feed is caught and logged, and the run goes on with the next feed.

There are two variants of the job:

- `src/index.ts` checks a fixed list of fifteen feeds and only trims each field.
- `valtown/rss-sub/cron_rss_sub.tsx` reads the feed list from a sqlite table. It removes
  a CDATA opener at the very start and a CDATA closer at the very end of a field before
  trimming it.

A third file, `valtown/rss-sub/http_rss_sub.tsx`, is the HTTP endpoint that maintains
that table: `/add`, `/delete` and `/get` behind a bearer-token check.

The project has these modules:

| file | module | what it holds |
|---|---|---|
| `options.dfy` | `Options` | the option type |
| `text.dfy` | `Text` | `String.prototype.trim`, with the exact ECMAScript white-space set, and prefix/suffix tests |
| `scan.dfy` | `Scan` | the regular expressions `/open[\s\S]*?close/g` and `/open([\s\S]*?)close/` as explicit searches, and a declarative description of the global lazy match (`GlobalMatches`) that the search is proved to meet |
| `feed.dfy` | `Feed` | the pure pipeline shared by both variants: items, fields, posts and the "published today" filter, where the field normaliser is a parameter |
| `notify.dfy` | `Notify` | the effectful part shared by both variants, described below |
| `index_feed.dfy` | `IndexFeed` | the fixed-list variant |
| `cron_feed.dfy` | `CronFeed` | the registry-driven variant and `stripCDATA` |
| `registry.dfy` | `FeedRegistry` | the HTTP handler over a `Registry` object whose `urls` set stands for the `feed_urls` table |

`notify.dfy` has a `Mailer` object. Its outbox receives the emails sent, and its log gets
one report per feed. Its methods are proved against the functions `RunEmails` and
`RunLog`, which describe a whole run.

The outside world is passed in as data:

- A `FeedWorld` per URL gives three things: what fetching the URL yields, the instant
  `new Date()` reads while that feed is parsed, and the index of the first email of that
  feed whose send throws, if any.
- A `Calendar` stands for JavaScript's `Date`. Its `parse` is `new Date(text)`, with None
  for an Invalid Date. Its `day` maps an instant to that day's local midnight
  (`setHours(0, 0, 0, 0)`).
- `HttpHandler` takes a `fault` parameter: when set, sqlite fails the request's one
  statement with that message.

Some behaviours of the code that the model keeps as written:

- The fetch's HTTP status is never checked, so an error page is parsed like a feed.
- `src/index.ts` only trims fields, so it keeps CDATA markup
  (`IndexFeed.IndexFieldKeepsCdata`).
- A post is kept if and only if its pubDate falls on today's local day.
- Only RSS `<item>` elements are read.
- Input without a literal `<item>` gives no posts.
- A duplicate `/add` returns status 500.

## Model

| member | source | states |
|---|---|---|
| Text.TrimStart | src/index.ts:66-68 | the result is a suffix of the input, every character dropped is white space, and the result does not start with white space |
| Text.TrimEnd | src/index.ts:66-68 | the result is a prefix of the input, every character dropped is white space, and the result does not end with white space |
| Text.Trim | src/index.ts:66-68 | `trim()` never lengthens the text, leaves no white space at either end, and returns "" only for all-white-space input |
| Text.TrimIsSlice | src/index.ts:66-68 | the trimmed text is one contiguous slice of the input, with only white space before and after it |
| Text.TrimKeeps | src/index.ts:66-68 | text with non-space characters at both ends is returned unchanged |
| Text.TrimIdempotent | src/index.ts:66-68 | trimming twice is trimming once |
| Text.TrimKeepsFront | valtown/rss-sub/cron_rss_sub.tsx:82-84 | any non-empty run of white space before a non-space run is removed, and that run becomes the front of the result |
| Text.TrimKeepsBack | valtown/rss-sub/cron_rss_sub.tsx:82-84 | any non-empty run of white space after a non-space run is removed, and that run becomes the end of the result |
| Scan.Find | valtown/rss-sub/cron_rss_sub.tsx:50 | the search returns the first occurrence at or after the start index, or None exactly when there is none |
| Scan.NextMatch | valtown/rss-sub/cron_rss_sub.tsx:56-58 | one regex search returns the leftmost start at which the lazy pattern can match, ended at the first closer after the opener, or None when no index can start a match |
| Scan.LeftmostIsFirstOpener | src/index.ts:61-63 | the leftmost match begins at the first opener in the text; no earlier opener exists at all |
| Scan.MatchSpans | valtown/rss-sub/cron_rss_sub.tsx:50 | each reported match lies within the text, starts at or after the scan position, and is a lazy match |
| Scan.MatchAll | src/index.ts:55 | one text per match, each starting with the opener and ending with the closer |
| Scan.MatchSpansAreGlobalMatches | valtown/rss-sub/cron_rss_sub.tsx:50 | the scan reports exactly the matches of the global search: each is leftmost from where the previous one ended, and nothing matches after the last |
| Scan.SpansOrdered | src/index.ts:55 | global matches are disjoint and in document order |
| Scan.MatchText | src/index.ts:55 | a matched text starts with the opener, ends with the closer, and contains no other closer after the opener |
| Scan.Capture | src/index.ts:61-63 | the capture is None exactly when no index can start a match |
| Scan.CaptureBetweenFirstOpenerAndCloser | valtown/rss-sub/cron_rss_sub.tsx:56-58 | the captured text lies between the first opener and the first closer after it |
| Feed.Items | src/index.ts:55 | every item starts with `<item>` and ends with `</item>` |
| Feed.ItemShape | src/index.ts:55 | every item starts with `<item>`, ends with `</item>`, and contains no other `</item>` |
| Feed.ItemsInDocumentOrder | valtown/rss-sub/cron_rss_sub.tsx:50 | the items are the texts of disjoint slices of the document, in document order |
| Feed.NoItemOpenerNoItems | src/index.ts:55 | a document without a literal `<item>` yields no items; this is the `\|\| []` fallback |
| Feed.Field | src/index.ts:61-68 | a field whose opening tag is absent is the empty string; `Feed.FieldIsCapture` gives the matched case |
| Feed.FieldIsCapture | src/index.ts:61-68 | a field is `norm` of the text between the item's first opener and the first closer after it, and "" when no opener is followed by a closer |
| Feed.ToPosts | src/index.ts:59-70 | there is one post per item |
| Feed.ToPost | src/index.ts:60-70 | a field whose opening tag does not occur in the item is the empty string; the same holds for the job's own copy at valtown/rss-sub/cron_rss_sub.tsx lines 55-65 |
| Feed.Filter | src/index.ts:71-75 | `filter` never lengthens the sequence, and every survivor satisfies the predicate |
| Feed.FilterMembers | src/index.ts:71-75 | an element survives exactly when it is in the input and satisfies the predicate |
| Feed.FilterAppend | src/index.ts:71-75 | filtering a concatenation is concatenating the filtered parts |
| Feed.FilterSingle | src/index.ts:71-75 | a single element is kept exactly when the predicate holds of it |
| Feed.FilterAt | src/index.ts:71-75 | the element at each position survives, between the survivors before and after it, exactly when the predicate holds of it |
| Feed.FilterIsSubsequence | src/index.ts:71-75 | the survivors keep their relative order |
| Feed.FilterIdempotent | src/index.ts:71-75 | filtering twice is filtering once |
| Feed.IsToday | src/index.ts:56-75 | an unparsable pubDate (an Invalid Date) is never today; a parsed one is today exactly when it falls on the same local day as now |
| Feed.TodaysPosts | src/index.ts:53-76 | at most one post per item, and every post kept is dated today |
| Feed.FieldsNormalised | src/index.ts:59-70 | when the normaliser only yields texts of some kind, and "" is of that kind, every field of every kept post is of that kind |
| Feed.TodaysPostsSelection | src/index.ts:53-76 | today's posts are an order-preserving selection of the extracted posts, at most one per item, holding exactly the posts dated today |
| Feed.UndatedNeverKept | src/index.ts:71-75 | a post whose pubDate does not parse, or is missing, is never kept |
| Feed.NoItemsNoPosts | src/index.ts:55-59 | a document without `<item>` yields no posts |
| Notify.Delivered | src/index.ts:78-85 | the emails delivered are a prefix of those due; all of them are delivered exactly when no send fails |
| Notify.Notifications | src/index.ts:78-85 | there is one email per post |
| Notify.Notification | src/index.ts:80-83 | the subject starts with the post's title and ends with ` - from ` and the feed URL, with nothing between them; the body is the link |
| Notify.FeedEmails | src/index.ts:34-51 | a failed fetch sends nothing; a fetched feed sends a prefix of its notifications, all of them when no send fails |
| Notify.FeedStatus | src/index.ts:34-51 | no new posts exactly when the feed is fetched and has none; notified, with the post count, exactly when it has posts and every send succeeds |
| Notify.StatusAgreesWithEmails | src/index.ts:40-47 | a fetched feed reports notified exactly when it has posts and all of their emails went out |
| Notify.GatherAppend | src/index.ts:27-32 | the output of a run over two lists is the output over the first followed by the output over the second |
| Notify.GatherSingle | src/index.ts:27-32 | a run over a single feed yields that feed's output |
| Notify.GatherOnePerFeed | src/index.ts:27-32 | when each feed yields one output, the run yields one per feed, in feed order |
| Notify.RunLogCoversEveryFeed | src/index.ts:27-32 | every feed is reported exactly once, in list order, with its own status whatever happens to the others |
| Notify.RunEmailsAppend | src/index.ts:27-32 | the emails of one feed do not depend on any other feed |
| Notify.FailedFeedIsIsolated | src/index.ts:34-51 | a feed whose fetch fails sends nothing, and the run sends what the other feeds send |
| Notify.FeedSendsOnePerPost | src/index.ts:34-51 | a fetched feed with no failed send mails one email per new post, in order, with subject `title - from url` and the link as text, and reports the count |
| Notify.MailFailureKeepsEarlierEmails | src/index.ts:40-50 | a send that throws at the k-th post keeps the k emails before it and reports the feed as failed |
| Notify.Mailer.SendEmailNotification | src/index.ts:78-85 | the outbox grows by the delivered emails; the result is true exactly when no send failed |
| Notify.Mailer.FetchFeedAndNotify | valtown/rss-sub/cron_rss_sub.tsx:29-46 | the outbox grows by the feed's emails and the log by exactly one report for the feed |
| Notify.Mailer.CheckFeeds | valtown/rss-sub/cron_rss_sub.tsx:10-16 | after the loop, the outbox and log have grown by exactly what the run over all feeds produces |
| IndexFeed.FeedUrlsDistinct | src/index.ts:9-25 | `FeedUrls` holds the fifteen URLs of the list, all distinct, so each feed is checked once per run |
| IndexFeed.ParseForTodaysPosts | src/index.ts:53-76 | at most one post per item; every post kept is dated today and has all three fields trimmed |
| IndexFeed.IndexFieldKeepsCdata | src/index.ts:66-68 | in this variant a CDATA-wrapped field keeps its markup |
| IndexFeed.CheckAllFeeds | src/index.ts:9-32 | the run mails what the fifteen listed feeds produce; the log grows by exactly the run log of the fifteen URLs, fifteen reports, the k-th for the k-th URL |
| CronFeed.StripMarkers | valtown/rss-sub/cron_rss_sub.tsx:83 | never lengthens the text; unmarked text is unchanged; a text with the opener at the start and the closer at the end loses exactly those two |
| CronFeed.StripCDATA | valtown/rss-sub/cron_rss_sub.tsx:82-84 | the result is trimmed; unmarked text is only trimmed; a wrapped text becomes its trimmed contents |
| CronFeed.StripCdataWrapped | valtown/rss-sub/cron_rss_sub.tsx:82-84 | a CDATA-wrapped text becomes its trimmed contents |
| CronFeed.StripCdataUnmarked | valtown/rss-sub/cron_rss_sub.tsx:82-84 | text with no marker at either end is only trimmed |
| CronFeed.StripMarkersAtEndsOnly | valtown/rss-sub/cron_rss_sub.tsx:83 | at most one opener is removed and only at index 0, and at most one closer and only at the very end |
| CronFeed.SpaceBeforeOpenerKeepsIt | valtown/rss-sub/cron_rss_sub.tsx:83 | an opener after any non-empty run of leading white space is not removed, because the anchor is applied before trimming |
| CronFeed.SpaceAfterCloserKeepsIt | valtown/rss-sub/cron_rss_sub.tsx:83 | a closer before any non-empty run of trailing white space is not removed, for the same reason |
| CronFeed.NestedCdataNotIdempotent | valtown/rss-sub/cron_rss_sub.tsx:83 | a doubly wrapped text loses one wrapping per call, so stripping is not idempotent |
| CronFeed.GoReleaseTitle | valtown/rss-sub/cron_rss_sub.tsx:61 | the title `<![CDATA[Go 1.22 released]]>` becomes `Go 1.22 released` |
| CronFeed.ExtractTodaysPosts | valtown/rss-sub/cron_rss_sub.tsx:49-71 | at most one post per item; every post kept is dated today and has all three fields trimmed |
| CronFeed.CronFieldUnwrapsCdata | valtown/rss-sub/cron_rss_sub.tsx:56-64 | a field captured as a CDATA section yields the section's trimmed contents |
| CronFeed.GetAllFeeds | valtown/rss-sub/cron_rss_sub.tsx:20-27 | the list read holds every URL of the table exactly once and nothing else |
| CronFeed.CheckAllFeeds | valtown/rss-sub/cron_rss_sub.tsx:10-16 | every registered feed is checked once, and the outbox and log grow by what the run over that list produces |
| FeedRegistry.KeyText | valtown/rss-sub/http_rss_sub.tsx:76 | a key set in the environment (line 3) is used as is; the interpolated text is `undefined` exactly when the key is unset or is itself the string `undefined`, so the two cannot be told apart |
| FeedRegistry.ValidateApiKey | valtown/rss-sub/http_rss_sub.tsx:74-77 | an accepted header uses the bearer scheme; with the key set, exactly `Bearer <key>` is accepted |
| FeedRegistry.ValidateApiKeyCases | valtown/rss-sub/http_rss_sub.tsx:74-77 | with the key set, exactly `Bearer <key>` is accepted; a missing header never is; with the key unset, `Bearer undefined` is |
| FeedRegistry.RouteOf | valtown/rss-sub/http_rss_sub.tsx:16-70 | `/add` and `/delete` are taken only with a non-empty `url` parameter, `/get` ignores it, and anything else is invalid |
| FeedRegistry.NextUrls | valtown/rss-sub/http_rss_sub.tsx:16-43 | a successful add puts the URL in the table, a successful delete removes it, no other URL changes, and a failed statement or a read changes nothing |
| FeedRegistry.AddThenDelete | valtown/rss-sub/http_rss_sub.tsx:16-43 | adding a new URL and then deleting it restores the table |
| FeedRegistry.DeleteIdempotent | valtown/rss-sub/http_rss_sub.tsx:30-43 | deleting a URL twice is the same as deleting it once |
| FeedRegistry.Registry.HttpHandler | valtown/rss-sub/http_rss_sub.tsx:5-72 | status and body for every case: 401 without changes when unauthorised; 200 or 500 for add, delete and get; 400 for anything else; the table changes only on a successful add or delete |

## Left out

- Fetching, email sending, sqlite and the console are replaced by inputs and a log. A
  `FeedWorld` gives each feed's fetch outcome and its first failing send. `fault` gives a
  failed statement. Each feed's console line becomes a `Report` with its status; the
  message text is not modelled.
- JavaScript's `Date` is abstract (`Calendar`): date parsing, time zones and
  daylight-saving rules are not modelled.
- `new Date()` is read inside each parser call, so the model takes one `now` per feed.
  A run that crosses midnight is possible and is not excluded.
- `sqlite` error messages are abstract: `DbError` records which statement failed and why.
  The exact text of `error.message` is not modelled.
- `initializeDatabase` failing, or `select` failing inside `getAllFeeds`, is not modelled.
  In the source either one makes the whole request or run throw.
- The JSON rendering of `/get` (`id` column, row order, the `Content-Type` header) is
  reduced to the set of URLs in the table.
- The `Request`/`URL` parsing that produces `pathname`, the `url` search parameter and the
  `Authorization` header is not modelled; the handler takes those three values.
- CronFeed.GetAllFeeds: the order in which rows come back is the database's, so the
  contract fixes the set of URLs and their distinctness but not their order.
- Text.IsSpace: the white-space set is the one ECMAScript lists, with the Unicode
  space-separator category written out as it stands in current Unicode. Strings are
  sequences of code points rather than UTF-16 code units.
- Runs of the job never overlap in the model: the scheduler and concurrency are not
  modelled.
