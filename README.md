# BotNoticias news pipeline in Dafny

BotNoticias is a Discord bot. Every three hours it gathers videogame news
from two RSS feeds (Pressover and Xataka) and from two scraped pages
(Vandal and DEV). It drops the items whose link is already in its ledger
of posted links (`noticiasPosteadas`), and drops those whose title contains
an English word (`game`, `online`, `virtual`, `play`, matched without regard
to case). It then sends the newest remaining item to a channel and records
that item's link in the ledger.

This project models one run of `postearNoticias` and the functions it
relies on:

- `Text`: ASCII lower-casing, substring search (`includes`) and `trim`.
- `Seqs`: an order-preserving filter.
- `News`: the items. It covers building `todas` from the feeds and the two
  scrapers, where a source that threw is skipped. It also covers the
  scraper's guard (`link && title`) and making Vandal links absolute.
- `Recency`: `obtenerMasReciente`. This is a stable in-place sort of an
  array, newest first, followed by taking the head of the array.
- `Pipeline`: the two filters and the choice of item. It also holds the
  ledger, modelled as a class whose list of links grows by `push`, and the
  whole run, `PostNews`.
- `Scenarios`: complete runs on small fixed inputs.

The network, the HTML and RSS parsers, and the clock are not modelled.
Instead, each source arrives as a `Fetch` value: either `Ok` with what it
yielded, or `Err` when it threw. A source that succeeded also carries the
clock reading taken for its items: a feed's undated entries are dated after
that feed was fetched, and each scraper dates its items after fetching its
page. The readings are therefore taken in polling order: the feeds, then
Vandal, then DEV. Given a DEV reading later than Vandal's, an eligible DEV
item outranks every Vandal item (`Pipeline.LaterScrapeOutranks`).
Whether the Discord send succeeded is a boolean, `delivered`.

The JavaScript sort is stable. The chosen item is therefore the first item,
in `todas` order, whose date is the latest one (`Recency.FirstNewest`).

A feed entry may have no title. Lower-casing that title at `index.js:117`
then throws, which ends the whole run: nothing is sent and nothing is
recorded (`Crashed`). The throw happens only when the untitled entry is
still unposted when it reaches the word filter.

## Model

| member | source | states |
|---|---|---|
| Text.Lower | index.js:117 | `toLowerCase` on ASCII: the result is as long as the input and contains no upper-case letter |
| Text.LowerEachChar | index.js:117 | each capital of the title becomes its lower-case letter (code point plus 32), and every other character is kept |
| Text.StartsWith | index.js:44 | `startsWith(p)`: `p` is a prefix of the string; `News.Absolutise` states what follows from it |
| Text.Includes | index.js:117 | `includes(w)`: `w` occurs at the start of the string or in its tail; `Text.IncludesAt` states its meaning |
| Text.IncludesAt | index.js:117 | `includes(w)` holds exactly when `w` occurs at some index of the title |
| Text.NotIncludedWithoutFirstLetter | index.js:117 | a word cannot be found in a title that never contains the word's first letter |
| Text.Trim | index.js:39 | `trim()`: the result is empty exactly when the text is all white space; otherwise it has no white space at either end |
| Text.TrimCutsOnlyEdges | index.js:39 | the trimmed text is `s[i..j]`, where everything before `i` and everything from `j` on is white space; with `Text.Trim` this fixes the result |
| Text.TrimIsIncluded | index.js:39 | the trimmed text occurs inside the text |
| Seqs.Filter | index.js:113 | `Array.filter`: the result is a subsequence of the input, in order, and holds exactly the elements the test accepts |
| Seqs.FilterCounts | index.js:113 | `filter` keeps every copy of an accepted element and no copy of a rejected one |
| Seqs.FilterKeepsAll | index.js:113 | when every element passes, `filter` returns the whole input |
| Seqs.FilterDropsAll | index.js:113 | when no element passes, `filter` returns the empty list |
| News.Absolutise | index.js:44 | a Vandal link starts with `http`; it is unchanged exactly when it already started with `http`; otherwise it is `https://vandal.elespanol.com` followed by the link |
| News.FromEntry | index.js:85-89 | an entry becomes an item with its title and link, dated by its own date or, when it has none, by the feed's clock reading; `News.EntryItemsAt` states it |
| News.Usable | index.js:41 | the scraper's guard `link && title`: a non-empty `href` and a text that is not blank once trimmed; `News.HarvestFrom` states what it admits |
| News.Harvest | index.js:38-48 | the items a scraper pushes for its matched anchors; `News.HarvestFrom`, `News.HarvestWellFormed` and `News.Scrape` state its properties |
| News.HarvestComplete | index.js:38-48 | every anchor with a non-empty `href` and a non-blank text yields its item |
| News.HarvestSound | index.js:38-48 | every scraped item comes from an anchor with a non-empty `href` and a non-blank text |
| News.HarvestFrom | index.js:38-48 | a scraped item comes from an anchor with a non-empty `href` and a non-blank text, and every such anchor yields one item |
| News.HarvestWellFormed | index.js:39-46 | every scraped item has a non-empty trimmed title and a non-empty link, is dated at scraping time, and on Vandal has a link starting with `http` |
| News.Scrape | index.js:36-50 | the `each` loop of `scrapeVandal` / `scrapeDEV` pushes exactly the harvest of the matched anchors, in page order |
| News.EntryItemsAt | index.js:84-90 | each feed entry becomes exactly one item in the same position, with the same title and link; a missing date becomes the feed's clock reading |
| News.FeedItemsAppend | index.js:81-94 | the items of a list of feeds are the items of its first part followed by the items of the rest |
| News.FailedFeedAddsNothing | index.js:91-93 | a feed that throws contributes no item, and the feeds around it still contribute, in order |
| News.Gather | index.js:78-110 | `todas`: the feeds' items in configured order, then Vandal's, then DEV's; `News.Collect` computes it and `News.FailedFeedAddsNothing` and `News.LaterSourcesAreNoOlder` state its properties |
| News.FeedReadingTaken | index.js:83-88 | a feed that was fetched takes a clock reading for its undated entries |
| News.LaterSourcesAreNoOlder | index.js:34-64 | when the clock does not go back, items scraped from DEV are at least as recent as those from Vandal, and both are at least as recent as the reading that dates each feed's undated entries |
| News.PushEntries | index.js:84-90 | the `forEach` over one feed appends that feed's items to `todas` |
| News.Collect | index.js:78-110 | `todas` is the feeds' items in configured order, then Vandal's, then DEV's; a source that threw adds nothing |
| Recency.SortNewestFirst | index.js:73 | the array sorted by the comparator at line 73; `Recency.SortIsNewestFirst`, `Recency.SortIsPermutation` and `Recency.SortIsStable` together fix it as the stable newest-first sort |
| Recency.InsertPosSplits | index.js:73 | one insertion step of the stable sort puts the new item after every item at least as recent and before every older one |
| Recency.InsertKeepsOrder | index.js:73 | inserting into a newest-first list keeps it newest first |
| Recency.SortIsNewestFirst | index.js:73 | the sorted list is ordered by date, newest first |
| Recency.InsertAddsOne | index.js:73 | one insertion step adds exactly the inserted item |
| Recency.SortIsPermutation | index.js:73 | sorting neither loses nor duplicates an item |
| Recency.DatedAppend | index.js:73 | the items with a given date, taken in order, split over concatenation |
| Recency.DatedNone | index.js:73 | a list without items of a given date has no such items in order |
| Recency.DatedInsert | index.js:73 | inserting an item places it after every earlier item with the same date |
| Recency.SortIsStable | index.js:73 | items with the same date keep their relative order (the sort is stable) |
| Recency.FirstNewest | index.js:72-74 | the index of the first item whose date is the latest of the list |
| Recency.SortHeadIsFirstNewest | index.js:72-74 | the head of the sorted list is the first item with the latest date |
| Recency.InsertPosAt | index.js:73 | an index after every item at least as recent, and before every older one, is the insertion point |
| Recency.OpenSlot | index.js:73 | shifts the older items one place to the right and returns the gap where the new item belongs |
| Recency.InsertInPlace | index.js:73 | places one more item into the sorted prefix of the array, leaving the rest of the array alone |
| Recency.MostRecent | index.js:72-74 | `obtenerMasReciente`: afterwards the array is the stable newest-first sort of what it held; the answer is its head, or none when it is empty |
| Pipeline.MentionsEnglish | index.js:117 | the lower-cased title includes one of `game`, `online`, `virtual`, `play` |
| Pipeline.DropPosted | index.js:113 | `nuevas` is the subsequence of `todas` whose links are not in the ledger |
| Pipeline.DropEnglish | index.js:116-118 | the word filter throws exactly when some item has no title; otherwise it keeps, in order, exactly the items whose lower-cased title contains none of the four words |
| Pipeline.Select | index.js:113-126 | what the two filters and `obtenerMasReciente` decide; `Pipeline.SelectStopsOrFindsNothing`, `Pipeline.SelectPicksNewest` and `Pipeline.SelectIsFirstNewest` state its properties |
| Pipeline.SelectStopsOrFindsNothing | index.js:113-123 | the run throws exactly when an unposted item has no title; it finds nothing exactly when every item is posted or has an English title |
| Pipeline.SelectPicksNewest | index.js:120-126 | the chosen item is in `todas`, is not posted, has no English word, and is at least as recent as every other such item |
| Pipeline.SelectIsFirstNewest | index.js:126 | the chosen item is the first of the filtered items with the latest date |
| Pipeline.LaterScrapeOutranks | index.js:45-64 | when DEV's reading is later than Vandal's and DEV yields an eligible item, a run that does not throw chooses an item, and that item does not come from Vandal |
| Pipeline.RunOutcome | index.js:120-131 | how the run ends: thrown, quiet, send failed or posted; `Pipeline.LedgerRecordsOnlyWhatWasSent` states its properties |
| Pipeline.NextLedger | index.js:130 | the ledger after the run; `Pipeline.LedgerRecordsOnlyWhatWasSent` and `Pipeline.LedgerStaysDuplicateFree` state its properties |
| Pipeline.LedgerRecordsOnlyWhatWasSent | index.js:120-136 | a link is recorded exactly when an item was chosen and the send succeeded, and then only that item's unposted link is appended; otherwise the ledger is unchanged |
| Pipeline.LedgerStaysDuplicateFree | index.js:113-130 | a ledger without repeated links keeps that property after a run |
| Pipeline.Ledger.constructor | index.js:16-20 | the ledger starts as the stored list when one was read, and empty otherwise |
| Pipeline.Ledger.Push | index.js:130 | `noticiasPosteadas.push`: the link is appended at the end |
| Pipeline.Choose | index.js:113-126 | runs both filters and `obtenerMasReciente` on an array, and returns what `Select` decides |
| Pipeline.PostNews | index.js:76-137 | one run: its outcome and the new ledger are those of the filters and choice applied to the gathered items |
| Scenarios.PlainTitles | index.js:29 | "Alpha" and "Beta" contain none of the four words |
| Scenarios.EmptyLedgerPostsNewest | index.js:76-137 | with an empty ledger the newer of two items is sent, and only its link is recorded |
| Scenarios.RecordedItemIsSkipped | index.js:113-130 | an item whose link is recorded is not sent again; the next item is sent instead |
| Scenarios.AllRecordedIsQuiet | index.js:120-123 | when every link is recorded, nothing is sent and the ledger is unchanged |
| Scenarios.AnnouncedIsEnglish | index.js:116-118 | "New Online Game Announced" matches the word `online` once lower-cased |
| Scenarios.EnglishTitleIsFiltered | index.js:116-118 | the word filter removes the English title and keeps the others in order |
| Scenarios.EnglishTitleCandidates | index.js:113-118 | after both filters only the two items without English words are left |
| Scenarios.EnglishTitleIsSkipped | index.js:113-130 | the newest item is passed over because of its English title, and the next newest is sent |
| Scenarios.FailedSendRecordsNothing | index.js:127-131 | when the send fails, the chosen item is not recorded |
| Scenarios.FailedFeedIsSkipped | index.js:81-94 | a feed that throws is skipped and the other feed's items still arrive |
| Scenarios.EmptyFeedsAddNothing | index.js:84-90 | a feed with no entries adds no item |
| Scenarios.OneHeadlineHarvest | index.js:38-48 | one headline with a one-letter text and an absolute link yields one item, dated when its page was read |
| Scenarios.OneHeadlineEachGathers | index.js:78-110 | with empty feeds and one headline from each scraper, `todas` is the Vandal item followed by the DEV item |
| Scenarios.OneLetterTitles | index.js:116-118 | the titles "V" and "D" contain none of the four words |
| Scenarios.OneHeadlineCandidates | index.js:113-118 | both headlines pass both filters |
| Scenarios.LaterHeadlineIsChosen | index.js:72-74 | of the two, the item with the later reading, DEV's, is chosen |
| Scenarios.LaterScrapeIsPosted | index.js:76-137 | when DEV's page is read after Vandal's, the run sends DEV's headline |
| Scenarios.UntitledEntryStopsTheRun | index.js:116-118 | an unposted entry without a title ends the run before anything is sent, even when an eligible item exists |

## Left out

- Discord: logging in, fetching the channel and formatting the message are not modelled. The send is the boolean `delivered`, and a failed channel fetch counts as a failed send.
- Network access, HTML parsing with CSS selectors and RSS parsing are not modelled. Each source is given as the list of anchors or entries it produced, or as a failure.
- Persistence: reading `noticiasPosteadas.json` at startup becomes the constructor's optional argument. Writing the file is not modelled. In the source, the in-memory push has already happened when a failed write is logged by the outer `catch`.
- The schedule (`node-cron`, every three hours), `dotenv` and the bot's startup are not modelled.
- Dates are integer timestamps. Parsing `pubDate` strings, and invalid dates (`NaN`, which makes the sort comparator return `NaN`), are not modelled.
- Time: the source calls `new Date()` once for each undated item, while the model takes one reading per source: per fetched feed and per scraped page. Items of the same page or feed therefore tie in the model, where the source's readings, taken a few microseconds apart in one synchronous loop, could differ by a millisecond. In that case the source would put the later item of the page first. Readings of different sources do differ in the model, and `News.LaterSourcesAreNoOlder` orders them.
- Overlapping runs: the run is started both by the three-hourly schedule (index.js:140-142) and when the client becomes ready (index.js:144-147), and nothing stops two runs from overlapping. The model assumes that runs do not overlap. Two overlapping runs could both read the ledger at line 113 before either pushes at line 130, and then send and record the same link twice. `Pipeline.LedgerStaysDuplicateFree` holds only for runs that do not overlap.
- Text.Lower: lower-cases ASCII letters only, while `toLowerCase` also maps non-ASCII letters. No English word contains a non-ASCII letter, but a non-ASCII letter whose lower-case form is ASCII (the Kelvin sign becomes `k`) is not mapped.
- Feed entries without a `link` are not modelled: the entry's link is always a string. The source would push `undefined` and compare it against the ledger.
- Console logging is not modelled.
- Links are compared as raw strings, just as the source compares them. No URL normalisation is done.
