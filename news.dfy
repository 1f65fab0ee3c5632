/**
 * Where the bot's news items come from: the RSS feeds, and the two scraped
 * pages (Vandal and DEV), gathered into the list `todas` in source order.
 * Network reads are not modelled; each source arrives as a `Fetch` value
 * that carries, when it succeeded, the clock reading taken for its items.
 */
module News {
  import opened Wrappers
  import opened Text

  /**
   * One news item. `title` is `None` when the feed entry had no title
   * (`undefined` in the source); `pubDate` is a timestamp in milliseconds.
   */
  datatype Item = Item(title: Option<string>, link: string, pubDate: int)

  /** A feed entry as the RSS parser returns it; `pubDate` is `None` when absent or empty. */
  datatype Entry = Entry(title: Option<string>, link: string, pubDate: Option<int>)

  /** An anchor matched by a scraper's CSS selector: its text and its `href` attribute, if any. */
  datatype Anchor = Anchor(text: string, href: Option<string>)

  /**
   * A feed that was fetched and parsed: its entries, and the clock reading that
   * `new Date()` gives while they are pushed, taken after the fetch returned.
   */
  datatype Feed = Feed(entries: seq<Entry>, readAt: int)

  /** A scraped page: the anchors its selector matched, and the clock reading taken while scraping it. */
  datatype Page = Page(anchors: seq<Anchor>, readAt: int)

  /** The two scraped web sites. */
  datatype Site = Vandal | Dev

  /** The configured feeds, polled in this order. */
  const RssFeeds: seq<string> := ["https://pressover.news/feed/", "https://www.xataka.com/categoria/videojuegos/rss2.xml"]

  /** The origin prepended to Vandal's site-relative links. */
  const VandalOrigin: string := "https://vandal.elespanol.com"

  /** Makes a scraped Vandal link absolute: kept when it already starts with `http`, prefixed otherwise. */
  function Absolutise(link: string): (r: string)
    ensures StartsWith(r, "http")
    ensures r == link <==> StartsWith(link, "http")
    ensures !StartsWith(link, "http") ==> r == VandalOrigin + link
    ensures |link| <= |r| && r[|r| - |link|..] == link
  {
    if StartsWith(link, "http") then link else VandalOrigin + link
  }

  /** A feed entry as an item: a missing publication date becomes the clock reading `now` taken for its feed. */
  function FromEntry(e: Entry, now: int): Item {
    Item(e.title, e.link, if e.pubDate.Some? then e.pubDate.value else now)
  }

  /** A scraped anchor is kept when it has a non-empty `href` and a non-blank text. */
  predicate Usable(a: Anchor) {
    a.href.Some? && a.href.value != "" && Trim(a.text) != ""
  }

  function SiteLink(site: Site, href: string): string {
    if site == Vandal then Absolutise(href) else href
  }

  /** The item a usable anchor yields; scraped pages carry no date, so the scraping time is used. */
  function Scraped(site: Site, a: Anchor, now: int): Item
    requires Usable(a)
  {
    Item(Some(Trim(a.text)), SiteLink(site, a.href.value), now)
  }

  /** The items a scraper collects from the anchors it matched, in page order. */
  function Harvest(site: Site, anchors: seq<Anchor>, now: int): seq<Item>
    decreases |anchors|
  {
    if anchors == [] then []
    else
      var a := anchors[|anchors| - 1];
      Harvest(site, anchors[..|anchors| - 1], now) + if Usable(a) then [Scraped(site, a, now)] else []
  }

  /** Every usable anchor yields its item. */
  lemma {:induction false} HarvestComplete(site: Site, anchors: seq<Anchor>, now: int, a: Anchor)
    requires a in anchors && Usable(a)
    ensures Scraped(site, a, now) in Harvest(site, anchors, now)
    decreases |anchors|
  {
    var init, last := anchors[..|anchors| - 1], anchors[|anchors| - 1];
    assert anchors == init + [last];
    if a != last {
      HarvestComplete(site, init, now, a);
    }
  }

  /** Every scraped item comes from a usable anchor. */
  lemma {:induction false} HarvestSound(site: Site, anchors: seq<Anchor>, now: int, it: Item)
    requires it in Harvest(site, anchors, now)
    ensures exists a :: a in anchors && Usable(a) && it == Scraped(site, a, now)
    decreases |anchors|
  {
    var init, last := anchors[..|anchors| - 1], anchors[|anchors| - 1];
    assert anchors == init + [last];
    if it in Harvest(site, init, now) {
      HarvestSound(site, init, now, it);
      var a :| a in init && Usable(a) && it == Scraped(site, a, now);
      assert a in anchors;
    } else {
      assert last in anchors;
    }
  }

  /** A scraped item comes from a usable anchor, and every usable anchor yields one. */
  lemma HarvestFrom(site: Site, anchors: seq<Anchor>, now: int, it: Item)
    ensures it in Harvest(site, anchors, now) <==> exists a :: a in anchors && Usable(a) && it == Scraped(site, a, now)
  {
    if it in Harvest(site, anchors, now) {
      HarvestSound(site, anchors, now, it);
    }
    if a :| a in anchors && Usable(a) && it == Scraped(site, a, now) {
      HarvestComplete(site, anchors, now, a);
    }
  }

  /**
   * What every scraped item looks like: a non-blank, trimmed title, a non-empty
   * link, the scraping time as its date, and on Vandal a link starting with `http`.
   */
  predicate WellFormedScrape(site: Site, now: int, it: Item) {
    && it.title.Some? && it.title.value != ""
    && !IsSpace(it.title.value[0]) && !IsSpace(it.title.value[|it.title.value| - 1])
    && it.link != "" && it.pubDate == now
    && (site == Vandal ==> StartsWith(it.link, "http"))
  }

  /** Every item a scraper collects is well formed. */
  lemma {:induction false} HarvestWellFormed(site: Site, anchors: seq<Anchor>, now: int)
    ensures forall it :: it in Harvest(site, anchors, now) ==> WellFormedScrape(site, now, it)
    decreases |anchors|
  {
    if anchors != [] {
      var init, a := anchors[..|anchors| - 1], anchors[|anchors| - 1];
      HarvestWellFormed(site, init, now);
      if Usable(a) {
        assert WellFormedScrape(site, now, Scraped(site, a, now));
      }
    }
  }

  /** `scrapeVandal` / `scrapeDEV` once the page has been fetched: walk the matched anchors and push the usable ones. */
  method Scrape(site: Site, anchors: seq<Anchor>, now: int) returns (noticias: seq<Item>)
    ensures noticias == Harvest(site, anchors, now)
  {
    noticias := [];
    for i := 0 to |anchors|
      invariant noticias == Harvest(site, anchors[..i], now)
    {
      assert anchors[..i + 1][..i] == anchors[..i];
      var title := Trim(anchors[i].text);
      var link := anchors[i].href;
      if link.Some? && link.value != "" && title != "" {
        noticias := noticias + [Item(Some(title), SiteLink(site, link.value), now)];
      }
    }
    assert anchors[..|anchors|] == anchors;
  }

  /** The items of one parsed feed, in feed order. */
  function EntryItems(entries: seq<Entry>, now: int): seq<Item>
    decreases |entries|
  {
    if entries == [] then []
    else EntryItems(entries[..|entries| - 1], now) + [FromEntry(entries[|entries| - 1], now)]
  }

  /** What a feed fetch contributes: its entries when it succeeded, nothing when it failed. */
  function FeedContribution(feed: Fetch<Feed>): seq<Item> {
    if feed.Ok? then EntryItems(feed.value.entries, feed.value.readAt) else []
  }

  /** What a scraped page contributes: its harvest when fetched, nothing when the scraper threw. */
  function PageContribution(site: Site, page: Fetch<Page>): seq<Item> {
    if page.Ok? then Harvest(site, page.value.anchors, page.value.readAt) else []
  }

  /** The items of all feeds, feed after feed. */
  function FeedItems(feeds: seq<Fetch<Feed>>): seq<Item>
    decreases |feeds|
  {
    if feeds == [] then []
    else FeedItems(feeds[..|feeds| - 1]) + FeedContribution(feeds[|feeds| - 1])
  }

  /** The list `todas`: the feeds in configured order, then Vandal, then DEV. */
  function Gather(feeds: seq<Fetch<Feed>>, vandal: Fetch<Page>, dev: Fetch<Page>): seq<Item> {
    FeedItems(feeds) + PageContribution(Vandal, vandal) + PageContribution(Dev, dev)
  }

  /** Each entry becomes exactly one item, at its own position, dated `now` when undated. */
  lemma {:induction false} EntryItemsAt(entries: seq<Entry>, now: int)
    ensures |EntryItems(entries, now)| == |entries|
    ensures forall i :: 0 <= i < |entries| ==>
      && EntryItems(entries, now)[i].title == entries[i].title
      && EntryItems(entries, now)[i].link == entries[i].link
      && EntryItems(entries, now)[i].pubDate == (if entries[i].pubDate.Some? then entries[i].pubDate.value else now)
    decreases |entries|
  {
    if entries != [] {
      EntryItemsAt(entries[..|entries| - 1], now);
    }
  }

  /** The feeds' items split at any point: what comes before, then what comes after. */
  lemma {:induction false} FeedItemsAppend(a: seq<Fetch<Feed>>, b: seq<Fetch<Feed>>)
    ensures FeedItems(a + b) == FeedItems(a) + FeedItems(b)
    decreases |b|
  {
    if b != [] {
      var b' := b[..|b| - 1];
      assert (a + b)[..|a + b| - 1] == a + b';
      assert (a + b)[|a + b| - 1] == b[|b| - 1];
      FeedItemsAppend(a, b');
    } else {
      assert a + b == a;
    }
  }

  /** A feed that failed contributes nothing; the feeds around it still contribute, in order. */
  lemma FailedFeedAddsNothing(feeds: seq<Fetch<Feed>>, k: nat)
    requires k < |feeds| && feeds[k].Err?
    ensures FeedItems(feeds) == FeedItems(feeds[..k]) + FeedItems(feeds[k + 1..])
  {
    var before, failed, after := feeds[..k], [feeds[k]], feeds[k + 1..];
    assert feeds == before + (failed + after);
    assert FeedItems(failed) == [] by {
      assert failed[..0] == [];
    }
    FeedItemsAppend(failed, after);
    assert FeedItems(failed + after) == FeedItems(after);
    FeedItemsAppend(before, failed + after);
  }

  /** The readings taken for the feeds, in polling order; a feed that threw takes none. */
  function FeedReadings(feeds: seq<Fetch<Feed>>): seq<int>
    decreases |feeds|
  {
    if feeds == [] then []
    else
      var last := feeds[|feeds| - 1];
      FeedReadings(feeds[..|feeds| - 1]) + if last.Ok? then [last.value.readAt] else []
  }

  /** Every clock reading of a run, in the order the run takes them: the feeds', then Vandal's, then DEV's. */
  function Readings(feeds: seq<Fetch<Feed>>, vandal: Fetch<Page>, dev: Fetch<Page>): seq<int> {
    FeedReadings(feeds)
      + (if vandal.Ok? then [vandal.value.readAt] else [])
      + (if dev.Ok? then [dev.value.readAt] else [])
  }

  /** The clock never goes back between two readings. */
  predicate NonDecreasing(t: seq<int>) {
    forall i, j :: 0 <= i < j < |t| ==> t[i] <= t[j]
  }

  /** Each fetched feed's reading is among the feed readings. */
  lemma {:induction false} FeedReadingTaken(feeds: seq<Fetch<Feed>>, k: nat)
    requires k < |feeds| && feeds[k].Ok?
    ensures feeds[k].value.readAt in FeedReadings(feeds)
    decreases |feeds|
  {
    if k < |feeds| - 1 {
      var init := feeds[..|feeds| - 1];
      assert init[k] == feeds[k];
      FeedReadingTaken(init, k);
    }
  }

  /**
   * A source polled later dates its clock-dated items no earlier: the items
   * scraped from DEV are at least as recent as those from Vandal, and both are
   * at least as recent as the undated entries of every fetched feed.
   */
  lemma LaterSourcesAreNoOlder(feeds: seq<Fetch<Feed>>, vandal: Fetch<Page>, dev: Fetch<Page>)
    requires NonDecreasing(Readings(feeds, vandal, dev))
    ensures forall x, y :: x in PageContribution(Vandal, vandal) && y in PageContribution(Dev, dev) ==> x.pubDate <= y.pubDate
    ensures forall k, y ::
              0 <= k < |feeds| && feeds[k].Ok? && y in PageContribution(Vandal, vandal) + PageContribution(Dev, dev) ==>
              feeds[k].value.readAt <= y.pubDate
  {
    var t := Readings(feeds, vandal, dev);
    var n := |FeedReadings(feeds)|;
    if vandal.Ok? {
      HarvestWellFormed(Vandal, vandal.value.anchors, vandal.value.readAt);
      assert t[n] == vandal.value.readAt;
    }
    if dev.Ok? {
      HarvestWellFormed(Dev, dev.value.anchors, dev.value.readAt);
      assert t[|t| - 1] == dev.value.readAt;
    }
    forall k, y | 0 <= k < |feeds| && feeds[k].Ok? && y in PageContribution(Vandal, vandal) + PageContribution(Dev, dev)
      ensures feeds[k].value.readAt <= y.pubDate
    {
      FeedReadingTaken(feeds, k);
      var i :| 0 <= i < n && FeedReadings(feeds)[i] == feeds[k].value.readAt;
      assert t[i] == feeds[k].value.readAt;
    }
  }

  /** The `forEach` over one parsed feed: push each entry, as an item, onto `todas`. */
  method PushEntries(todas: seq<Item>, entries: seq<Entry>, now: int) returns (grown: seq<Item>)
    ensures grown == todas + EntryItems(entries, now)
  {
    grown := todas;
    for j := 0 to |entries|
      invariant grown == todas + EntryItems(entries[..j], now)
    {
      assert entries[..j + 1][..j] == entries[..j];
      grown := grown + [FromEntry(entries[j], now)];
    }
    assert entries[..|entries|] == entries;
  }

  /**
   * The start of `postearNoticias`: poll each feed in turn, then the two scrapers,
   * pushing what each yields into `todas`; a source that threw is skipped.
   */
  method Collect(feeds: seq<Fetch<Feed>>, vandal: Fetch<Page>, dev: Fetch<Page>) returns (todas: seq<Item>)
    requires |feeds| == |RssFeeds|
    ensures todas == Gather(feeds, vandal, dev)
  {
    todas := [];
    for f := 0 to |feeds|
      invariant todas == FeedItems(feeds[..f])
    {
      assert feeds[..f + 1][..f] == feeds[..f];
      if feeds[f].Ok? {
        todas := PushEntries(todas, feeds[f].value.entries, feeds[f].value.readAt);
      }
    }
    assert feeds[..|feeds|] == feeds;
    if vandal.Ok? {
      var vandalNews := Scrape(Vandal, vandal.value.anchors, vandal.value.readAt);
      todas := todas + vandalNews;
    }
    if dev.Ok? {
      var devNews := Scrape(Dev, dev.value.anchors, dev.value.readAt);
      todas := todas + devNews;
    }
  }
}
