/**
 * The body of `postearNoticias` after the sources are read: drop what was
 * already posted, drop titles with English words, pick the newest item, send
 * it, and record its link in the ledger of posted links once the send succeeded.
 */
module Pipeline {
  import opened Wrappers
  import opened Text
  import opened Seqs
  import opened News
  import opened Recency

  /** `palabrasIngles`: words whose presence in a title marks an item as English. */
  const EnglishWords: seq<string> := ["game", "online", "virtual", "play"]

  /** `palabrasIngles.some(p => title.toLowerCase().includes(p))`. */
  predicate MentionsEnglish(title: string) {
    exists w :: w in EnglishWords && Includes(Lower(title), w)
  }

  /** The test of the first filter: the raw link is not in the ledger snapshot. */
  function Unposted(posted: seq<string>): Item -> bool {
    (it: Item) => it.link !in posted
  }

  /** `todas.filter(n => !noticiasPosteadas.includes(n.link))`: links compared as raw strings. */
  function DropPosted(posted: seq<string>, todas: seq<Item>): (nuevas: seq<Item>)
    ensures IsSubsequence(nuevas, todas)
    ensures forall it :: it in nuevas <==> it in todas && it.link !in posted
  {
    Filter(todas, Unposted(posted))
  }

  /** The test of the second filter, on items known to have a title. */
  function FreeOfEnglish(it: Item): bool {
    it.title.Some? && !MentionsEnglish(it.title.value)
  }

  /**
   * The English-word filter. Lower-casing a missing title throws, which ends
   * the whole run, so the filter fails as soon as one item has no title.
   */
  function DropEnglish(nuevas: seq<Item>): (r: Option<seq<Item>>)
    ensures r.None? <==> exists it :: it in nuevas && it.title.None?
    ensures r.Some? ==> IsSubsequence(r.value, nuevas)
    ensures r.Some? ==> forall it :: it in r.value <==> it in nuevas && !MentionsEnglish(it.title.value)
  {
    if exists it :: it in nuevas && it.title.None? then None
    else Some(Filter(nuevas, FreeOfEnglish))
  }

  /** An item the run may announce: not yet posted, with a title free of English words. */
  predicate Eligible(posted: seq<string>, it: Item) {
    it.link !in posted && it.title.Some? && !MentionsEnglish(it.title.value)
  }

  /** What the filters and `obtenerMasReciente` decide. */
  datatype Selection = TitleMissing | NoNews | Newest(item: Item)

  /** The list `nuevas` after both filters, or `None` when the word filter throws. */
  function Candidates(posted: seq<string>, todas: seq<Item>): Option<seq<Item>> {
    DropEnglish(DropPosted(posted, todas))
  }

  /**
   * The run's choice: stop on a new item without a title, report no news when
   * nothing survives the filters, and otherwise take the head of the survivors
   * sorted newest first.
   */
  function Select(posted: seq<string>, todas: seq<Item>): Selection {
    match Candidates(posted, todas)
    case None => TitleMissing
    case Some(nuevas) => if nuevas == [] then NoNews else Newest(SortNewestFirst(nuevas)[0])
  }

  /**
   * The run stops exactly when some item not yet posted has no title, and it
   * finds no news exactly when it does not stop and no item is eligible.
   */
  lemma SelectStopsOrFindsNothing(posted: seq<string>, todas: seq<Item>)
    ensures Select(posted, todas).TitleMissing? <==> exists it :: it in todas && it.link !in posted && it.title.None?
    ensures Select(posted, todas).NoNews? <==>
      !Select(posted, todas).TitleMissing? && forall it :: it in todas ==> !Eligible(posted, it)
  {
    var c := Candidates(posted, todas);
    if c.Some? && c.value != [] {
      assert c.value[0] in c.value;
    }
  }

  /** The chosen item is an eligible item of `todas`, at least as new as every other eligible one. */
  lemma SelectPicksNewest(posted: seq<string>, todas: seq<Item>)
    requires Select(posted, todas).Newest?
    ensures Select(posted, todas).item in todas && Eligible(posted, Select(posted, todas).item)
    ensures forall it :: it in todas && Eligible(posted, it) ==> it.pubDate <= Select(posted, todas).item.pubDate
  {
    var nuevas := Candidates(posted, todas).value;
    SortHeadIsFirstNewest(nuevas);
    var k := FirstNewest(nuevas);
    assert nuevas[k] in nuevas;
    forall it | it in todas && Eligible(posted, it) ensures it.pubDate <= nuevas[k].pubDate {
      var i :| 0 <= i < |nuevas| && nuevas[i] == it;
    }
  }

  /** Ties on the date go to the item that came first in `todas`, because the sort is stable. */
  lemma SelectIsFirstNewest(posted: seq<string>, todas: seq<Item>)
    requires Candidates(posted, todas).Some? && Candidates(posted, todas).value != []
    ensures Select(posted, todas) == Newest(Candidates(posted, todas).value[FirstNewest(Candidates(posted, todas).value)])
  {
    SortHeadIsFirstNewest(Candidates(posted, todas).value);
  }

  /**
   * DEV is scraped after Vandal, so when its clock reading is the later one and
   * it yields an eligible item, no Vandal item can be the one chosen.
   */
  lemma LaterScrapeOutranks(posted: seq<string>, feeds: seq<Fetch<Feed>>, vandal: Fetch<Page>, dev: Fetch<Page>, d: Item)
    requires vandal.Ok? && dev.Ok? && vandal.value.readAt < dev.value.readAt
    requires d in PageContribution(Dev, dev) && Eligible(posted, d)
    requires !Select(posted, Gather(feeds, vandal, dev)).TitleMissing?
    ensures Select(posted, Gather(feeds, vandal, dev)).Newest?
    ensures Select(posted, Gather(feeds, vandal, dev)).item !in PageContribution(Vandal, vandal)
  {
    var todas := Gather(feeds, vandal, dev);
    assert d in todas;
    SelectStopsOrFindsNothing(posted, todas);
    SelectPicksNewest(posted, todas);
    HarvestWellFormed(Vandal, vandal.value.anchors, vandal.value.readAt);
    HarvestWellFormed(Dev, dev.value.anchors, dev.value.readAt);
    assert d.pubDate == dev.value.readAt;
  }

  /** How a run ends: thrown error, nothing new, send failed, or posted. */
  datatype Outcome = Crashed | Quiet | SendFailed(item: Item) | Posted(item: Item)

  /** The run's outcome when fetching the channel and sending succeed exactly when `delivered`. */
  function RunOutcome(posted: seq<string>, todas: seq<Item>, delivered: bool): Outcome {
    match Select(posted, todas)
    case TitleMissing => Crashed
    case NoNews => Quiet
    case Newest(it) => if delivered then Posted(it) else SendFailed(it)
  }

  /** The ledger after the run: the posted item's link is appended; otherwise nothing changes. */
  function NextLedger(posted: seq<string>, todas: seq<Item>, delivered: bool): seq<string> {
    var o := RunOutcome(posted, todas, delivered);
    if o.Posted? then posted + [o.item.link] else posted
  }

  /**
   * Only a successful send changes the ledger, and then by appending the sent
   * item's link, which was not there before; a failed send, a quiet run and a
   * stopped run leave it as it was.
   */
  lemma LedgerRecordsOnlyWhatWasSent(posted: seq<string>, todas: seq<Item>, delivered: bool)
    ensures RunOutcome(posted, todas, delivered).Posted? <==> delivered && Select(posted, todas).Newest?
    ensures RunOutcome(posted, todas, delivered).Posted? ==>
      && NextLedger(posted, todas, delivered) == posted + [RunOutcome(posted, todas, delivered).item.link]
      && RunOutcome(posted, todas, delivered).item.link !in posted
      && |NextLedger(posted, todas, delivered)| == |posted| + 1
    ensures !RunOutcome(posted, todas, delivered).Posted? ==> NextLedger(posted, todas, delivered) == posted
  {
    if Select(posted, todas).Newest? {
      SelectPicksNewest(posted, todas);
    }
  }

  predicate NoDuplicates(links: seq<string>) {
    forall i, j :: 0 <= i < j < |links| ==> links[i] != links[j]
  }

  /** A ledger without repeated links keeps that property across a run. */
  lemma LedgerStaysDuplicateFree(posted: seq<string>, todas: seq<Item>, delivered: bool)
    requires NoDuplicates(posted)
    ensures NoDuplicates(NextLedger(posted, todas, delivered))
  {
    LedgerRecordsOnlyWhatWasSent(posted, todas, delivered);
    var next := NextLedger(posted, todas, delivered);
    if RunOutcome(posted, todas, delivered).Posted? {
      forall i, j | 0 <= i < j < |next| ensures next[i] != next[j] {
        if j == |posted| {
          assert next[i] == posted[i];
          assert next[i] in posted;
        }
      }
    }
  }

  /** `noticiasPosteadas`: the links already announced, in posting order. */
  class Ledger {
    var posted: seq<string>

    /** Starts from the stored list, or from an empty list when there is no stored file. */
    constructor (stored: Option<seq<string>>)
      ensures posted == if stored.Some? then stored.value else []
    {
      posted := if stored.Some? then stored.value else [];
    }

    /** `noticiasPosteadas.push(link)`. */
    method Push(link: string)
      modifies this
      ensures posted == old(posted) + [link]
    {
      posted := posted + [link];
    }
  }

  /**
   * Lines 113-126 of a run: filter `todas` against the ledger snapshot and the
   * English words, then let `obtenerMasReciente` sort the survivors and take the head.
   */
  method Choose(posted: seq<string>, todas: seq<Item>) returns (sel: Selection)
    ensures sel == Select(posted, todas)
  {
    var nuevas := DropPosted(posted, todas);
    var kept := DropEnglish(nuevas);
    assert kept == Candidates(posted, todas);
    if kept.None? {
      return TitleMissing;
    }
    if kept.value == [] {
      return NoNews;
    }
    var arr := new Item[|kept.value|](i requires 0 <= i < |kept.value| => kept.value[i]);
    assert arr[..] == kept.value;
    var noticia := MostRecent(arr);
    sel := Newest(noticia.value);
  }

  /**
   * One run of `postearNoticias`. The sources arrive already fetched, each with
   * the clock reading taken for its items, and `delivered` says whether fetching
   * the channel and sending the message succeeded.
   */
  method PostNews(ledger: Ledger, feeds: seq<Fetch<Feed>>, vandal: Fetch<Page>, dev: Fetch<Page>, delivered: bool)
    returns (outcome: Outcome)
    requires |feeds| == |RssFeeds|
    modifies ledger
    ensures outcome == RunOutcome(old(ledger.posted), Gather(feeds, vandal, dev), delivered)
    ensures ledger.posted == NextLedger(old(ledger.posted), Gather(feeds, vandal, dev), delivered)
  {
    var todas := Collect(feeds, vandal, dev);
    var sel := Choose(ledger.posted, todas);
    match sel
    case TitleMissing =>
      outcome := Crashed;
    case NoNews =>
      outcome := Quiet;
    case Newest(noticia) =>
      if delivered {
        ledger.Push(noticia.link);
        outcome := Posted(noticia);
      } else {
        outcome := SendFailed(noticia);
      }
  }
}
