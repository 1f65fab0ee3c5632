/** Whole runs on small, fixed inputs. */
module Scenarios {
  import opened Wrappers
  import opened Text
  import opened Seqs
  import opened News
  import opened Recency
  import opened Pipeline

  const Alpha := Item(Some("Alpha"), "https://pressover.news/alpha/", 1704153600000)
  const Beta := Item(Some("Beta"), "https://pressover.news/beta/", 1704067200000)
  /** Its title is "New Online Game Announced", written in pieces around the English word. */
  const Announced := Item(Some("New " + "Online" + " Game Announced"), "https://pressover.news/announced/", 1704240000000)

  /** Neither "Alpha" nor "Beta" contains an English word. */
  lemma PlainTitles()
    ensures !MentionsEnglish("Alpha") && !MentionsEnglish("Beta")
    ensures FreeOfEnglish(Alpha) && FreeOfEnglish(Beta)
  {
    var alpha, beta := Lower("Alpha"), Lower("Beta");
    assert alpha[0] == 'a' && alpha[1] == 'l' && |alpha| == 5;
    assert beta[0] == 'b' && |beta| == 4;
    forall w | w in EnglishWords
      ensures !Includes(alpha, w) && !Includes(beta, w)
    {
      NotIncludedWithoutFirstLetter(alpha, w);
      NotIncludedWithoutFirstLetter(beta, w);
    }
  }

  /** With an empty ledger the newer of two items is sent, and only its link is recorded. */
  lemma EmptyLedgerPostsNewest()
    ensures RunOutcome([], [Alpha, Beta], true) == Posted(Alpha)
    ensures NextLedger([], [Alpha, Beta], true) == [Alpha.link]
  {
    PlainTitles();
    FilterKeepsAll([Alpha, Beta], Unposted([]));
    FilterKeepsAll([Alpha, Beta], FreeOfEnglish);
    SelectIsFirstNewest([], [Alpha, Beta]);
  }

  /** Once the newer item is recorded, the next run sends the other one. */
  lemma RecordedItemIsSkipped()
    ensures RunOutcome([Alpha.link], [Alpha, Beta], true) == Posted(Beta)
    ensures NextLedger([Alpha.link], [Alpha, Beta], true) == [Alpha.link, Beta.link]
  {
    PlainTitles();
    var todas := [Alpha, Beta];
    assert todas[1..] == [Beta];
    FilterKeepsAll([Beta], Unposted([Alpha.link]));
    FilterKeepsAll([Beta], FreeOfEnglish);
    SelectIsFirstNewest([Alpha.link], todas);
  }

  /** When everything is recorded the run is quiet and the ledger unchanged. */
  lemma AllRecordedIsQuiet()
    ensures RunOutcome([Alpha.link, Beta.link], [Alpha, Beta], true) == Quiet
    ensures NextLedger([Alpha.link, Beta.link], [Alpha, Beta], true) == [Alpha.link, Beta.link]
  {
    FilterDropsAll([Alpha, Beta], Unposted([Alpha.link, Beta.link]));
  }

  /** "Online" matches the word "online": the comparison is made on the lower-cased title. */
  lemma AnnouncedIsEnglish()
    ensures MentionsEnglish(Announced.title.value) && !FreeOfEnglish(Announced)
  {
    var pre, word, post := "New ", "Online", " Game Announced";
    LowerAppend(pre + word, post);
    LowerAppend(pre, word);
    var lower := Lower(pre) + Lower(word) + Lower(post);
    assert Lower(Announced.title.value) == lower;
    assert Lower(word) == "online" by {
      assert word[0] == 'O' && word[1] == 'n' && word[2] == 'l';
      assert word[3] == 'i' && word[4] == 'n' && word[5] == 'e';
    }
    assert lower[|pre|..|pre| + |word|] == Lower(word);
    assert OccursAt(lower, "online", 4);
    IncludesAt(lower, "online");
    assert "online" in EnglishWords;
  }

  /** The word filter drops the English title and keeps the other two. */
  lemma EnglishTitleIsFiltered()
    ensures Filter([Announced, Alpha, Beta], FreeOfEnglish) == [Alpha, Beta]
  {
    AnnouncedIsEnglish();
    PlainTitles();
    var todas := [Announced, Alpha, Beta];
    assert todas[1..] == [Alpha, Beta];
    FilterKeepsAll([Alpha, Beta], FreeOfEnglish);
  }

  /** Of the three, only the two items without an English word survive the filters. */
  lemma EnglishTitleCandidates()
    ensures Candidates([], [Announced, Alpha, Beta]) == Some([Alpha, Beta])
  {
    FilterKeepsAll([Announced, Alpha, Beta], Unposted([]));
    EnglishTitleIsFiltered();
  }

  /** A title with an English word is passed over even when it is the newest. */
  lemma EnglishTitleIsSkipped()
    ensures RunOutcome([], [Announced, Alpha, Beta], true) == Posted(Alpha)
  {
    EnglishTitleCandidates();
    SelectIsFirstNewest([], [Announced, Alpha, Beta]);
    assert FirstNewest([Alpha, Beta]) == 0;
  }

  /** A failed send leaves the ledger as it was. */
  lemma FailedSendRecordsNothing()
    ensures RunOutcome([], [Alpha, Beta], false) == SendFailed(Alpha)
    ensures NextLedger([], [Alpha, Beta], false) == []
  {
    EmptyLedgerPostsNewest();
  }

  /** A feed that throws contributes nothing; the other feed's items still arrive. */
  lemma FailedFeedIsSkipped(readAt: int)
    ensures Gather([Err, Ok(Feed([Entry(Alpha.title, Alpha.link, Some(Alpha.pubDate)), Entry(Beta.title, Beta.link, Some(Beta.pubDate))], readAt))], Err, Err)
            == [Alpha, Beta]
  {
    var entries := [Entry(Alpha.title, Alpha.link, Some(Alpha.pubDate)), Entry(Beta.title, Beta.link, Some(Beta.pubDate))];
    var feeds: seq<Fetch<Feed>> := [Err, Ok(Feed(entries, readAt))];
    assert feeds[..1] == [Err] && feeds[..1][..0] == [];
    assert FeedItems(feeds[..1]) == [];
    assert FeedItems(feeds) == FeedItems(feeds[..1]) + EntryItems(entries, readAt);
    EntryItemsAt(entries, readAt);
  }

  /** The item scraped from one Vandal headline "V" and the one from one DEV headline "D". */
  function VandalItem(at: int): Item { Item(Some("V"), "https://v/1", at) }
  function DevItem(at: int): Item { Item(Some("D"), "https://d/1", at) }

  /** Two empty feeds, then one headline from each scraper, each page read at its own time. */
  function OneHeadlineEach(tVandal: int, tDev: int): seq<Item> {
    Gather([Ok(Feed([], tVandal)), Ok(Feed([], tVandal))],
           Ok(Page([Anchor("V", Some("https://v/1"))], tVandal)),
           Ok(Page([Anchor("D", Some("https://d/1"))], tDev)))
  }

  /** Two feeds that yield no entry add no item. */
  lemma EmptyFeedsAddNothing(t: int)
    ensures FeedItems([Ok(Feed([], t)), Ok(Feed([], t))]) == []
  {
    var feeds: seq<Fetch<Feed>> := [Ok(Feed([], t)), Ok(Feed([], t))];
    assert feeds[..1] == [feeds[0]] && feeds[..1][..0] == [];
    assert FeedItems(feeds[..1]) == [];
  }

  /** A headline with a one-letter text and an absolute link yields one item. */
  lemma OneHeadlineHarvest(site: Site, text: string, link: string, at: int)
    requires |text| == 1 && !IsSpace(text[0])
    requires |link| >= 4 && link[..4] == "http"
    ensures Harvest(site, [Anchor(text, Some(link))], at) == [Item(Some(text), link, at)]
  {
    var a := Anchor(text, Some(link));
    TrimCutsOnlyEdges(text);
    assert Trim(text) == text;
    assert StartsWith(link, "http");
    assert [a][..0] == [];
  }

  /** Each scraper turns its one headline into one item, dated when its page was read. */
  lemma OneHeadlineEachGathers(tVandal: int, tDev: int)
    ensures OneHeadlineEach(tVandal, tDev) == [VandalItem(tVandal), DevItem(tDev)]
  {
    EmptyFeedsAddNothing(tVandal);
    OneHeadlineHarvest(Vandal, "V", "https://v/1", tVandal);
    OneHeadlineHarvest(Dev, "D", "https://d/1", tDev);
  }

  /** "V" and "D" contain none of the four words. */
  lemma OneLetterTitles()
    ensures FreeOfEnglish(VandalItem(0)) && FreeOfEnglish(DevItem(0))
  {
    forall w | w in EnglishWords
      ensures !Includes(Lower("V"), w) && !Includes(Lower("D"), w)
    {
      NotIncludedWithoutFirstLetter(Lower("V"), w);
      NotIncludedWithoutFirstLetter(Lower("D"), w);
    }
  }

  /** Both headlines are new and free of English words, so both pass the filters. */
  lemma OneHeadlineCandidates(tVandal: int, tDev: int)
    ensures Candidates([], [VandalItem(tVandal), DevItem(tDev)]) == Some([VandalItem(tVandal), DevItem(tDev)])
  {
    var todas := [VandalItem(tVandal), DevItem(tDev)];
    OneLetterTitles();
    assert FreeOfEnglish(VandalItem(tVandal)) && FreeOfEnglish(DevItem(tDev));
    FilterKeepsAll(todas, Unposted([]));
    FilterKeepsAll(todas, FreeOfEnglish);
  }

  /** Of the two headlines, the later-read DEV one is chosen. */
  lemma LaterHeadlineIsChosen(tVandal: int, tDev: int)
    requires tVandal < tDev
    ensures Select([], [VandalItem(tVandal), DevItem(tDev)]) == Newest(DevItem(tDev))
  {
    var todas := [VandalItem(tVandal), DevItem(tDev)];
    OneHeadlineCandidates(tVandal, tDev);
    SelectIsFirstNewest([], todas);
    assert todas[0].pubDate < todas[1].pubDate;
    assert FirstNewest(todas) == 1;
  }

  /** When DEV's page is read after Vandal's, DEV's headline is the one sent. */
  lemma LaterScrapeIsPosted(tVandal: int, tDev: int)
    requires tVandal < tDev
    ensures RunOutcome([], OneHeadlineEach(tVandal, tDev), true) == Posted(DevItem(tDev))
  {
    OneHeadlineEachGathers(tVandal, tDev);
    LaterHeadlineIsChosen(tVandal, tDev);
  }

  /** A new feed entry without a title makes the word filter throw: nothing is sent, even an eligible item. */
  lemma UntitledEntryStopsTheRun()
    ensures RunOutcome([], [Item(None, "https://pressover.news/untitled/", 0), Alpha], true) == Crashed
    ensures NextLedger([], [Item(None, "https://pressover.news/untitled/", 0), Alpha], true) == []
  {
  }
}
