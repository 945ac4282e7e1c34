/**
 * The RSS/Atom source (pipeline/topics/rss.py). Parsing a feed is given as
 * data: `Some(feed)` for what `feedparser.parse` returned, `None` when it
 * raised. Whether `feedparser` can be imported is a parameter.
 */
module TopicsRss {
  import opened Wrappers
  import opened Json
  import opened PyText
  import opened TopicsBase

  const RssName := "rss"
  const DefaultFeeds: seq<string> := ["https://hnrss.org/frontpage"]
  const SummaryLimit: nat := 200
  const SourceLabelLimit: nat := 30
  const RssScore: real := 0.5

  /** The message of the `ImportError` raised when `feedparser` is missing. */
  const NoFeedparser := "No module named 'feedparser'"

  /** A feed entry's keys that the source reads; absent keys are None. */
  datatype FeedEntry = FeedEntry(title: Option<string>, summary: Option<string>, link: Option<string>)

  /** A parsed feed: the title in its channel data, and its entries. */
  datatype Feed = Feed(title: Option<string>, entries: seq<FeedEntry>)

  datatype RssSource = RssSource(feeds: seq<string>)

  /** `RSSSource(config)`: the configured feeds, or the Hacker News front page. */
  function NewRssSource(config: Option<map<string, Json>>): (src: RssSource)
    requires config.Some? && "feeds" in config.value ==> IsStringList(config.value["feeds"])
    ensures config.None? || "feeds" !in config.value ==> src.feeds == DefaultFeeds
    ensures config.Some? && "feeds" in config.value ==>
      |src.feeds| == |config.value["feeds"].items|
      && forall i :: 0 <= i < |src.feeds| ==> config.value["feeds"].items[i] == JStr(src.feeds[i])
  {
    var cfg := if config.Some? then config.value else map[];
    if "feeds" in cfg then RssSource(Strings(cfg["feeds"])) else RssSource(DefaultFeeds)
  }

  /** `is_available`: exactly when `feedparser` imports. */
  function IsAvailable(feedparserInstalled: bool): (r: bool)
    ensures r == feedparserInstalled
  {
    feedparserInstalled
  }

  /**
   * The candidate for one entry of a feed fetched from `url`. The source
   * label is the feed's title, or the url when the feed has none, cut to
   * 30 characters.
   */
  function EntryTopic(url: string, feed: Feed, e: FeedEntry): (c: Candidate)
    ensures c.title == e.title.GetOr("") && c.url == e.link.GetOr("")
    ensures c.trendingScore == RssScore && Normalised(c)
    ensures |c.summary| == Min(SummaryLimit, |e.summary.GetOr("")|) && StartsWith(e.summary.GetOr(""), c.summary)
    ensures var name := feed.title.GetOr(url);
      && StartsWith(c.source, "rss/")
      && |c.source[4..]| == Min(SourceLabelLimit, |name|)
      && StartsWith(name, c.source[4..])
    ensures c.metadata == map[]
  {
    Candidate(
      e.title.GetOr(""),
      "rss/" + SlicePrefix(feed.title.GetOr(url), SourceLabelLimit as int),
      RssScore,
      SlicePrefix(e.summary.GetOr(""), SummaryLimit as int),
      e.link.GetOr(""),
      map[])
  }

  /** The first `quota` entries of one feed, as candidates in feed order. */
  function FeedTopics(url: string, feed: Feed, quota: nat): (ts: seq<Candidate>)
    ensures |ts| == Min(quota, |feed.entries|)
  {
    var es := SlicePrefix(feed.entries, quota as int);
    seq(|es|, i requires 0 <= i < |es| => EntryTopic(url, feed, es[i]))
  }

  /** The topics of the feeds that parsed, in configured order. */
  function Gathered(feeds: seq<string>, parsed: seq<Option<Feed>>, quota: nat): seq<Candidate>
    requires |parsed| == |feeds|
    decreases |feeds|
  {
    if |feeds| == 0 then []
    else
      var n := |feeds| - 1;
      Gathered(feeds[..n], parsed[..n], quota) + Parsed(feeds[n], parsed[n], quota)
  }

  /** What one feed contributes: nothing when parsing it raised. */
  function Parsed(url: string, feed: Option<Feed>, quota: nat): seq<Candidate> {
    if feed.Some? then FeedTopics(url, feed.value, quota) else []
  }

  lemma GatheredStep(feeds: seq<string>, parsed: seq<Option<Feed>>, quota: nat, i: nat)
    requires |parsed| == |feeds| && i < |feeds|
    ensures Gathered(feeds[..i + 1], parsed[..i + 1], quota)
         == Gathered(feeds[..i], parsed[..i], quota) + Parsed(feeds[i], parsed[i], quota)
  {
    assert feeds[..i + 1][..i] == feeds[..i];
    assert parsed[..i + 1][..i] == parsed[..i];
  }

  /**
   * `fetch_topics`: at most `quota` entries from each feed, in feed order,
   * feeds that fail to parse skipped, the whole cut to `limit`.
   */
  method FetchTopics(src: RssSource, limit: int, feedparserInstalled: bool, parsed: seq<Option<Feed>>)
    returns (r: Result<seq<Candidate>>)
    requires |parsed| == |src.feeds|
    ensures !feedparserInstalled ==> r == Err(NoFeedparser)
    ensures feedparserInstalled && |src.feeds| == 0 ==> r == Err(ZeroDivision)
    ensures feedparserInstalled && |src.feeds| > 0 ==>
      r == Ok(SlicePrefix(Gathered(src.feeds, parsed, Quota(limit, |src.feeds|)), limit))
  {
    if !feedparserInstalled {
      return Err(NoFeedparser);
    }
    var feeds := src.feeds;
    if |feeds| == 0 {
      return Err(ZeroDivision);
    }
    var perFeed := Quota(limit, |feeds|);
    var topics: seq<Candidate> := [];
    for i := 0 to |feeds|
      invariant topics == Gathered(feeds[..i], parsed[..i], perFeed)
    {
      GatheredStep(feeds, parsed, perFeed, i);
      if parsed[i].None? {
        continue;
      }
      var feed := parsed[i].value;
      var entries := SlicePrefix(feed.entries, perFeed as int);
      ghost var before := topics;
      for j := 0 to |entries|
        invariant topics == before + FeedTopics(feeds[i], feed, perFeed)[..j]
      {
        var e := entries[j];
        TakeNext(FeedTopics(feeds[i], feed, perFeed), j);
        topics := topics + [Candidate(
          e.title.GetOr(""),
          "rss/" + SlicePrefix(feed.title.GetOr(feeds[i]), SourceLabelLimit as int),
          RssScore,
          SlicePrefix(e.summary.GetOr(""), SummaryLimit as int),
          e.link.GetOr(""),
          map[])];
      }
      assert FeedTopics(feeds[i], feed, perFeed)[..|entries|] == FeedTopics(feeds[i], feed, perFeed);
    }
    assert feeds[..|feeds|] == feeds && parsed[..|parsed|] == parsed;
    r := Ok(SlicePrefix(topics, limit));
  }

  /** No feed gives more than the quota. */
  lemma {:induction false} GatheredBound(feeds: seq<string>, parsed: seq<Option<Feed>>, quota: nat)
    requires |parsed| == |feeds|
    ensures |Gathered(feeds, parsed, quota)| <= quota * |feeds|
    decreases |feeds|
  {
    if |feeds| > 0 {
      var n := |feeds| - 1;
      GatheredBound(feeds[..n], parsed[..n], quota);
      var g, last := Gathered(feeds[..n], parsed[..n], quota), Parsed(feeds[n], parsed[n], quota);
      assert Gathered(feeds, parsed, quota) == g + last;
      assert |last| <= quota;
      MulSucc(quota, n);
    }
  }

  lemma MulSucc(q: nat, n: nat)
    ensures q * n + q == q * (n + 1)
  {
  }

  /** Every gathered topic scores 0.5 and has a summary of at most 200 characters. */
  lemma {:induction false} GatheredScores(feeds: seq<string>, parsed: seq<Option<Feed>>, quota: nat)
    requires |parsed| == |feeds|
    ensures forall t :: t in Gathered(feeds, parsed, quota) ==> t.trendingScore == RssScore && |t.summary| <= SummaryLimit
    decreases |feeds|
  {
    if |feeds| > 0 {
      var n := |feeds| - 1;
      GatheredScores(feeds[..n], parsed[..n], quota);
      ParsedScores(feeds[n], parsed[n], quota);
    }
  }

  lemma ParsedScores(url: string, feed: Option<Feed>, quota: nat)
    ensures forall t :: t in Parsed(url, feed, quota) ==> t.trendingScore == RssScore && |t.summary| <= SummaryLimit
  {
    var ts := Parsed(url, feed, quota);
    forall t | t in ts ensures t.trendingScore == RssScore && |t.summary| <= SummaryLimit {
      var k :| 0 <= k < |ts| && ts[k] == t;
    }
  }

  /** With no feed parsing, nothing is found. */
  lemma {:induction false} GatheredAllFail(feeds: seq<string>, parsed: seq<Option<Feed>>, quota: nat)
    requires |parsed| == |feeds|
    requires forall i :: 0 <= i < |parsed| ==> parsed[i].None?
    ensures Gathered(feeds, parsed, quota) == []
    decreases |feeds|
  {
    if |feeds| > 0 {
      var n := |feeds| - 1;
      GatheredAllFail(feeds[..n], parsed[..n], quota);
    }
  }
}
