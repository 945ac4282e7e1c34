/**
 * The Reddit source (pipeline/topics/reddit.py): hot posts of the
 * configured subreddits, read from the decoded `hot.json` responses.
 *
 * Each HTTP response is given as data: `Some(json)` for a decoded body,
 * `None` when the request, its status check or its decoding raised. The
 * base-10 logarithm is a parameter.
 */
module TopicsReddit {
  import opened Wrappers
  import opened Json
  import opened PyText
  import opened TopicsBase

  const RedditName := "reddit"
  const DefaultSubreddits: seq<string> := ["technology", "worldnews"]
  const SummaryLimit: nat := 200
  const PermalinkHost := "https://reddit.com"

  datatype RedditSource = RedditSource(subreddits: seq<string>)

  /** `RedditSource(config)`: the configured subreddits, or the two defaults. */
  function NewRedditSource(config: Option<map<string, Json>>): (src: RedditSource)
    requires config.Some? && "subreddits" in config.value ==> IsStringList(config.value["subreddits"])
    ensures config.None? || "subreddits" !in config.value ==> src.subreddits == DefaultSubreddits
    ensures config.Some? && "subreddits" in config.value ==>
      |src.subreddits| == |config.value["subreddits"].items|
      && forall i :: 0 <= i < |src.subreddits| ==> config.value["subreddits"].items[i] == JStr(src.subreddits[i])
  {
    var cfg := if config.Some? then config.value else map[];
    if "subreddits" in cfg then RedditSource(Strings(cfg["subreddits"])) else RedditSource(DefaultSubreddits)
  }

  // ---------------------------------------------------------------------
  // Posts

  function RealMin(a: real, b: real): real { if a <= b then a else b }

  /** `min(1.0, log10(max(score, 1)) / 4)` */
  function Score(log10: nat -> real, score: int): (r: real)
    ensures r <= 1.0
  {
    RealMin(1.0, log10(if score >= 1 then score else 1) / 4.0)
  }

  /** A higher post score never gives a lower trending score, for a non-decreasing logarithm. */
  lemma ScoreMonotone(log10: nat -> real, a: int, b: int)
    requires forall x: nat, y: nat :: 1 <= x <= y ==> log10(x) <= log10(y)
    requires a <= b
    ensures Score(log10, a) <= Score(log10, b)
  {
    var x: nat := if a >= 1 then a else 1;
    var y: nat := if b >= 1 then b else 1;
    assert log10(x) <= log10(y);
  }

  /** With a logarithm that is not negative from 1 on, scores are normalised. */
  lemma ScoreNormalised(log10: nat -> real, score: int)
    requires forall x: nat :: x >= 1 ==> log10(x) >= 0.0
    ensures 0.0 <= Score(log10, score) <= 1.0
  {
    var x: nat := if score >= 1 then score else 1;
    assert log10(x) >= 0.0;
  }

  /** What the loop of `_fetch_subreddit` does with one child of the listing. */
  datatype PostOutcome = Malformed | Stickied | Kept(c: Candidate)

  /** `post.get("data", {})` when the post is a dict and so is its data; `.get` raises on anything else. */
  function PostData(post: Json): (d: Option<map<string, Json>>)
    ensures d.Some? <==> post.JObj? && Get(post.fields, "data", JObj(map[])).JObj?
    ensures d.Some? ==> d.value == Get(post.fields, "data", JObj(map[])).fields
  {
    if !post.JObj? then None
    else
      match Get(post.fields, "data", JObj(map[]))
      case JObj(d) => Some(d)
      case _ => None
  }

  /** What `max(score, 1)` can compare with an int: a number or a bool. */
  predicate Comparable(v: Json) {
    v.JNum? || v.JBool?
  }

  /** What `[:200]` can slice: a string or a list. */
  predicate Sliceable(v: Json) {
    v.JStr? || v.JArr?
  }

  /** The number a comparable score stands for in `max(score, 1)`: `True` is 1 and `False` is 0. */
  function ScoreValue(v: Json): (n: int)
    requires Comparable(v)
    ensures v.JNum? ==> n == v.n
    ensures v.JBool? ==> n == if v.b then 1 else 0
  {
    if v.JNum? then v.n else if v.b then 1 else 0
  }

  /** `selftext[:200]`: a prefix of a string, or the `str()` of a list's first 200 items. */
  function SummaryOf(v: Json, repr: Json -> string): (r: string)
    requires Sliceable(v)
    ensures v.JStr? ==> |r| == Min(SummaryLimit, |v.s|) && StartsWith(v.s, r)
    ensures v.JArr? ==> r == repr(JArr(v.items[..Min(SummaryLimit, |v.items|)]))
  {
    if v.JStr? then SlicePrefix(v.s, SummaryLimit as int)
    else repr(JArr(SlicePrefix(v.items, SummaryLimit as int)))
  }

  /**
   * The candidate built from a post's `data` object. Only a post or data
   * that is not a dict, a score `max` cannot compare, or a selftext that
   * cannot be sliced makes the loop raise; any other title or permalink
   * is formatted with `str()`.
   */
  function PostOf(sub: string, post: Json, log10: nat -> real, repr: Json -> string): (o: PostOutcome)
    ensures o.Malformed? <==>
      || PostData(post).None?
      || (&& !Truthy(Get(PostData(post).value, "stickied", JNull))
          && !(Comparable(Get(PostData(post).value, "score", JNum(0))) && Sliceable(Get(PostData(post).value, "selftext", JStr("")))))
    ensures o.Stickied? <==> PostData(post).Some? && Truthy(Get(PostData(post).value, "stickied", JNull))
    ensures o.Kept? ==>
      && PostData(post).Some?
      && (var d := PostData(post).value;
          var score := Get(d, "score", JNum(0));
          var selftext := Get(d, "selftext", JStr(""));
          && Comparable(score) && Sliceable(selftext)
          && o.c.title == Str(Get(d, "title", JStr("")), repr)
          && o.c.source == "reddit/r/" + sub
          && o.c.trendingScore == Score(log10, ScoreValue(score))
          && o.c.summary == SummaryOf(selftext, repr)
          && o.c.url == PermalinkHost + Str(Get(d, "permalink", JStr("")), repr)
          && o.c.metadata == map["score" := score, "num_comments" := Get(d, "num_comments", JNum(0))])
  {
    match PostData(post)
    case None => Malformed
    case Some(d) =>
      if Truthy(Get(d, "stickied", JNull)) then Stickied
      else
        var score := Get(d, "score", JNum(0));
        var selftext := Get(d, "selftext", JStr(""));
        if !Comparable(score) || !Sliceable(selftext) then Malformed
        else
          Kept(Candidate(
            Str(Get(d, "title", JStr("")), repr),
            "reddit/r/" + sub,
            Score(log10, ScoreValue(score)),
            SummaryOf(selftext, repr),
            PermalinkHost + Str(Get(d, "permalink", JStr("")), repr),
            map["score" := score, "num_comments" := Get(d, "num_comments", JNum(0))]))
  }

  /**
   * What `data.get("data", {}).get("children", [])` iterates over. Iterating
   * a non-empty object or string yields strings, which have no `.get`, so
   * those fail like any other non-listing.
   */
  function PostsOf(resp: Json): Option<seq<Json>> {
    if !resp.JObj? then None
    else
      var data := Get(resp.fields, "data", JObj(map[]));
      if !data.JObj? then None
      else
        match Get(data.fields, "children", JArr([]))
        case JArr(items) => Some(items)
        case JObj(f) => if |f| == 0 then Some([]) else None
        case JStr(s) => if |s| == 0 then Some([]) else None
        case _ => None
  }

  /** The candidates of the kept outcomes, in order, or None from the first malformed one on. */
  function Collect(os: seq<PostOutcome>): Option<seq<Candidate>>
    decreases |os|
  {
    if |os| == 0 then Some([])
    else
      match Collect(os[..|os| - 1])
      case None => None
      case Some(ts) =>
        match os[|os| - 1]
        case Malformed => None
        case Stickied => Some(ts)
        case Kept(c) => Some(ts + [c])
  }

  function Outcomes(sub: string, posts: seq<Json>, log10: nat -> real, repr: Json -> string): (os: seq<PostOutcome>)
    ensures |os| == |posts|
  {
    seq(|posts|, i requires 0 <= i < |posts| => PostOf(sub, posts[i], log10, repr))
  }

  /** The loop over a listing's posts, one outcome after the other. */
  function PostsTopics(sub: string, posts: seq<Json>, log10: nat -> real, repr: Json -> string): Option<seq<Candidate>> {
    Collect(Outcomes(sub, posts, log10, repr))
  }

  /** The candidates of the kept posts, first to last. */
  function KeptOf(os: seq<PostOutcome>): seq<Candidate>
    decreases |os|
  {
    if |os| == 0 then []
    else KeptOf(os[..|os| - 1]) + (if os[|os| - 1].Kept? then [os[|os| - 1].c] else [])
  }

  lemma KeptOfAppend(os: seq<PostOutcome>, o: PostOutcome)
    ensures KeptOf(os + [o]) == KeptOf(os) + (if o.Kept? then [o.c] else [])
  {
    assert (os + [o])[..|os|] == os;
  }

  lemma {:induction false} CollectKept(os: seq<PostOutcome>)
    ensures Collect(os).None? <==> exists i :: 0 <= i < |os| && os[i].Malformed?
    ensures Collect(os).Some? ==> Collect(os).value == KeptOf(os)
    decreases |os|
  {
    if |os| > 0 {
      var init := os[..|os| - 1];
      CollectKept(init);
      assert os == init + [os[|os| - 1]];
      KeptOfAppend(init, os[|os| - 1]);
      if Collect(init).None? {
        var i :| 0 <= i < |init| && init[i].Malformed?;
        assert os[i] == init[i];
      }
      forall i | 0 <= i < |init| ensures os[i] == init[i] {
      }
    }
  }

  /**
   * A listing fails exactly when one of its posts is malformed; otherwise the
   * result is the kept posts in response order, stickied posts left out.
   */
  lemma PostsTopicsKept(sub: string, posts: seq<Json>, log10: nat -> real, repr: Json -> string)
    ensures PostsTopics(sub, posts, log10, repr).None? <==> exists i :: 0 <= i < |posts| && PostOf(sub, posts[i], log10, repr).Malformed?
    ensures PostsTopics(sub, posts, log10, repr).Some? ==> PostsTopics(sub, posts, log10, repr).value == KeptOf(Outcomes(sub, posts, log10, repr))
  {
    var os := Outcomes(sub, posts, log10, repr);
    CollectKept(os);
    assert forall i :: 0 <= i < |posts| ==> os[i] == PostOf(sub, posts[i], log10, repr);
  }

  /** The topics of one decoded response, or None when `_fetch_subreddit` raises on it. */
  function SubredditTopics(sub: string, resp: Json, log10: nat -> real, repr: Json -> string): Option<seq<Candidate>> {
    match PostsOf(resp)
    case None => None
    case Some(posts) => PostsTopics(sub, posts, log10, repr)
  }

  /**
   * A post whose permalink is null is still a topic and the listing does
   * not fail: its url ends in the `str()` of None.
   */
  lemma NullPermalinkKept(sub: string, log10: nat -> real, repr: Json -> string)
    ensures var post := JObj(map["data" := JObj(map["title" := JStr("x"), "permalink" := JNull])]);
      var resp := JObj(map["data" := JObj(map["children" := JArr([post])])]);
      var r := SubredditTopics(sub, resp, log10, repr);
      && r.Some? && |r.value| == 1
      && r.value[0].title == "x"
      && r.value[0].url == PermalinkHost + repr(JNull)
      && r.value[0].summary == ""
      && r.value[0].trendingScore == Score(log10, 1)
  {
    var post := JObj(map["data" := JObj(map["title" := JStr("x"), "permalink" := JNull])]);
    var resp := JObj(map["data" := JObj(map["children" := JArr([post])])]);
    assert PostsOf(resp) == Some([post]);
    var o := PostOf(sub, post, log10, repr);
    assert o.Kept?;
    var os := Outcomes(sub, [post], log10, repr);
    assert os == [o];
    assert os[..|os| - 1] == [] && os[|os| - 1] == o;
    assert Collect(os[..|os| - 1]) == Some([]);
    assert [] + [o.c] == [o.c];
  }

  /**
   * A boolean score, a title that is not a string and a list selftext do
   * not make the loop raise: `True` counts as 1, and the title and summary
   * are rendered with `str()`.
   */
  lemma OddFieldsKept(sub: string, log10: nat -> real, repr: Json -> string)
    ensures var d := map["title" := JNum(7), "score" := JBool(true), "selftext" := JArr([JNum(1)])];
      var o := PostOf(sub, JObj(map["data" := JObj(d)]), log10, repr);
      && o.Kept?
      && o.c.title == repr(JNum(7))
      && o.c.trendingScore == Score(log10, 1)
      && o.c.summary == repr(JArr([JNum(1)]))
      && o.c.metadata["score"] == JBool(true)
  {
    var d := map["title" := JNum(7), "score" := JBool(true), "selftext" := JArr([JNum(1)])];
    assert PostData(JObj(map["data" := JObj(d)])) == Some(d);
    assert [JNum(1)][..Min(SummaryLimit, 1)] == [JNum(1)];
  }

  lemma PostsTopicsStep(sub: string, posts: seq<Json>, log10: nat -> real, repr: Json -> string, i: nat)
    requires i < |posts|
    ensures PostsTopics(sub, posts[..i + 1], log10, repr) ==
      match PostsTopics(sub, posts[..i], log10, repr)
      case None => None
      case Some(ts) =>
        match PostOf(sub, posts[i], log10, repr)
        case Malformed => None
        case Stickied => Some(ts)
        case Kept(c) => Some(ts + [c])
  {
    var os := Outcomes(sub, posts[..i + 1], log10, repr);
    assert os[..i] == Outcomes(sub, posts[..i], log10, repr);
    assert os[i] == PostOf(sub, posts[i], log10, repr);
  }

  /** `_fetch_subreddit` after the request: the loop over the listing's children. */
  method FetchSubreddit(sub: string, resp: Json, log10: nat -> real, repr: Json -> string) returns (r: Option<seq<Candidate>>)
    ensures r == SubredditTopics(sub, resp, log10, repr)
  {
    var children := PostsOf(resp);
    if children.None? {
      return None;
    }
    var posts := children.value;
    var topics: seq<Candidate> := [];
    for i := 0 to |posts|
      invariant PostsTopics(sub, posts[..i], log10, repr) == Some(topics)
    {
      PostsTopicsStep(sub, posts, log10, repr, i);
      match PostOf(sub, posts[i], log10, repr)
      case Malformed =>
        PostsTopicsKept(sub, posts, log10, repr);
        return None;
      case Stickied =>
      case Kept(c) =>
        topics := topics + [c];
    }
    assert posts[..|posts|] == posts;
    r := Some(topics);
  }

  // ---------------------------------------------------------------------
  // fetch_topics

  /** A GET of `url` with `params={"limit": limit}`. */
  datatype Request = Request(url: string, limit: int)

  function HotUrl(sub: string): string {
    "https://www.reddit.com/r/" + sub + "/hot.json"
  }

  /** The requests `fetch_topics` makes: one per subreddit, in order, all with the same limit. */
  function Requests(subs: seq<string>, limit: int): (rs: seq<Request>)
    ensures |rs| == |subs|
    ensures forall i :: 0 <= i < |subs| ==> rs[i] == Request(HotUrl(subs[i]), limit)
  {
    seq(|subs|, i requires 0 <= i < |subs| => Request(HotUrl(subs[i]), limit))
  }

  /** The topics of the subreddits that answered, in configured order. */
  function Gathered(subs: seq<string>, responses: seq<Option<Json>>, log10: nat -> real, repr: Json -> string): seq<Candidate>
    requires |responses| == |subs|
    decreases |subs|
  {
    if |subs| == 0 then []
    else
      var n := |subs| - 1;
      Gathered(subs[..n], responses[..n], log10, repr) + Answered(subs[n], responses[n], log10, repr)
  }

  /** What one subreddit contributes: its topics, or nothing when its request or listing failed. */
  function Answered(sub: string, resp: Option<Json>, log10: nat -> real, repr: Json -> string): seq<Candidate> {
    if resp.Some? then SubredditTopics(sub, resp.value, log10, repr).GetOr([]) else []
  }

  lemma GatheredStep(subs: seq<string>, responses: seq<Option<Json>>, log10: nat -> real, repr: Json -> string, i: nat)
    requires |responses| == |subs| && i < |subs|
    ensures Gathered(subs[..i + 1], responses[..i + 1], log10, repr)
         == Gathered(subs[..i], responses[..i], log10, repr)
            + Answered(subs[i], responses[i], log10, repr)
  {
    assert subs[..i + 1][..i] == subs[..i];
    assert responses[..i + 1][..i] == responses[..i];
  }

  /**
   * `fetch_topics`: one request per subreddit with the per-subreddit quota
   * plus two, the answers concatenated in configured order with failing
   * subreddits skipped, cut to `limit`.
   */
  method FetchTopics(src: RedditSource, limit: int, responses: seq<Option<Json>>, log10: nat -> real, repr: Json -> string)
    returns (r: Result<seq<Candidate>>, requests: seq<Request>)
    requires |responses| == |src.subreddits|
    ensures |src.subreddits| == 0 ==> r == Err(ZeroDivision) && requests == []
    ensures |src.subreddits| > 0 ==>
      && r == Ok(SlicePrefix(Gathered(src.subreddits, responses, log10, repr), limit))
      && requests == Requests(src.subreddits, Quota(limit, |src.subreddits|) + 2)
  {
    var subs := src.subreddits;
    if |subs| == 0 {
      return Err(ZeroDivision), [];
    }
    var perSub := Quota(limit, |subs|);
    ghost var all := Requests(subs, perSub + 2);
    var topics: seq<Candidate> := [];
    requests := [];
    for i := 0 to |subs|
      invariant topics == Gathered(subs[..i], responses[..i], log10, repr)
      invariant requests == all[..i]
    {
      GatheredStep(subs, responses, log10, repr, i);
      TakeNext(all, i);
      requests := requests + [Request(HotUrl(subs[i]), perSub + 2)];
      var got := FetchAnswered(subs[i], responses[i], log10, repr);
      topics := topics + got;
    }
    assert subs[..|subs|] == subs && responses[..|responses|] == responses;
    assert all[..|subs|] == all;
    r := Ok(SlicePrefix(topics, limit));
  }

  /** One turn of the loop of `fetch_topics`: a failing subreddit is skipped. */
  method FetchAnswered(sub: string, resp: Option<Json>, log10: nat -> real, repr: Json -> string) returns (ts: seq<Candidate>)
    ensures ts == Answered(sub, resp, log10, repr)
  {
    if resp.None? {
      return [];
    }
    var got := FetchSubreddit(sub, resp.value, log10, repr);
    ts := if got.Some? then got.value else [];
  }

  /** When every subreddit fails, nothing is found. */
  lemma {:induction false} GatheredAllFail(subs: seq<string>, responses: seq<Option<Json>>, log10: nat -> real, repr: Json -> string)
    requires |responses| == |subs|
    requires forall i :: 0 <= i < |subs| ==>
      responses[i].None? || SubredditTopics(subs[i], responses[i].value, log10, repr).None?
    ensures Gathered(subs, responses, log10, repr) == []
    decreases |subs|
  {
    if |subs| > 0 {
      var n := |subs| - 1;
      GatheredAllFail(subs[..n], responses[..n], log10, repr);
    }
  }

  /** Every gathered topic is a kept post of one of the subreddits. */
  lemma {:induction false} GatheredSources(subs: seq<string>, responses: seq<Option<Json>>, log10: nat -> real, repr: Json -> string)
    requires |responses| == |subs|
    ensures forall t :: t in Gathered(subs, responses, log10, repr) ==>
      exists i :: 0 <= i < |subs| && t.source == "reddit/r/" + subs[i]
    decreases |subs|
  {
    if |subs| > 0 {
      var n := |subs| - 1;
      GatheredSources(subs[..n], responses[..n], log10, repr);
      forall t | t in Answered(subs[n], responses[n], log10, repr) ensures t.source == "reddit/r/" + subs[n] {
        var resp := responses[n].value;
        var posts := PostsOf(resp).value;
        PostsTopicsKept(subs[n], posts, log10, repr);
        KeptOfSources(subs[n], Outcomes(subs[n], posts, log10, repr));
      }
      forall t | t in Gathered(subs[..n], responses[..n], log10, repr)
        ensures exists i :: 0 <= i < |subs| && t.source == "reddit/r/" + subs[i]
      {
        var i :| 0 <= i < n && t.source == "reddit/r/" + subs[..n][i];
        assert subs[..n][i] == subs[i];
      }
    }
  }

  lemma {:induction false} KeptOfSources(sub: string, os: seq<PostOutcome>)
    requires forall i :: 0 <= i < |os| && os[i].Kept? ==> os[i].c.source == "reddit/r/" + sub
    ensures forall t :: t in KeptOf(os) ==> t.source == "reddit/r/" + sub
    decreases |os|
  {
    if |os| > 0 {
      KeptOfSources(sub, os[..|os| - 1]);
    }
  }
}
