/**
 * The topic engine (pipeline/topics/engine.py): which sources are loaded,
 * and what `discover` makes of their results.
 *
 * The parallel fan-out is replaced by its outcome: `results[i]` is what
 * source `i`'s `fetch_topics` returned or raised, and `completion` is the
 * order `as_completed` handed the available sources back in.
 */
module TopicsEngine {
  import opened Wrappers
  import opened Json
  import opened PyText
  import opened TopicsBase

  /** The sources `_load_sources` registers, in registration order. */
  const Registry: seq<string> := ["reddit", "rss", "google_trends", "twitter", "tiktok"]

  /** The sources enabled when their config says nothing. */
  const DefaultOn: set<string> := {"reddit", "rss", "google_trends"}

  const DefaultLimit: nat := 15
  const MenuSize: nat := 20
  const KeyLength: nat := 50

  /** A constructed source: its name and the config object it was built from. */
  datatype LoadedSource = LoadedSource(name: string, config: map<string, Json>)

  /** `source_config.get(name, {})` */
  function ConfigOf(topicSources: map<string, map<string, Json>>, name: string): map<string, Json> {
    if name in topicSources then topicSources[name] else map[]
  }

  /** `src_cfg.get("enabled", name in (...))`, taken for its truth value. */
  predicate Enabled(cfg: map<string, Json>, name: string) {
    Truthy(Get(cfg, "enabled", JBool(name in DefaultOn)))
  }

  /** The sources loaded from the first names of the registry: enabled and constructed without raising. */
  function Loaded(names: seq<string>, topicSources: map<string, map<string, Json>>, initFails: set<string>): seq<LoadedSource>
    decreases |names|
  {
    if |names| == 0 then []
    else
      var n := names[|names| - 1];
      var cfg := ConfigOf(topicSources, n);
      Loaded(names[..|names| - 1], topicSources, initFails)
        + if Enabled(cfg, n) && n !in initFails then [LoadedSource(n, cfg)] else []
  }

  lemma LoadedStep(names: seq<string>, topicSources: map<string, map<string, Json>>, initFails: set<string>, i: nat)
    requires i < |names|
    ensures Loaded(names[..i + 1], topicSources, initFails)
         == Loaded(names[..i], topicSources, initFails)
            + var cfg := ConfigOf(topicSources, names[i]);
              if Enabled(cfg, names[i]) && names[i] !in initFails then [LoadedSource(names[i], cfg)] else []
  {
    assert names[..i + 1][..i] == names[..i];
  }

  /** A source is loaded exactly when it is enabled and its constructor does not raise. */
  lemma {:induction false} LoadedSpec(names: seq<string>, topicSources: map<string, map<string, Json>>, initFails: set<string>)
    ensures forall s :: s in Loaded(names, topicSources, initFails) <==>
      s.name in names && Enabled(ConfigOf(topicSources, s.name), s.name) && s.name !in initFails
      && s.config == ConfigOf(topicSources, s.name)
    decreases |names|
  {
    if |names| > 0 {
      var init := names[..|names| - 1];
      LoadedSpec(init, topicSources, initFails);
      assert names == init + [names[|names| - 1]];
    }
  }

  /** The defaults: with no config at all, exactly reddit, rss and google_trends are loaded. */
  lemma LoadedDefaults()
    ensures Loaded(Registry, map[], {}) == [LoadedSource("reddit", map[]), LoadedSource("rss", map[]), LoadedSource("google_trends", map[])]
  {
    var none: map<string, map<string, Json>> := map[];
    assert Registry[..0] == [] && Registry[..5] == Registry;
    LoadedStep(Registry, none, {}, 0);
    LoadedStep(Registry, none, {}, 1);
    LoadedStep(Registry, none, {}, 2);
    LoadedStep(Registry, none, {}, 3);
    LoadedStep(Registry, none, {}, 4);
    assert Enabled(map[], "reddit") && Enabled(map[], "rss") && Enabled(map[], "google_trends");
    assert !Enabled(map[], "twitter") && !Enabled(map[], "tiktok");
  }

  /**
   * `is_available` of each kind of source: reddit keeps the default, rss and
   * google_trends need their library, twitter and tiktok read `enabled`.
   */
  function IsAvailable(src: LoadedSource, feedparserInstalled: bool, pytrendsInstalled: bool): bool {
    match src.name
    case "rss" => feedparserInstalled
    case "google_trends" => pytrendsInstalled
    case "twitter" => Truthy(Get(src.config, "enabled", JBool(false)))
    case "tiktok" => Truthy(Get(src.config, "enabled", JBool(false)))
    case _ => DefaultAvailable
  }

  /** A loaded twitter or tiktok source is always available: it was loaded because it is enabled. */
  lemma LoadedOptionalAvailable(topicSources: map<string, map<string, Json>>, initFails: set<string>, s: LoadedSource,
                                feedparserInstalled: bool, pytrendsInstalled: bool)
    requires s in Loaded(Registry, topicSources, initFails)
    requires s.name == "twitter" || s.name == "tiktok"
    ensures IsAvailable(s, feedparserInstalled, pytrendsInstalled)
  {
    LoadedSpec(Registry, topicSources, initFails);
  }

  function Availability(sources: seq<LoadedSource>, feedparserInstalled: bool, pytrendsInstalled: bool): (a: seq<bool>)
    ensures |a| == |sources|
  {
    seq(|sources|, i requires 0 <= i < |sources| => IsAvailable(sources[i], feedparserInstalled, pytrendsInstalled))
  }

  /** `order` lists every available source exactly once and nothing else. */
  predicate IsCompletionOrder(order: seq<nat>, available: seq<bool>) {
    && (forall k :: 0 <= k < |order| ==> order[k] < |available| && available[order[k]])
    && (forall k1, k2 :: 0 <= k1 < k2 < |order| ==> order[k1] != order[k2])
    && (forall i :: 0 <= i < |available| && available[i] ==> i in order)
  }

  /** `all_topics`: the successful results, in completion order; a source that raised adds nothing. */
  function Gathered(results: seq<Result<seq<Candidate>>>, order: seq<nat>): seq<Candidate>
    requires forall k :: 0 <= k < |order| ==> order[k] < |results|
    decreases |order|
  {
    if |order| == 0 then []
    else
      var r := results[order[|order| - 1]];
      Gathered(results, order[..|order| - 1]) + if r.Ok? then r.value else []
  }

  lemma GatheredStep(results: seq<Result<seq<Candidate>>>, order: seq<nat>, k: nat)
    requires k < |order| && forall j :: 0 <= j < |order| ==> order[j] < |results|
    ensures Gathered(results, order[..k + 1])
         == Gathered(results, order[..k]) + if results[order[k]].Ok? then results[order[k]].value else []
  {
    assert order[..k + 1][..k] == order[..k];
  }

  /** Every gathered topic was returned by a source that succeeded. */
  lemma {:induction false} GatheredFrom(results: seq<Result<seq<Candidate>>>, order: seq<nat>)
    requires forall k :: 0 <= k < |order| ==> order[k] < |results|
    ensures forall t :: t in Gathered(results, order) ==>
      exists k :: 0 <= k < |order| && results[order[k]].Ok? && t in results[order[k]].value
    decreases |order|
  {
    if |order| > 0 {
      var init := order[..|order| - 1];
      GatheredFrom(results, init);
      forall t | t in Gathered(results, order)
        ensures exists k :: 0 <= k < |order| && results[order[k]].Ok? && t in results[order[k]].value
      {
        if t in Gathered(results, init) {
          var k :| 0 <= k < |init| && results[init[k]].Ok? && t in results[init[k]].value;
          assert init[k] == order[k];
        } else {
          assert results[order[|order| - 1]].Ok? && t in results[order[|order| - 1]].value;
        }
      }
    }
  }

  // ---------------------------------------------------------------------
  // Deduplication

  /** The dedup key: `title.lower().strip()[:50]`. */
  function Key(t: Candidate): (k: string)
    ensures |k| <= KeyLength
  {
    SlicePrefix(Strip(Lower(t.title)), KeyLength as int)
  }

  function KeySet(key: Candidate -> string, ts: seq<Candidate>): set<string> {
    set t | t in ts :: key(t)
  }

  /** No topic of `ts` has key `k`. */
  predicate NoKey(key: Candidate -> string, k: string, ts: seq<Candidate>) {
    forall i :: 0 <= i < |ts| ==> key(ts[i]) != k
  }

  predicate DistinctKeys(key: Candidate -> string, ts: seq<Candidate>) {
    forall i, j :: 0 <= i < j < |ts| ==> key(ts[i]) != key(ts[j])
  }

  /** The dedup loop of `discover`: a topic is kept when no kept topic has its key. */
  function Dedup(key: Candidate -> string, ts: seq<Candidate>): seq<Candidate>
    decreases |ts|
  {
    if |ts| == 0 then []
    else
      var u := Dedup(key, ts[..|ts| - 1]);
      var t := ts[|ts| - 1];
      if key(t) in KeySet(key, u) then u else u + [t]
  }

  lemma DedupStep(key: Candidate -> string, ts: seq<Candidate>, i: nat)
    requires i < |ts|
    ensures var u := Dedup(key, ts[..i]);
      Dedup(key, ts[..i + 1]) == if key(ts[i]) in KeySet(key, u) then u else u + [ts[i]]
  {
    assert ts[..i + 1][..i] == ts[..i];
  }

  lemma KeySetAppend(key: Candidate -> string, u: seq<Candidate>, t: Candidate)
    ensures KeySet(key, u + [t]) == KeySet(key, u) + {key(t)}
  {
    assert forall x :: x in u + [t] <==> x in u || x == t;
  }

  lemma KeySetNoKey(key: Candidate -> string, k: string, ts: seq<Candidate>)
    ensures k !in KeySet(key, ts) <==> NoKey(key, k, ts)
  {
    if k in KeySet(key, ts) {
      var x :| x in ts && key(x) == k;
    }
  }

  lemma SnocDistinct(key: Candidate -> string, u: seq<Candidate>, t: Candidate)
    requires DistinctKeys(key, u) && NoKey(key, key(t), u)
    ensures DistinctKeys(key, u + [t])
  {
    var v := u + [t];
    forall i, j | 0 <= i < j < |v| ensures key(v[i]) != key(v[j]) {
      assert v[i] == u[i];
      if j < |u| {
        assert v[j] == u[j];
      }
    }
  }

  /**
   * Deduplication keeps exactly one topic per key: the keys kept are the
   * keys seen, no two kept topics share one, and nothing new appears.
   */
  lemma {:induction false} DedupSpec(key: Candidate -> string, ts: seq<Candidate>)
    ensures KeySet(key, Dedup(key, ts)) == KeySet(key, ts)
    ensures DistinctKeys(key, Dedup(key, ts))
    ensures forall t :: t in Dedup(key, ts) ==> t in ts
    decreases |ts|
  {
    if |ts| > 0 {
      var init := ts[..|ts| - 1];
      var t := ts[|ts| - 1];
      DedupSpec(key, init);
      var u := Dedup(key, init);
      assert ts == init + [t];
      KeySetAppend(key, init, t);
      if key(t) !in KeySet(key, u) {
        KeySetAppend(key, u, t);
        KeySetNoKey(key, key(t), u);
        SnocDistinct(key, u, t);
      }
    }
  }

  /** A topic whose key no earlier topic has is kept. */
  lemma {:induction false} DedupKeepsFirst(key: Candidate -> string, ts: seq<Candidate>)
    ensures forall i :: 0 <= i < |ts| && NoKey(key, key(ts[i]), ts[..i]) ==> ts[i] in Dedup(key, ts)
    decreases |ts|
  {
    if |ts| > 0 {
      var n := |ts| - 1;
      var init := ts[..n];
      DedupKeepsFirst(key, init);
      forall i | 0 <= i < |ts| && NoKey(key, key(ts[i]), ts[..i]) ensures ts[i] in Dedup(key, ts) {
        if i < n {
          assert init[i] == ts[i] && init[..i] == ts[..i];
          assert ts[i] in Dedup(key, init);
        } else {
          DedupLast(key, ts);
        }
      }
    }
  }

  lemma DedupLast(key: Candidate -> string, ts: seq<Candidate>)
    requires |ts| > 0 && NoKey(key, key(ts[|ts| - 1]), ts[..|ts| - 1])
    ensures Dedup(key, ts) == Dedup(key, ts[..|ts| - 1]) + [ts[|ts| - 1]]
  {
    var init := ts[..|ts| - 1];
    DedupSpec(key, init);
    KeySetNoKey(key, key(ts[|ts| - 1]), init);
  }

  /** Every kept topic is the first one with its key. */
  lemma {:induction false} DedupOnlyFirst(key: Candidate -> string, ts: seq<Candidate>)
    ensures forall x :: x in Dedup(key, ts) ==> exists i :: 0 <= i < |ts| && ts[i] == x && NoKey(key, key(x), ts[..i])
    decreases |ts|
  {
    if |ts| > 0 {
      var n := |ts| - 1;
      var init := ts[..n];
      DedupOnlyFirst(key, init);
      var u := Dedup(key, init);
      forall x | x in Dedup(key, ts) ensures exists i :: 0 <= i < |ts| && ts[i] == x && NoKey(key, key(x), ts[..i]) {
        if x in u {
          var i :| 0 <= i < |init| && init[i] == x && NoKey(key, key(x), init[..i]);
          assert ts[i] == x && ts[..i] == init[..i];
        } else {
          DedupNew(key, ts);
          assert ts[n] == x && ts[..n] == init;
        }
      }
    }
  }

  lemma DedupNew(key: Candidate -> string, ts: seq<Candidate>)
    requires |ts| > 0
    ensures forall x :: x in Dedup(key, ts) && x !in Dedup(key, ts[..|ts| - 1]) ==>
      x == ts[|ts| - 1] && NoKey(key, key(x), ts[..|ts| - 1])
  {
    var init := ts[..|ts| - 1];
    DedupSpec(key, init);
    KeySetNoKey(key, key(ts[|ts| - 1]), init);
  }

  /** With distinct keys there are as many keys as topics. */
  lemma {:induction false} DistinctCount(key: Candidate -> string, ts: seq<Candidate>)
    requires DistinctKeys(key, ts)
    ensures |KeySet(key, ts)| == |ts|
    decreases |ts|
  {
    if |ts| > 0 {
      var init := ts[..|ts| - 1];
      var t := ts[|ts| - 1];
      assert ts == init + [t];
      PrefixDistinct(key, ts);
      DistinctCount(key, init);
      KeySetAppend(key, init, t);
      KeySetNoKey(key, key(t), init);
    }
  }

  lemma PrefixDistinct(key: Candidate -> string, ts: seq<Candidate>)
    requires |ts| > 0 && DistinctKeys(key, ts)
    ensures DistinctKeys(key, ts[..|ts| - 1]) && NoKey(key, key(ts[|ts| - 1]), ts[..|ts| - 1])
  {
  }

  // ---------------------------------------------------------------------
  // Stable sort on the score, highest first

  predicate SortedDesc(s: seq<Candidate>) {
    forall i, j :: 0 <= i < j < |s| ==> s[i].trendingScore >= s[j].trendingScore
  }

  /** No topic of `s` scores more than `b`. */
  predicate AtMost(b: real, s: seq<Candidate>) {
    forall i :: 0 <= i < |s| ==> s[i].trendingScore <= b
  }

  /** `x` placed after every topic scoring at least as much. */
  function Insert(x: Candidate, s: seq<Candidate>): (r: seq<Candidate>)
    ensures |r| == |s| + 1
    decreases |s|
  {
    if |s| == 0 then [x]
    else if s[0].trendingScore >= x.trendingScore then [s[0]] + Insert(x, s[1..])
    else [x] + s
  }

  /**
   * `unique.sort(key=score, reverse=True)`: Python's sort is stable, also
   * when reversed, so this insertion sort, which the lemmas below show
   * ordered, a permutation and stable, produces the same list.
   */
  function SortDesc(s: seq<Candidate>): (r: seq<Candidate>)
    ensures |r| == |s|
    decreases |s|
  {
    if |s| == 0 then [] else Insert(s[|s| - 1], SortDesc(s[..|s| - 1]))
  }

  lemma {:induction false} InsertMultiset(x: Candidate, s: seq<Candidate>)
    ensures multiset(Insert(x, s)) == multiset(s) + multiset{x}
    decreases |s|
  {
    if |s| > 0 && s[0].trendingScore >= x.trendingScore {
      InsertMultiset(x, s[1..]);
      assert s == [s[0]] + s[1..];
    }
  }

  lemma {:induction false} InsertAtMost(b: real, x: Candidate, s: seq<Candidate>)
    requires AtMost(b, s) && x.trendingScore <= b
    ensures AtMost(b, Insert(x, s))
    decreases |s|
  {
    if |s| > 0 && s[0].trendingScore >= x.trendingScore {
      InsertAtMost(b, x, s[1..]);
    }
  }

  lemma ConsSorted(a: Candidate, rest: seq<Candidate>)
    requires SortedDesc(rest) && AtMost(a.trendingScore, rest)
    ensures SortedDesc([a] + rest)
  {
    var r := [a] + rest;
    forall i, j | 0 <= i < j < |r| ensures r[i].trendingScore >= r[j].trendingScore {
      assert r[j] == rest[j - 1];
      if i > 0 {
        assert r[i] == rest[i - 1];
      }
    }
  }

  lemma {:induction false} InsertSorted(x: Candidate, s: seq<Candidate>)
    requires SortedDesc(s)
    ensures SortedDesc(Insert(x, s))
    decreases |s|
  {
    if |s| > 0 {
      if s[0].trendingScore >= x.trendingScore {
        assert SortedDesc(s[1..]) && AtMost(s[0].trendingScore, s[1..]);
        InsertSorted(x, s[1..]);
        InsertAtMost(s[0].trendingScore, x, s[1..]);
        ConsSorted(s[0], Insert(x, s[1..]));
      } else {
        ConsSorted(x, s);
      }
    }
  }

  /** The result is ordered from the highest score down. */
  lemma {:induction false} SortDescSorted(s: seq<Candidate>)
    ensures SortedDesc(SortDesc(s))
    decreases |s|
  {
    if |s| > 0 {
      SortDescSorted(s[..|s| - 1]);
      InsertSorted(s[|s| - 1], SortDesc(s[..|s| - 1]));
    }
  }

  /** The result holds the same topics, each as often. */
  lemma {:induction false} SortDescPermutation(s: seq<Candidate>)
    ensures multiset(SortDesc(s)) == multiset(s)
    decreases |s|
  {
    if |s| > 0 {
      SortDescPermutation(s[..|s| - 1]);
      InsertMultiset(s[|s| - 1], SortDesc(s[..|s| - 1]));
      MultisetSnoc(s);
    }
  }

  lemma MultisetSnoc<T>(s: seq<T>)
    requires |s| > 0
    ensures multiset(s) == multiset(s[..|s| - 1]) + multiset{s[|s| - 1]}
  {
    assert s == s[..|s| - 1] + [s[|s| - 1]];
  }

  /** The topics scoring exactly `v`, in order. */
  function WithScore(v: real, s: seq<Candidate>): seq<Candidate>
    decreases |s|
  {
    if |s| == 0 then [] else (if s[0].trendingScore == v then [s[0]] else []) + WithScore(v, s[1..])
  }

  function IfScore(v: real, x: Candidate): seq<Candidate> {
    if x.trendingScore == v then [x] else []
  }

  lemma WithScoreCons(v: real, x: Candidate, s: seq<Candidate>)
    ensures WithScore(v, [x] + s) == IfScore(v, x) + WithScore(v, s)
  {
    assert ([x] + s)[1..] == s;
  }

  lemma {:induction false} WithScoreSnoc(v: real, s: seq<Candidate>, x: Candidate)
    ensures WithScore(v, s + [x]) == WithScore(v, s) + IfScore(v, x)
    decreases |s|
  {
    if |s| == 0 {
      assert s + [x] == [x] + [];
      WithScoreCons(v, x, []);
    } else {
      assert s + [x] == [s[0]] + (s[1..] + [x]);
      WithScoreCons(v, s[0], s[1..] + [x]);
      WithScoreSnoc(v, s[1..], x);
      assert s == [s[0]] + s[1..];
      WithScoreCons(v, s[0], s[1..]);
    }
  }

  lemma {:induction false} WithScoreNone(v: real, s: seq<Candidate>)
    requires forall i :: 0 <= i < |s| ==> s[i].trendingScore < v
    ensures WithScore(v, s) == []
    decreases |s|
  {
    if |s| > 0 {
      WithScoreNone(v, s[1..]);
    }
  }

  lemma {:induction false} InsertStable(v: real, x: Candidate, s: seq<Candidate>)
    requires SortedDesc(s)
    ensures WithScore(v, Insert(x, s)) == WithScore(v, s) + IfScore(v, x)
    decreases |s|
  {
    if |s| == 0 {
      WithScoreCons(v, x, []);
    } else if s[0].trendingScore >= x.trendingScore {
      assert SortedDesc(s[1..]);
      InsertStable(v, x, s[1..]);
      assert Insert(x, s) == [s[0]] + Insert(x, s[1..]);
      assert s == [s[0]] + s[1..];
      PassStable(v, s[0], Insert(x, s[1..]), s[1..], IfScore(v, x));
    } else {
      FrontStable(v, x, s);
    }
  }

  /** A common head adds the same topics to both sides. */
  lemma PassStable(v: real, h: Candidate, u: seq<Candidate>, t: seq<Candidate>, c: seq<Candidate>)
    requires WithScore(v, u) == WithScore(v, t) + c
    ensures WithScore(v, [h] + u) == WithScore(v, [h] + t) + c
  {
    WithScoreCons(v, h, u);
    WithScoreCons(v, h, t);
  }

  /** `x` goes in front of topics that all score less. */
  lemma FrontStable(v: real, x: Candidate, s: seq<Candidate>)
    requires SortedDesc(s) && |s| > 0 && s[0].trendingScore < x.trendingScore
    ensures WithScore(v, Insert(x, s)) == WithScore(v, s) + IfScore(v, x)
  {
    assert Insert(x, s) == [x] + s;
    WithScoreCons(v, x, s);
    if x.trendingScore == v {
      assert forall i :: 0 <= i < |s| ==> s[i].trendingScore <= s[0].trendingScore;
      WithScoreNone(v, s);
    }
  }

  /** Stability: the topics of each score keep their relative order. */
  lemma {:induction false} SortDescStable(v: real, s: seq<Candidate>)
    ensures WithScore(v, SortDesc(s)) == WithScore(v, s)
    decreases |s|
  {
    if |s| > 0 {
      var init, x := s[..|s| - 1], s[|s| - 1];
      SortDescStable(v, init);
      SortDescSorted(init);
      InsertStable(v, x, SortDesc(init));
      assert s == init + [x];
      WithScoreSnoc(v, init, x);
    }
  }

  lemma {:induction false} InsertNoKey(key: Candidate -> string, k: string, x: Candidate, s: seq<Candidate>)
    requires NoKey(key, k, s) && key(x) != k
    ensures NoKey(key, k, Insert(x, s))
    decreases |s|
  {
    if |s| > 0 && s[0].trendingScore >= x.trendingScore {
      InsertNoKey(key, k, x, s[1..]);
    }
  }

  lemma ConsDistinct(key: Candidate -> string, a: Candidate, rest: seq<Candidate>)
    requires DistinctKeys(key, rest) && NoKey(key, key(a), rest)
    ensures DistinctKeys(key, [a] + rest)
  {
    var r := [a] + rest;
    forall i, j | 0 <= i < j < |r| ensures key(r[i]) != key(r[j]) {
      assert r[j] == rest[j - 1];
      if i > 0 {
        assert r[i] == rest[i - 1];
      }
    }
  }

  lemma {:induction false} InsertDistinct(key: Candidate -> string, x: Candidate, s: seq<Candidate>)
    requires DistinctKeys(key, s) && NoKey(key, key(x), s)
    ensures DistinctKeys(key, Insert(x, s))
    decreases |s|
  {
    if |s| > 0 {
      if s[0].trendingScore >= x.trendingScore {
        assert DistinctKeys(key, s[1..]) && NoKey(key, key(x), s[1..]) && NoKey(key, key(s[0]), s[1..]);
        InsertDistinct(key, x, s[1..]);
        InsertNoKey(key, key(s[0]), x, s[1..]);
        ConsDistinct(key, s[0], Insert(x, s[1..]));
      } else {
        ConsDistinct(key, x, s);
      }
    }
  }

  lemma {:induction false} SortNoKey(key: Candidate -> string, k: string, s: seq<Candidate>)
    requires NoKey(key, k, s)
    ensures NoKey(key, k, SortDesc(s))
    decreases |s|
  {
    if |s| > 0 {
      SortNoKey(key, k, s[..|s| - 1]);
      InsertNoKey(key, k, s[|s| - 1], SortDesc(s[..|s| - 1]));
    }
  }

  /** Distinct keys stay distinct through the sort. */
  lemma {:induction false} SortDescDistinct(key: Candidate -> string, s: seq<Candidate>)
    requires DistinctKeys(key, s)
    ensures DistinctKeys(key, SortDesc(s))
    decreases |s|
  {
    if |s| > 0 {
      var init := s[..|s| - 1];
      PrefixDistinct(key, s);
      SortDescDistinct(key, init);
      SortNoKey(key, key(s[|s| - 1]), init);
      InsertDistinct(key, s[|s| - 1], SortDesc(init));
    }
  }

  // ---------------------------------------------------------------------
  // The engine

  class TopicEngine {
    var sources: seq<LoadedSource>

    /**
     * `TopicEngine()`: loads the sources under the config's `topic_sources`;
     * `initFails` names the sources whose constructor raises.
     */
    constructor (topicSources: map<string, map<string, Json>>, initFails: set<string>)
      ensures sources == Loaded(Registry, topicSources, initFails)
    {
      sources := [];
      new;
      LoadSources(topicSources, initFails);
    }

    /** `_load_sources`: appends, in registry order, every enabled source that constructs. */
    method LoadSources(topicSources: map<string, map<string, Json>>, initFails: set<string>)
      modifies this
      ensures sources == old(sources) + Loaded(Registry, topicSources, initFails)
    {
      for i := 0 to |Registry|
        invariant sources == old(sources) + Loaded(Registry[..i], topicSources, initFails)
      {
        LoadedStep(Registry, topicSources, initFails, i);
        var name := Registry[i];
        var cfg := ConfigOf(topicSources, name);
        if Enabled(cfg, name) && name !in initFails {
          sources := sources + [LoadedSource(name, cfg)];
        }
      }
      assert Registry[..|Registry|] == Registry;
    }

    /**
     * `discover`: the available sources' results in completion order,
     * deduplicated on the key, sorted by score highest first, cut to `limit`.
     */
    method Discover(limit: int, feedparserInstalled: bool, pytrendsInstalled: bool,
                    results: seq<Result<seq<Candidate>>>, completion: seq<nat>)
      returns (r: seq<Candidate>)
      requires |results| == |sources|
      requires IsCompletionOrder(completion, Availability(sources, feedparserInstalled, pytrendsInstalled))
      ensures r == SlicePrefix(SortDesc(Dedup(Key, Gathered(results, completion))), limit)
    {
      var all: seq<Candidate> := [];
      for k := 0 to |completion|
        invariant all == Gathered(results, completion[..k])
      {
        GatheredStep(results, completion, k);
        var outcome := results[completion[k]];
        if outcome.Ok? {
          all := all + outcome.value;
        }
      }
      assert completion[..|completion|] == completion;
      var seen: set<string> := {};
      var unique: seq<Candidate> := [];
      for i := 0 to |all|
        invariant unique == Dedup(Key, all[..i]) && seen == KeySet(Key, unique)
      {
        DedupStep(Key, all, i);
        var key := SlicePrefix(Strip(Lower(all[i].title)), KeyLength as int);
        if key !in seen {
          KeySetAppend(Key, unique, all[i]);
          seen := seen + {key};
          unique := unique + [all[i]];
        }
      }
      assert all[..|all|] == all;
      var sorted := SortDesc(unique);
      r := SlicePrefix(sorted, limit);
    }
  }

  /**
   * What `discover` returns: no two topics with the same key, scores from
   * the highest down, only gathered topics, and, for a non-negative limit,
   * as many topics as the limit or the number of distinct keys allows.
   */
  lemma DiscoverSpec(all: seq<Candidate>, limit: int)
    ensures var r := SlicePrefix(SortDesc(Dedup(Key, all)), limit);
      && DistinctKeys(Key, r)
      && SortedDesc(r)
      && (forall t :: t in r ==> t in all)
      && (limit >= 0 ==> |r| == Min(limit, |KeySet(Key, all)|))
  {
    var u := Dedup(Key, all);
    var s := SortDesc(u);
    DedupSpec(Key, all);
    DistinctCount(Key, u);
    SortDescSorted(u);
    SortDescDistinct(Key, u);
    SortDescMembers(u);
    PrefixKeeps(Key, s, |SlicePrefix(s, limit)|);
  }

  lemma SortDescMembers(u: seq<Candidate>)
    ensures forall t :: t in SortDesc(u) ==> t in u
  {
    SortDescPermutation(u);
    forall t | t in SortDesc(u) ensures t in u {
      assert t in multiset(SortDesc(u));
    }
  }

  lemma PrefixKeeps(key: Candidate -> string, s: seq<Candidate>, m: nat)
    requires m <= |s|
    ensures DistinctKeys(Key, s) ==> DistinctKeys(Key, s[..m])
    ensures SortedDesc(s) ==> SortedDesc(s[..m])
    ensures forall t :: t in s[..m] ==> t in s
  {
  }

  // ---------------------------------------------------------------------
  // The auto_pick menu

  /** One menu line; `fmt` renders the score with two decimals. */
  function MenuLine(i: nat, t: Candidate, fmt: real -> string): string {
    NatToString(i + 1) + ". [" + t.source + "] " + t.title + " (score: " + fmt(t.trendingScore) + ")"
  }

  function MenuLines(cs: seq<Candidate>, fmt: real -> string): (ls: seq<string>)
    ensures |ls| == Min(MenuSize, |cs|)
  {
    seq(Min(MenuSize, |cs|), i requires 0 <= i < Min(MenuSize, |cs|) => MenuLine(i, cs[i], fmt))
  }

  /** The list of topics `auto_pick` shows the model. */
  function Menu(cs: seq<Candidate>, fmt: real -> string): string {
    Join(MenuLines(cs, fmt), "\n")
  }

  lemma MenuLineFree(i: nat, t: Candidate, fmt: real -> string)
    requires '\n' !in t.source && '\n' !in t.title && '\n' !in fmt(t.trendingScore)
    ensures '\n' !in MenuLine(i, t, fmt)
  {
    var a := NatToString(i + 1);
    assert '\n' !in a by {
      assert forall k :: 0 <= k < |a| ==> IsDigit(a[k]);
    }
    var p1 := a + ". [" + t.source;
    assert '\n' !in p1;
    var p2 := p1 + "] " + t.title;
    assert '\n' !in p2;
    var p3 := p2 + " (score: " + fmt(t.trendingScore);
    assert '\n' !in p3;
  }

  /**
   * Read back line by line, the menu is the first 20 candidates at most,
   * numbered from 1, each showing its source in brackets and its title.
   */
  lemma MenuReadBack(cs: seq<Candidate>, fmt: real -> string)
    requires |cs| > 0
    requires forall i :: 0 <= i < |cs| ==> '\n' !in cs[i].source && '\n' !in cs[i].title && '\n' !in fmt(cs[i].trendingScore)
    ensures var lines := SplitOn(Menu(cs, fmt), '\n');
      && |lines| == Min(MenuSize, |cs|)
      && forall i :: 0 <= i < |lines| ==>
           lines[i] == NatToString(i + 1) + ". [" + cs[i].source + "] " + cs[i].title + " (score: " + fmt(cs[i].trendingScore) + ")"
  {
    var ls := MenuLines(cs, fmt);
    forall i | 0 <= i < |ls| ensures '\n' !in ls[i] {
      MenuLineFree(i, cs[i], fmt);
    }
    SplitOnJoinFree(ls, '\n');
  }
}
