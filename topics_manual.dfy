/**
 * The manual source (pipeline/topics/manual.py): it discovers nothing and
 * only wraps a headline given on the command line. It keeps no state, so
 * its constructor, which ignores its config, leaves nothing to model.
 */
module TopicsManual {
  import opened TopicsBase

  const ManualName := "manual"

  /** `ManualSource.from_news`: the headline as a top-scored manual topic. */
  function FromNews(news: string): (c: Candidate)
    ensures c.title == news && c.source == ManualName && c.trendingScore == 1.0
    ensures c.summary == "" && c.url == "" && c.metadata == map[]
    ensures Normalised(c)
  {
    var c := NewCandidate(news, ManualName);
    c.(trendingScore := 1.0)
  }

  /** `ManualSource.fetch_topics`: nothing, whatever the limit. */
  function FetchTopics(limit: int): (r: seq<Candidate>)
    ensures |r| == 0
  {
    []
  }
}
