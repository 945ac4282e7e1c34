/**
 * The record every topic source produces and the defaults of the source
 * interface (pipeline/topics/base.py). Scores are exact reals.
 */
module TopicsBase {
  import opened Json

  /** `TopicCandidate`: a discovered topic. */
  datatype Candidate = Candidate(
    title: string,
    source: string,
    trendingScore: real,
    summary: string,
    url: string,
    metadata: map<string, Json>)

  /** `TopicCandidate(title, source)`: every other field at its declared default. */
  function NewCandidate(title: string, source: string): (c: Candidate)
    ensures c.title == title && c.source == source
    ensures c.trendingScore == 0.0 && c.summary == "" && c.url == "" && c.metadata == map[]
  {
    Candidate(title, source, 0.0, "", "", map[])
  }

  /** The documented range of `trending_score`. */
  predicate Normalised(c: Candidate) {
    0.0 <= c.trendingScore <= 1.0
  }

  /** `TopicSource.name` unless a source overrides it. */
  const UnknownName := "unknown"

  /** `TopicSource.is_available` unless a source overrides it. */
  const DefaultAvailable := true

  /** The message Python raises for `limit // 0`. */
  const ZeroDivision := "integer division or modulo by zero"

  /** `max(1, limit // n)`, with Python's floor division. */
  function Quota(limit: int, n: nat): (q: nat)
    requires n > 0
    ensures q >= 1
    ensures q == 1 || q * n <= limit < (q + 1) * n
  {
    var d := limit / n;
    if d >= 1 then d else 1
  }
}
