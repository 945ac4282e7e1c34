/**
 * The research step (pipeline/research.py): an HTML parser that captures
 * the text of DuckDuckGo result snippets, and the text handed to the
 * script writer. The search itself is a parameter: the events the HTML
 * parser delivers for the page, or `None` when fetching it failed. The
 * fetch, `_fetch_ddg`, is wrapped in `with_retry(max_retries=2,
 * base_delay=2.0)`, and `None` is its outcome once the retries are spent;
 * the Retry module models that wrapper.
 */
module Research {
  import opened Wrappers
  import opened PyText
  import opened Config

  const SnippetClass := "result__snippet"
  const SnippetLimit: nat := 300
  const SnippetCount: nat := 8

  /** What `HTMLParser.feed` calls the handlers with; an attribute may have no value. */
  datatype Event =
    | StartTag(tag: string, attrs: seq<(string, Option<string>)>)
    | EndTag(tag: string)
    | Data(data: string)

  /** `dict(attrs).get(key)`: the last pair with that name wins. */
  function DictGet(attrs: seq<(string, Option<string>)>, key: string): (r: Option<Option<string>>)
    ensures r.Some? ==> exists i :: 0 <= i < |attrs| && attrs[i] == (key, r.value)
    ensures r.None? ==> forall i :: 0 <= i < |attrs| ==> attrs[i].0 != key
    decreases |attrs|
  {
    if |attrs| == 0 then None
    else if attrs[|attrs| - 1].0 == key then Some(attrs[|attrs| - 1].1)
    else DictGet(attrs[..|attrs| - 1], key)
  }

  /**
   * Whether a start tag opens a snippet: `Some(true)` for an `a` tag whose
   * class contains `result__snippet`, `None` where the test raises (a
   * `class` attribute without a value makes the `in` test fail on None).
   */
  function OpensSnippet(tag: string, attrs: seq<(string, Option<string>)>): Option<bool> {
    if tag != "a" then Some(false)
    else
      match DictGet(attrs, "class")
      case None => Some(false)
      case Some(None) => None
      case Some(Some(c)) => Some(Contains(c, SnippetClass))
  }

  /** The parser's fields, `_in` and `_text`, and the enclosing function's `snippets` list. */
  datatype ParserState = ParserState(capturing: bool, text: seq<string>, snippets: seq<string>)

  const Initial := ParserState(false, [], [])

  /** One handler call; `None` when it raises. */
  function Step(s: ParserState, e: Event): Option<ParserState> {
    match e
    case StartTag(tag, attrs) =>
      (match OpensSnippet(tag, attrs)
       case None => None
       case Some(opens) => if opens then Some(s.(capturing := true, text := [])) else Some(s))
    case EndTag(tag) =>
      if s.capturing && tag == "a" then Some(s.(snippets := s.snippets + [Strip(Join(s.text, ""))], capturing := false))
      else Some(s)
    case Data(d) =>
      if s.capturing then Some(s.(text := s.text + [d])) else Some(s)
  }

  /** `p.feed(html)`: the handlers in event order, stopped by the first exception. */
  function Run(s: ParserState, es: seq<Event>): Option<ParserState>
    decreases |es|
  {
    if |es| == 0 then Some(s)
    else
      match Step(s, es[0])
      case None => None
      case Some(t) => Run(t, es[1..])
  }

  class Parser {
    var capturing: bool
    var text: seq<string>
    var snippets: seq<string>

    function State(): ParserState
      reads this
    {
      ParserState(capturing, text, snippets)
    }

    constructor ()
      ensures State() == Initial
    {
      capturing := false;
      text := [];
      snippets := [];
    }

    /** `handle_starttag`; `ok` is false where the class test raises. */
    method HandleStartTag(tag: string, attrs: seq<(string, Option<string>)>) returns (ok: bool)
      modifies this
      ensures var r := Step(old(State()), StartTag(tag, attrs));
        ok == r.Some? && (ok ==> State() == r.value)
      ensures !ok ==> State() == old(State())
    {
      if tag == "a" {
        var c := DictGet(attrs, "class");
        if c.Some? && c.value.None? {
          return false;
        }
        if c.Some? && Contains(c.value.value, SnippetClass) {
          capturing := true;
          text := [];
        }
      }
      return true;
    }

    /** `handle_endtag` */
    method HandleEndTag(tag: string)
      modifies this
      ensures Some(State()) == Step(old(State()), EndTag(tag))
    {
      if capturing && tag == "a" {
        snippets := snippets + [Strip(Join(text, ""))];
        capturing := false;
      }
    }

    /** `handle_data` */
    method HandleData(data: string)
      modifies this
      ensures Some(State()) == Step(old(State()), Data(data))
    {
      if capturing {
        text := text + [data];
      }
    }

    /** `feed`: every event in turn; `ok` is false when a handler raised. */
    method Feed(events: seq<Event>) returns (ok: bool)
      modifies this
      ensures var r := Run(old(State()), events);
        ok == r.Some? && (ok ==> State() == r.value)
    {
      var i := 0;
      while i < |events|
        invariant i <= |events|
        invariant Run(old(State()), events) == Run(State(), events[i..])
      {
        var e := events[i];
        assert events[i..][1..] == events[i + 1..];
        match e {
          case StartTag(tag, attrs) =>
            ok := HandleStartTag(tag, attrs);
            if !ok {
              return false;
            }
          case EndTag(tag) =>
            HandleEndTag(tag);
          case Data(d) =>
            HandleData(d);
        }
        i := i + 1;
      }
      return true;
    }
  }

  /** Capture starts only at the start tag of a snippet link, and that empties the buffer. */
  lemma CaptureStarts(s: ParserState, e: Event)
    requires !s.capturing && Step(s, e).Some? && Step(s, e).value.capturing
    ensures e.StartTag? && e.tag == "a" && OpensSnippet(e.tag, e.attrs) == Some(true)
    ensures Step(s, e).value.text == [] && Step(s, e).value.snippets == s.snippets
  {
  }

  /** Data is buffered exactly while capturing. */
  lemma DataBuffered(s: ParserState, d: string)
    ensures Step(s, Data(d)) == Some(if s.capturing then s.(text := s.text + [d]) else s)
  {
  }

  /** An end tag outside a snippet changes nothing; an `a` end tag inside one adds the buffered text, stripped. */
  lemma EndTagEffect(s: ParserState, tag: string)
    ensures !s.capturing ==> Step(s, EndTag(tag)) == Some(s)
    ensures s.capturing && tag == "a" ==>
      Step(s, EndTag(tag)) == Some(ParserState(false, s.text, s.snippets + [Strip(Join(s.text, ""))]))
  {
  }

  /** Handlers only ever append snippets. */
  lemma {:induction false} RunKeepsSnippets(s: ParserState, es: seq<Event>)
    requires Run(s, es).Some?
    ensures |s.snippets| <= |Run(s, es).value.snippets| && Run(s, es).value.snippets[..|s.snippets|] == s.snippets
    decreases |es|
  {
    if |es| > 0 {
      var t := Step(s, es[0]).value;
      assert t.snippets[..|s.snippets|] == s.snippets;
      RunKeepsSnippets(t, es[1..]);
    }
  }

  // ---------------------------------------------------------------------
  // The research text

  /** Each snippet cut to 300 characters, and the first eight joined by newlines. */
  function ResearchText(snippets: seq<string>): string {
    var cut := seq(|snippets|, i requires 0 <= i < |snippets| => SlicePrefix(snippets[i], SnippetLimit as int));
    Join(SlicePrefix(cut, SnippetCount as int), "\n")
  }

  const NoResearch := "\n(No live research available — script must stay general.)"

  /** What `research_topic` returns without usable research. */
  function Fallback(news: string): string {
    "Topic: " + news + NoResearch
  }

  /**
   * `research_topic`: the search runs on the keywords of the news; the
   * snippets found, if they give a non-empty text, are the research, and
   * otherwise — no page, a parser error, or nothing captured — the fallback.
   */
  method ResearchTopic(news: string, page: Option<seq<Event>>) returns (keywords: string, research: string)
    ensures keywords == ExtractKeywords(news)
    ensures page.None? ==> research == Fallback(news)
    ensures page.Some? && Run(Initial, page.value).None? ==> research == Fallback(news)
    ensures page.Some? && Run(Initial, page.value).Some? ==>
      var text := ResearchText(Run(Initial, page.value).value.snippets);
      research == if text != "" then text else Fallback(news)
    ensures research != ""
  {
    keywords := ExtractKeywords(news);
    research := Fallback(news);
    assert |research| > 0;
    if page.None? {
      return;
    }
    var p := new Parser();
    var ok := p.Feed(page.value);
    if !ok {
      return;
    }
    var snippets := p.snippets;
    var cut := seq(|snippets|, i requires 0 <= i < |snippets| => SlicePrefix(snippets[i], SnippetLimit as int));
    var text := if |cut| > 0 then Join(SlicePrefix(cut, SnippetCount as int), "\n") else "";
    if text != "" {
      research := text;
    }
  }

  /**
   * Read back on newlines, research made of snippets without newlines is
   * at most eight lines, each the start of its snippet and at most 300
   * characters long.
   */
  lemma ResearchLines(snippets: seq<string>)
    requires |snippets| > 0
    requires forall i :: 0 <= i < |snippets| ==> '\n' !in snippets[i]
    ensures var lines := SplitOn(ResearchText(snippets), '\n');
      && |lines| == Min(SnippetCount, |snippets|)
      && forall i :: 0 <= i < |lines| ==> |lines[i]| <= SnippetLimit && StartsWith(snippets[i], lines[i])
  {
    var cut := seq(|snippets|, i requires 0 <= i < |snippets| => SlicePrefix(snippets[i], SnippetLimit as int));
    var kept := SlicePrefix(cut, SnippetCount as int);
    forall i | 0 <= i < |kept| ensures '\n' !in kept[i] {
      assert kept[i] == snippets[i][..|kept[i]|];
      assert forall k :: 0 <= k < |kept[i]| ==> kept[i][k] == snippets[i][k];
    }
    SplitOnJoinFree(kept, '\n');
  }
}
