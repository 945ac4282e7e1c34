# youtube-shorts-pipeline, modelled in Dafny

This project models the deterministic core of the youtube-shorts-pipeline. That pipeline turns a news headline into a YouTube Short. It researches the topic, has Claude write a script, and generates b-roll, a voiceover, captions and background music. Then it assembles the video, makes a thumbnail and uploads. Every network service, subprocess and clock is an input here. The model covers what the pipeline decides and computes around those calls:

- **Topic discovery.** Each source turns its raw responses into `TopicCandidate`s: Reddit hot listings, RSS feeds and manual headlines. The `TopicEngine` loads the enabled sources, gathers their results and removes topics whose normalised title was seen before. It then ranks the rest by score, highest first, and renders the pick menu.
- **Configuration.** `extract_keywords` stop-word filtering. API-key resolution, with the environment first and then the config file. The choice between the Claude API and the CLI, and cleanup of the CLI's output.
- **Research.** The DuckDuckGo snippet parser is an event-driven state machine. The research text is truncated and joined, with a fixed fallback.
- **Script drafting.** The Claude prompt, removal of a Markdown code fence from the reply, and sanitising of the decoded draft.
- **Captions.** Words are grouped four at a time. The SRT renders one cue per group and the ASS one highlighted Dialogue line per word. Both timestamp formats read back to the time they were made from.
- **Music ducking.** Speech regions are merged from word timings. The ffmpeg `volume` filter is built from them.
- **Retry.** The retry decorator: exponential back-off, its logging and re-raising the last error.
- **Stage ledger.** The `_pipeline_state` map of a job record: done and failed marks, artifacts, reset and the summary.
- **Thumbnail.** Greedy word wrap of the title, placement of the text block, font choice, and the defaults and file names of `generate_thumbnail`.

Every file has one module, named after the source file it models. `PyText` gives the Python string built-ins used (`split`, `strip`, `lower`, `join`, slicing, `%02d` formatting) as total functions. `Json` holds decoded JSON values and `dict.get`. `Wrappers` holds `Option` and `Result`. Objects the source updates in place are classes: `TopicEngine`, `PipelineState` and the research `Parser`. Loops are methods proved against specification functions, and the properties are lemmas about those functions.

## Model

| member | source | states |
|---|---|---|
| Retry.WithRetry | pipeline/retry.py:9-36 | The first success is returned at once, after at most `max_retries + 1` calls. Each failure before the last logs a warning and sleeps `base_delay * 2^attempt`. The last failure logs an error and re-raises that error. |
| Retry.FirstSuccess | pipeline/retry.py:19-23 | The attempt that returns is the first successful one: every earlier attempt failed. |
| Retry.FirstSuccessAt | pipeline/retry.py:19-23 | A success preceded only by failures is the attempt where the wrapper returns. |
| Retry.FirstSuccessNone | pipeline/retry.py:19-36 | When every attempt fails, no attempt returns. |
| Retry.Warnings | pipeline/retry.py:24-29 | One warning is logged per failure that will be retried. |
| Retry.DelaysDouble | pipeline/retry.py:25 | Each delay is twice the one before, so with a positive base the delays increase strictly (2 s, 4 s, 8 s). |
| Retry.TotalWait | pipeline/retry.py:12-30 | The sleeps before giving up add up to `base_delay * (2^max_retries - 1)`. |
| TopicsBase.NewCandidate | pipeline/topics/base.py:7-15 | A `TopicCandidate` with only title and source given has score 0.0, an empty summary and url, and empty metadata. |
| TopicsBase.Quota | pipeline/topics/reddit.py:17 | `max(1, limit // n)` is at least 1. When it is above 1 it is the floor of `limit / n`. |
| TopicsManual.FromNews | pipeline/topics/manual.py:17-23 | The headline becomes a manual topic with score 1.0 and the other fields at their defaults. |
| TopicsManual.FetchTopics | pipeline/topics/manual.py:14-15 | The manual source discovers nothing, whatever the limit. |
| TopicsReddit.NewRedditSource | pipeline/topics/reddit.py:11-13 | The configured subreddits are used when present. Otherwise the source uses `technology` and `worldnews`. |
| TopicsReddit.Score | pipeline/topics/reddit.py:40-43 | The normalised score `min(1, log10(max(score, 1)) / 4)` never exceeds 1. |
| TopicsReddit.ScoreMonotone | pipeline/topics/reddit.py:43 | A higher Reddit score never gives a lower trending score. |
| TopicsReddit.ScoreNormalised | pipeline/topics/reddit.py:41-43 | The trending score lies in [0, 1]. |
| TopicsReddit.PostOf | pipeline/topics/reddit.py:35-52 | A post is malformed, so that the loop raises, exactly when the post or its `data` is not a dict, or when an unstickied post has a score `max` cannot compare (not a number or bool) or a selftext that cannot be sliced (not a string or list). A stickied post is skipped. A kept post takes `str()` of its title and the url `https://reddit.com` + `str(permalink)`. It scores `Score` of its score, with booleans as 0 or 1. Its summary is `selftext[:200]`, and its metadata holds the raw `score` and `num_comments`. |
| TopicsReddit.PostsTopicsKept | pipeline/topics/reddit.py:34-54 | The listing loop raises exactly when one of its posts is malformed in the sense above. Otherwise it yields the unstickied posts, in order. |
| TopicsReddit.SummaryOf | pipeline/topics/reddit.py:49 | A string selftext gives its first `min(200, n)` characters. A list gives the `str()` of its first 200 items. |
| TopicsReddit.CollectKept | pipeline/topics/reddit.py:34-54 | Collecting the posts' outcomes fails exactly when one is malformed. Otherwise it yields the kept candidates, first to last. |
| TopicsReddit.NullPermalinkKept | pipeline/topics/reddit.py:45-52 | The listing `{"data": {"children": [{"data": {"title": "x", "permalink": null}}]}}` gives one topic titled `x`, with url `https://reddit.com` + `str(None)` and an empty summary. |
| TopicsReddit.OddFieldsKept | pipeline/topics/reddit.py:40-52 | A post with score `true`, a number as title and a list selftext is kept. `True` scores as 1, the title and summary are their `str()`, and the metadata holds the raw boolean score. |
| TopicsReddit.FetchSubreddit | pipeline/topics/reddit.py:32-54 | The loop over the listing's children computes the subreddit's topics: `None` for a body that is not a listing or holds a malformed post, else the kept posts in order. |
| TopicsReddit.Requests | pipeline/topics/reddit.py:28-30 | One hot-listing request per subreddit, in configured order, all with the same limit. |
| TopicsReddit.FetchTopics | pipeline/topics/reddit.py:15-25 | An empty subreddit list raises ZeroDivisionError. Otherwise one request per subreddit asks for quota + 2 posts. The answers are concatenated in configured order, failing subreddits are skipped, and the result is cut to `limit`. |
| TopicsReddit.FetchAnswered | pipeline/topics/reddit.py:20-23 | The per-subreddit `try` block gives the subreddit's topics, or nothing when its request or listing failed. |
| TopicsReddit.GatheredAllFail | pipeline/topics/reddit.py:19-25 | When every subreddit fails, no topic is found. |
| TopicsReddit.GatheredSources | pipeline/topics/reddit.py:19-25 | Every topic gathered names one of the configured subreddits as its source. |
| TopicsRss.NewRssSource | pipeline/topics/rss.py:9-11 | The configured feeds are used when present. Otherwise the source uses the Hacker News front page feed. |
| TopicsRss.IsAvailable | pipeline/topics/rss.py:13-19 | The source is available exactly when `feedparser` imports. |
| TopicsRss.EntryTopic | pipeline/topics/rss.py:31-37 | An entry's topic takes its title and link (default "") and scores 0.5. Its summary is the first `min(200, n)` characters of the entry's summary. Its source is `rss/` plus the first `min(30, n)` characters of the feed title, or of the feed url when the feed has no title. Its metadata is empty. |
| TopicsRss.FeedTopics | pipeline/topics/rss.py:30-37 | A feed gives as many topics as it has entries, capped at the per-feed quota. |
| TopicsRss.FetchTopics | pipeline/topics/rss.py:21-41 | Without `feedparser` it raises ImportError, and with no feeds ZeroDivisionError. Otherwise it takes up to the quota from each feed, in feed order, skips feeds that fail to parse, and cuts the result to `limit`. |
| TopicsRss.GatheredBound | pipeline/topics/rss.py:25-30 | No more than quota × feeds topics are gathered. |
| TopicsRss.GatheredScores | pipeline/topics/rss.py:34-35 | Every RSS topic scores 0.5 and has a summary of at most 200 characters. |
| TopicsRss.GatheredAllFail | pipeline/topics/rss.py:38-39 | When every feed fails to parse, nothing is found. |
| TopicsEngine.TopicEngine.constructor | pipeline/topics/engine.py:13-15 | A new engine holds exactly the sources loaded from the registry. |
| TopicsEngine.TopicEngine.LoadSources | pipeline/topics/engine.py:17-52 | The loop appends the loaded sources to the engine's list, in registry order. |
| TopicsEngine.LoadedSpec | pipeline/topics/engine.py:46-52 | A source is loaded if and only if it is registered, enabled and initialises. Enabled means its config's `enabled` value is truthy, defaulting to on for reddit, rss and google_trends. A loaded source carries its own config. |
| TopicsEngine.LoadedDefaults | pipeline/topics/engine.py:27-48 | With no topic-source config, the engine loads exactly reddit, rss and google_trends, in that order. |
| TopicsEngine.LoadedOptionalAvailable | pipeline/topics/engine.py:59-61 | A loaded twitter or tiktok source always reports itself available. It was loaded only because its `enabled` value is truthy, and that is what its availability reads. |
| TopicsEngine.Availability | pipeline/topics/engine.py:59-61 | One availability flag per loaded source. |
| TopicsEngine.GatheredFrom | pipeline/topics/engine.py:63-70 | Every gathered topic comes from a source that answered without raising. |
| TopicsEngine.Key | pipeline/topics/engine.py:76 | The dedup key is at most 50 characters. |
| TopicsEngine.DedupSpec | pipeline/topics/engine.py:72-79 | Deduplication keeps every key that occurs and no key twice, and keeps only topics from its input. |
| TopicsEngine.DedupKeepsFirst | pipeline/topics/engine.py:75-79 | A topic whose key no earlier topic has is kept. |
| TopicsEngine.DedupOnlyFirst | pipeline/topics/engine.py:75-79 | Every kept topic is the first one with its key. |
| TopicsEngine.DistinctCount | pipeline/topics/engine.py:73-79 | Topics with distinct keys are as many as their keys. |
| TopicsEngine.SortDescSorted | pipeline/topics/engine.py:82 | The ranking is ordered by trending score, highest first. |
| TopicsEngine.SortDescPermutation | pipeline/topics/engine.py:82 | The ranking is a permutation of the unique topics. |
| TopicsEngine.SortDescStable | pipeline/topics/engine.py:82 | Topics with equal scores keep their relative order, as Python's stable sort does. |
| TopicsEngine.SortDescDistinct | pipeline/topics/engine.py:82 | Ranking keeps the keys distinct. |
| TopicsEngine.TopicEngine.Discover | pipeline/topics/engine.py:54-83 | Only available sources are submitted. Their results are gathered in completion order, with failures skipped. The result is deduplicated by key, stably sorted by descending score and cut to `limit`. |
| TopicsEngine.DiscoverSpec | pipeline/topics/engine.py:72-83 | The topics discovered have distinct keys, are ordered by score and come from the gathered topics. For a non-negative limit there are min(limit, distinct keys) of them. |
| TopicsEngine.MenuLines | pipeline/topics/engine.py:89-92 | The pick menu lists at most the first 20 candidates. |
| TopicsEngine.MenuReadBack | pipeline/topics/engine.py:89-92 | Read back line by line, the menu has one line `i. [source] title (score: s)` per candidate, numbered from 1. |
| Config.PunctuationChars | pipeline/config.py:65 | The characters stripped from a word are exactly `.,!?"'()[]`. |
| Config.Clean | pipeline/config.py:65 | A cleaned word has no stripped punctuation at either end and no upper-case letter. |
| Config.QualifyingSpec | pipeline/config.py:66 | A word is kept if and only if it is non-empty, not a stopword and longer than two characters. |
| Config.ExtractKeywordsSpec | pipeline/config.py:64-66 | Split on spaces, the keywords are the first four qualifying tokens in input order. Each is lower case, not a stopword, longer than two characters, and free of stripped punctuation at its ends. |
| Config.KeywordsEmpty | pipeline/config.py:66 | Empty text, or text made only of stopwords, gives "". |
| Config.KeywordsComplete | pipeline/config.py:66 | With fewer than four qualifying tokens, every qualifying token is a keyword. |
| Config.GetKey | pipeline/config.py:72-85 | A non-empty environment value is used first, then a truthy config-file value, then "". A config that is missing, unreadable or not an object counts as absent. |
| Config.EnvFirst | pipeline/config.py:74-76 | A non-empty environment value wins whatever the config file says. |
| Config.HasMaxCredentials | pipeline/config.py:104-112 | Max credentials are present exactly when the file parses to an object whose `claudeAiOauth` is an object holding a truthy `accessToken`; a missing file, bad JSON or a missing level is false. |
| Config.ClaudeBackend | pipeline/config.py:159-173 | "api" exactly when the key is set. "cli" exactly when it is not set, the CLI is installed and Max credentials exist. Otherwise the fixed "No Claude access found" error. |
| Config.BackendPrefersApi | pipeline/config.py:165-166 | An API key in the environment selects the API, whatever else holds. |
| Config.CliOutput | pipeline/config.py:138-142 | The CLI's output is stripped. A trailing "Error: Reached max turns (3)" is removed and the remainder stripped again. |
| Config.CliOutputDropsNotice | pipeline/config.py:139-141 | A reply followed by the max-turns notice on its own line gives the reply, stripped. |
| Research.DictGet | pipeline/research.py:38 | `dict(attrs).get` finds a value only when some attribute has that name. It finds none only when no attribute does. |
| Research.Parser.constructor | pipeline/research.py:32-35 | A new parser is not capturing and has an empty buffer. |
| Research.Parser.HandleStartTag | pipeline/research.py:37-41 | The handler performs one start-tag step of the specification. It raises when the `class` test meets an attribute without a value. |
| Research.Parser.HandleEndTag | pipeline/research.py:43-46 | The handler performs one end-tag step of the specification. |
| Research.Parser.HandleData | pipeline/research.py:48-50 | The handler performs one data step of the specification. |
| Research.Parser.Feed | pipeline/research.py:52-53 | Feeding runs the handlers over the events in order and stops at the first exception. |
| Research.CaptureStarts | pipeline/research.py:37-41 | Capture starts only at an `a` start tag whose class contains `result__snippet`, and starting empties the buffer. |
| Research.DataBuffered | pipeline/research.py:48-50 | Data is buffered exactly while capturing. |
| Research.EndTagEffect | pipeline/research.py:43-46 | An end tag while not capturing changes nothing. An `a` end tag while capturing appends the joined, stripped buffer as one snippet and ends capture. |
| Research.RunKeepsSnippets | pipeline/research.py:43-53 | Parsing only ever appends snippets. |
| Research.ResearchTopic | pipeline/research.py:21-63 | The query is `extract_keywords(news)`. A non-empty snippet text is the research. With no page, a parser exception or an empty text, the result is exactly `Topic: <news>` and the no-research notice. The research handed on is never empty. |
| Research.ResearchLines | pipeline/research.py:55-56 | Read back on newlines, the research has at most 8 lines. Each is the start of its snippet and at most 300 characters long. |
| Draft.PromptChannelLine | pipeline/draft.py:38-40 | The prompt's second line is `Channel context: <ctx>` when a context is given, and empty otherwise. |
| Draft.PromptHasContext | pipeline/draft.py:38-40 | A non-empty channel context appears in the prompt after `Channel context: `. |
| Draft.FindFrom | pipeline/draft.py:69 | The position found is the first occurrence of the fence at or after the start, or the end when there is none. |
| Draft.StripFence | pipeline/draft.py:68-72 | A reply that does not start with a fence is parsed as it is. |
| Draft.StripFenceRoundTrip | pipeline/draft.py:68-72 | A fenced reply, tagged `json` or untagged, gives back the stripped content of its first block whatever text follows the closing fence. The content may hold single backticks, but not a fence. Content that is already stripped comes back exactly. |
| Draft.StripFenceOf | pipeline/draft.py:68-72 | The body is taken up to the first fence after the opening one, whatever follows. A leading `json` is removed and the rest is stripped. |
| Draft.StripFenceOpenOnly | pipeline/draft.py:68-72 | A reply whose opening fence is never closed gives everything after it, less a leading `json`, stripped. |
| Draft.SanitizeFieldsSpec | pipeline/draft.py:81-83 | Sanitising keeps the keys. Each listed field becomes `str()` of its value, and every other field is unchanged. |
| Draft.SanitizeStrFields | pipeline/draft.py:77-83 | The loop over the six string fields computes the specified sanitised draft. |
| Draft.FinishStrFields | pipeline/draft.py:77-83 | Every string field present in the reply is a string afterwards, and an existing string is unchanged. |
| Draft.FinishBroll | pipeline/draft.py:84-88 | A non-list `broll_prompts` becomes three copies of "Cinematic landscape". A list becomes its first three elements, each `str()`-ed. |
| Draft.FinishInputs | pipeline/draft.py:90-91 | `news` and `research` are the inputs, overwriting anything the model supplied. |
| Draft.FinishOthers | pipeline/draft.py:74-91 | Any other field of the reply passes through untouched. |
| Draft.GenerateDraft | pipeline/draft.py:34-92 | The prompt is built from the news, context and research. The reply is unfenced and decoded. A reply that is not a JSON object is an error, and a decoded object becomes the finished draft. |
| Captions.Groups | pipeline/captions.py:53-58 | Every group is non-empty and holds at most `group_size` words. |
| Captions.GroupWords | pipeline/captions.py:53-58 | The slicing loop computes the specified groups. |
| Captions.GroupsConcat | pipeline/captions.py:53-58 | The groups concatenate back to the words. |
| Captions.GroupsShape | pipeline/captions.py:53-58 | All groups but the last are full. There are ⌈n / size⌉ of them, and none without words. |
| Captions.GroupsOfFourAt | pipeline/captions.py:56-57 | Group q is `words[4q:4q+4]`. |
| Captions.GroupsOfFourCover | pipeline/captions.py:53-58 | The groups of four cover every word. |
| Captions.Clock | pipeline/captions.py:148-154 | A time splits into hours, minutes < 60, seconds < 60 and milliseconds < 1000 that add back to it. |
| Captions.SrtTimeRoundTrip | pipeline/captions.py:148-154 | An SRT timestamp `HH:MM:SS,mmm` reads back as the milliseconds it was made from. |
| Captions.AssTimeRoundTrip | pipeline/captions.py:61-67 | An ASS timestamp reads back as the time truncated to hundredths. |
| Captions.AssTimeWidth | pipeline/captions.py:61-67 | An ASS timestamp has the shape `H:MM:SS.cc`: the hour's digits, then `:`, two digits of minutes, `:`, two digits of seconds, `.` and two digits of hundredths. |
| Captions.AssTimeSeconds | tests/test_captions.py:51-65 | Zero, 5.5 s and 0.05 s give `0:00:00.00`, `0:00:05.50` and `0:00:00.05`, with every field zero-padded. |
| Captions.AssTimeMinutes | tests/test_captions.py:58-59 | 65.25 s gives `0:01:05.25`. |
| Captions.AssTimeHours | tests/test_captions.py:61-62 | 3661.75 s gives `1:01:01.75`. |
| Captions.SrtTimeWidth | pipeline/captions.py:148-154 | Below 100 hours an SRT timestamp is exactly 12 characters, with its separators in place. |
| Captions.GenerateSrt | pipeline/captions.py:127-145 | The cue loop computes the specified SRT text. |
| Captions.SrtReadBack | pipeline/captions.py:127-145 | Read line by line, the SRT is four lines per group: the number from 1, the group's span from first start to last end, the group's words, and a blank line. |
| Captions.CueLines | pipeline/captions.py:141 | One cue reads back as its number, span, text and a blank line. |
| Captions.MarginV | pipeline/captions.py:77 | The vertical margin is `int(height * 0.25)`. |
| Captions.AssEvents | pipeline/captions.py:93-120 | There is one Dialogue line per word, and the k-th is the Dialogue line of word k. |
| Captions.AssEventOfWord | pipeline/captions.py:96-120 | The k-th Dialogue line shows word k's group of four with word k highlighted, timed by that word. |
| Captions.GenerateAss | pipeline/captions.py:70-124 | The event loops compute the specified ASS text: the header, then the events. |
| Captions.HighlightParts | pipeline/captions.py:109-117 | The inner loop highlights the active word and leaves the others plain. |
| Captions.AssReadBack | pipeline/captions.py:122 | Read line by line, the ASS text is the header's lines followed by one Dialogue line per word, in order. |
| Captions.GenerateCaptions | pipeline/captions.py:157-198 | With words, the SRT and ASS files are written to `captions_<lang>` paths. Without words, only the whisper-CLI fallback's SRT path is reported and nothing is written. |
| Music.Regions | pipeline/music.py:27-41 | There are between 1 and n regions. The first starts where the first word starts and the last ends where the last word ends. |
| Music.RegionsCount | pipeline/music.py:33-39 | There is one region more than there are gaps of at least 0.5 s between words. |
| Music.RegionsGaps | pipeline/music.py:33-39 | Consecutive regions are separated by silence of at least 0.5 s. |
| Music.MergeRegions | pipeline/music.py:29-41 | The merge loop computes the specified regions. |
| Music.SpeechRegions | pipeline/music.py:19-51 | The regions come from the words when there are words. Otherwise they are one region over the audio's duration, or over 60 s when that fails. |
| Music.Fmt2Decimals | pipeline/music.py:70 | `%.2f` output has exactly two digits after the point. |
| Music.Fmt2RoundTrip | pipeline/music.py:70 | `%.2f` output reads back as the centiseconds it was made from. |
| Music.ClipStart | pipeline/music.py:68 | `max(0, start - buffer)` never goes below 0 or above the start. |
| Music.BuildDuckFilter | pipeline/music.py:54-73 | The loop computes the specified filter text. |
| Music.DuckFilterOff | pipeline/music.py:61-62 | The filter is the plain `volume=0.25` exactly when there are no regions. |
| Music.TermRoundTrip | pipeline/music.py:66-70 | Each `between(t,s,e)` condition reads back as its region widened by the buffer, clipped at 0. |
| Music.DuckFilterReadBack | pipeline/music.py:64-73 | The filter is the fixed frame around the conditions. Split on `+`, the conditions are one per region, in order. |
| Music.SelectAndPrepareMusic | pipeline/music.py:76-97 | No tracks give `{}`. Otherwise the result holds the picked track and a duck filter. With transcribed words the filter is built from their merged regions. Without words it is built from `[0, duration]`, or from `[0, 60 s]` when the duration is unknown. |
| State.Marker | pipeline/state.py:72 | `+` for done, `!` for failed, a space for pending or absent, `?` otherwise. |
| State.SummaryReadBack | pipeline/state.py:66-74 | The summary reads back as ten lines, one per stage in pipeline order, each behind the marker of its status. |
| State.PipelineState.constructor | pipeline/state.py:21-24 | Wrapping a draft keeps its ledger, or starts an empty one. |
| State.PipelineState.IsDone | pipeline/state.py:30-33 | A stage is done exactly when its entry's status is `done`. |
| State.PipelineState.IsFailed | pipeline/state.py:35-37 | A stage is failed exactly when its status is `failed`, and then it is not done. |
| State.PipelineState.GetArtifact | pipeline/state.py:56-60 | The stage's artifact under the key when recorded, else the default. |
| State.PipelineState.CompleteStage | pipeline/state.py:39-46 | The stage becomes done and holds its artifacts only when some are given. Every other stage is unchanged. |
| State.PipelineState.FailStage | pipeline/state.py:48-54 | The stage becomes failed with its error and no artifacts. Every other stage is unchanged. |
| State.PipelineState.Reset | pipeline/state.py:62-64 | The ledger is emptied: no stage is done or failed. |
| State.PipelineState.Summary | pipeline/state.py:66-74 | The summary is the stage lines joined by newlines. |
| Thumbnail.WrapText | pipeline/thumbnail.py:97-113 | The wrap loop computes the specified lines. |
| Thumbnail.WrapSpec | pipeline/thumbnail.py:97-113 | Split on spaces, the lines concatenate to `text.split()`, and no line is empty. A line of two or more words fits `max_width`. The wrap is greedy: a line plus a space and the next line's first word does not fit. |
| Thumbnail.WrapEmpty | pipeline/thumbnail.py:99-112 | The wrap gives no lines exactly when the text is empty or only whitespace. |
| Thumbnail.WideLinesAreWords | pipeline/thumbnail.py:103-110 | A line wider than `max_width` is a single word. |
| Thumbnail.WrapIsGroups | pipeline/thumbnail.py:97-113 | The string-level wrap equals the word-list wrap, each line joined by spaces. |
| Thumbnail.GroupFoldInv | pipeline/thumbnail.py:102-110 | The word-list wrap keeps every word in order. Its lines are non-empty, fit when they hold several words, and are greedy. |
| Thumbnail.Place | pipeline/thumbnail.py:79-85 | The text block is centred to within a pixel with its bottom 60 pixels above the edge. The shadow is 3 pixels right and down. |
| Thumbnail.FirstLoadable | pipeline/thumbnail.py:57-68 | The font chosen is the first in the list that loads. None means no font loads and Pillow's default is used. |
| Thumbnail.PickFont | pipeline/thumbnail.py:55-68 | The font loop computes the specified choice. |
| Thumbnail.OverlayTitle | pipeline/thumbnail.py:71-80 | The title is wrapped to 1200 pixels and the lines joined by newlines. The block is placed from its measured size. |
| Thumbnail.BlockLines | pipeline/thumbnail.py:72-73 | The text block splits back into the wrapped lines. |
| Thumbnail.ThumbnailJobOf | pipeline/thumbnail.py:123-128 | The prompt defaults to "Cinematic YouTube thumbnail". The title falls back to `news`, then "". The job id defaults to "unknown". The files are `thumb_raw_<id>.png` and `thumb_<id>.png`. |
| Thumbnail.PathsDiffer | pipeline/thumbnail.py:127-128 | The raw and final thumbnail paths never coincide. |

## Left out

- Network and service calls are inputs, never modelled behaviour. This covers the Reddit and DuckDuckGo requests, `feedparser.parse`, the Gemini image calls, ElevenLabs, the YouTube upload and both Anthropic calls: the draft reply and `auto_pick`'s reply. A response is `Some(decoded value)`, or `None` when the call raised.
- Subprocesses, the filesystem and the clock are inputs: whisper, the `claude` CLI and ffmpeg; `shutil.which`; whether files exist; timestamps. `PipelineState.save` and `load_config` are not modelled.
- `_generate_thumb_image`, the Pillow drawing itself and the ffmpeg filter probe are not modelled. Only their measurements and chosen coordinates are.
- Concurrency in `discover` is not modelled: the thread pool becomes the sources' results plus the order in which they completed. A future that times out counts as a source that raised.
- Floating point is modelled with integers: times are whole milliseconds in the captions, and centiseconds in the music filter. `log10` and the menu's score formatter are parameters. `str()` of a non-string JSON value is a parameter `repr`.
- `lower`, `strip` and `split` are modelled on ASCII and the C0 separators Python treats as whitespace. Unicode case mapping and Unicode spaces are not modelled. JSON numbers are integers.
- Research: the events are what `HTMLParser` delivers for the page (tag and attribute names already lower-cased). Its tokeniser, and text it may still hold back because `close()` is never called, are not modelled.
- Thumbnail: a title that is not a string, on which `split` would raise, is not modelled. Only the job and its wrap on string titles are.
- The optional-source `ImportError` branches in `_load_sources` are not modelled: twitter and tiktok are always registered.
- A `topic_sources` entry that is not an object, and Reddit or RSS configs whose `subreddits` or `feeds` are not lists of strings, are excluded by preconditions.
- Captions: `group_size` 0, which makes `range` raise, is excluded by a precondition. The dead `if not group: continue` branch is not modelled, since groups are never empty.
- Whisper's word text and the duration probe are inputs, so the float-to-time conversion is not modelled.
- `random.choice` is the index `pick`.
- Retry: a negative `max_retries` is not modelled, since the counts are natural numbers.
- Draft: a reply that is not valid JSON, or that decodes to something other than an object, is one error `InvalidJson`. The source raises on invalid JSON, and continues with a non-object only to fail later.
- Python's sort is modelled by a stable insertion sort, which orders the same way Timsort does.
- TopicsReddit.PostOf: a title that is not a string is held as its `str()`. Python keeps the raw value, and `discover` later raises on its `.lower()` (pipeline/topics/engine.py:76). A list selftext is likewise held as the `str()` of its first 200 items, where Python keeps the list.
- TopicsReddit.GatheredSources: does not bound the summary's length, since the `str()` of a list selftext can be longer than 200 characters.
- Retry: the delays `base_delay * 2 ** attempt` are whole milliseconds. A base delay that is not a whole number of milliseconds is not modelled.
- `_get_key` returns the JSON value found in the config file rather than forcing it to a string, since the source returns whatever truthy value is there.
- State.Entry: a ledger entry holds a string status, string timestamp and string error, each possibly absent, and an artifacts object. A status that is `null` or not a string, which `summary` still marks `?` (pipeline/state.py:71-72), and an entry that is not an object are not representable.
