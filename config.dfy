/**
 * Keyword extraction, key resolution and Claude backend selection
 * (pipeline/config.py). The environment and the parsed config file are
 * given as data; whether the `claude` CLI is installed is a parameter.
 */
module Config {
  import opened Wrappers
  import opened Json
  import opened PyText

  const Stopwords: set<string> := {
    "a", "an", "the", "and", "or", "but", "in", "on", "at", "to", "for", "of",
    "with", "from", "by", "is", "are", "was", "were", "be", "been", "has", "have",
    "had", "will", "would", "could", "should", "may", "might", "that", "this",
    "these", "those", "it", "its", "new", "ahead", "as", "into", "up", "out",
    "over", "after"
  }

  const KeywordLimit: nat := 4

  /** The characters `extract_keywords` strips from both ends of a word. */
  const Punctuation: string := ".,!?\"'()[]"

  predicate IsPunct(c: char) {
    c == '.' || c == ',' || c == '!' || c == '?' || c == '"' || c == '\'' || c == '(' || c == ')' || c == '[' || c == ']'
  }

  lemma PunctuationChars()
    ensures forall c :: IsPunct(c) <==> c in Punctuation
  {
  }

  // ---------------------------------------------------------------------
  // extract_keywords

  /** `w.strip(".,!?\"'()[]").lower()` */
  function Clean(w: string): (r: string)
    ensures |r| > 0 ==> !IsPunct(r[0]) && !IsPunct(r[|r| - 1])
    ensures forall i :: 0 <= i < |r| ==> !IsUpper(r[i])
  {
    var t := Trim(w, IsPunct);
    if |t| == 0 then Lower(t)
    else
      LowerKeepsPunct(t[0]);
      LowerKeepsPunct(t[|t| - 1]);
      Lower(t)
  }

  /** Lower-casing neither makes nor unmakes punctuation. */
  lemma LowerKeepsPunct(c: char)
    ensures IsPunct(LowerChar(c)) <==> IsPunct(c)
  {
  }

  /** A cleaned word worth searching for: non-empty, not a stopword, longer than two characters. */
  predicate Qualifies(w: string) {
    w != "" && w !in Stopwords && |w| > 2
  }

  function Cleaned(ws: seq<string>): (cs: seq<string>)
    ensures |cs| == |ws|
  {
    seq(|ws|, i requires 0 <= i < |ws| => Clean(ws[i]))
  }

  /** The qualifying words, in order. */
  function Qualifying(ws: seq<string>): seq<string>
    decreases |ws|
  {
    if |ws| == 0 then [] else (if Qualifies(ws[0]) then [ws[0]] else []) + Qualifying(ws[1..])
  }

  /** The words `extract_keywords` keeps: the first four qualifying cleaned tokens. */
  function Keywords(text: string): seq<string> {
    SlicePrefix(Qualifying(Cleaned(Split(text))), KeywordLimit as int)
  }

  /** `extract_keywords(text)` */
  function ExtractKeywords(text: string): string {
    Join(Keywords(text), " ")
  }

  /** Exactly the qualifying words are kept, and only they. */
  lemma {:induction false} QualifyingSpec(ws: seq<string>)
    ensures forall w :: w in Qualifying(ws) <==> w in ws && Qualifies(w)
    ensures |Qualifying(ws)| <= |ws|
    decreases |ws|
  {
    if |ws| > 0 {
      QualifyingSpec(ws[1..]);
      assert ws == [ws[0]] + ws[1..];
    }
  }

  /** A cleaned token has no whitespace, because neither stripping nor lower-casing adds any. */
  lemma CleanNoSpace(w: string)
    requires IsToken(w)
    ensures forall i :: 0 <= i < |Clean(w)| ==> !IsSpace(Clean(w)[i])
  {
    var t := Trim(w, IsPunct);
    TrimChars(w, IsPunct);
    forall i | 0 <= i < |t| ensures !IsSpace(LowerChar(t[i])) {
      assert t[i] in w;
    }
  }

  /**
   * Read back on spaces, the keywords are at most four words, each lower
   * case, not a stopword, longer than two characters and without the
   * stripped punctuation at either end, and they are the first four
   * qualifying tokens in input order.
   */
  lemma ExtractKeywordsSpec(text: string)
    ensures var ws := Split(ExtractKeywords(text));
      && ws == SlicePrefix(Qualifying(Cleaned(Split(text))), KeywordLimit as int)
      && |ws| <= KeywordLimit
      && forall i :: 0 <= i < |ws| ==>
           && Qualifies(ws[i])
           && (forall k :: 0 <= k < |ws[i]| ==> !IsUpper(ws[i][k]))
           && !IsPunct(ws[i][0]) && !IsPunct(ws[i][|ws[i]| - 1])
  {
    var ws := Keywords(text);
    KeywordsShape(text);
    SplitJoinTokens(ws);
  }

  lemma KeywordsShape(text: string)
    ensures var ws := Keywords(text);
      forall i :: 0 <= i < |ws| ==> IsToken(ws[i]) && Qualifies(ws[i]) && ws[i] in Cleaned(Split(text))
  {
    var tokens := Split(text);
    var cs := Cleaned(tokens);
    var q := Qualifying(cs);
    var ws := Keywords(text);
    QualifyingSpec(cs);
    forall i | 0 <= i < |ws| ensures IsToken(ws[i]) && Qualifies(ws[i]) && ws[i] in cs {
      assert ws[i] == q[i] && q[i] in q;
      var j :| 0 <= j < |cs| && cs[j] == ws[i];
      CleanNoSpace(tokens[j]);
    }
  }

  /** When no token qualifies — the empty text, or a text of stopwords — there are no keywords. */
  lemma KeywordsEmpty(text: string)
    requires forall i :: 0 <= i < |Split(text)| ==> !Qualifies(Clean(Split(text)[i]))
    ensures ExtractKeywords(text) == ""
  {
    QualifyingNone(Cleaned(Split(text)));
  }

  lemma {:induction false} QualifyingNone(ws: seq<string>)
    requires forall i :: 0 <= i < |ws| ==> !Qualifies(ws[i])
    ensures Qualifying(ws) == []
    decreases |ws|
  {
    if |ws| > 0 {
      QualifyingNone(ws[1..]);
    }
  }

  /** With fewer than four qualifying tokens, every one of them is a keyword. */
  lemma KeywordsComplete(text: string, i: nat)
    requires |Qualifying(Cleaned(Split(text)))| < KeywordLimit
    requires i < |Split(text)| && Qualifies(Clean(Split(text)[i]))
    ensures Clean(Split(text)[i]) in Keywords(text)
  {
    var cs := Cleaned(Split(text));
    QualifyingSpec(cs);
    assert cs[i] in cs;
  }

  // ---------------------------------------------------------------------
  // Key resolution

  /**
   * `_get_key(name)`: a non-empty environment value, else a truthy value
   * under `name` in the config file, else "". `configFile` is what
   * parsing the file gave (`None` when it is missing or not JSON); a
   * config that is not an object makes `.get` raise, which is caught.
   */
  function GetKey(name: string, env: map<string, string>, configFile: Option<Json>): (r: Json)
    ensures name in env && env[name] != "" ==> r == JStr(env[name])
    ensures !(name in env && env[name] != "") ==>
      if configFile.Some? && configFile.value.JObj? && name in configFile.value.fields && Truthy(configFile.value.fields[name])
      then r == configFile.value.fields[name]
      else r == JStr("")
  {
    if name in env && env[name] != "" then JStr(env[name])
    else if configFile.Some? && configFile.value.JObj? then
      var v := Get(configFile.value.fields, name, JNull);
      if Truthy(v) then v else JStr("")
    else JStr("")
  }

  /** The environment wins: a non-empty environment value is used whatever the config says. */
  lemma EnvFirst(name: string, env: map<string, string>, c1: Option<Json>, c2: Option<Json>)
    requires name in env && env[name] != ""
    ensures GetKey(name, env, c1) == GetKey(name, env, c2) == JStr(env[name])
  {
  }

  const AnthropicKeyName := "ANTHROPIC_API_KEY"

  /**
   * `_has_claude_max_credentials`: the credentials file exists, parses,
   * and holds a truthy `claudeAiOauth.accessToken`. Any failure on the way
   * (missing file, bad JSON, a non-object where an object is read) is false.
   */
  function HasMaxCredentials(credentials: Option<Json>): (r: bool)
    ensures r <==>
      && credentials.Some? && credentials.value.JObj?
      && "claudeAiOauth" in credentials.value.fields
      && credentials.value.fields["claudeAiOauth"].JObj?
      && "accessToken" in credentials.value.fields["claudeAiOauth"].fields
      && Truthy(credentials.value.fields["claudeAiOauth"].fields["accessToken"])
  {
    if credentials.None? || !credentials.value.JObj? then false
    else
      var oauth := Get(credentials.value.fields, "claudeAiOauth", JObj(map[]));
      if !oauth.JObj? then false
      else Truthy(Get(oauth.fields, "accessToken", JNull))
  }

  const NoClaudeAccess :=
    "No Claude access found. Either:\n"
    + "  1. Set ANTHROPIC_API_KEY in env or ~/.youtube-shorts-pipeline/config.json\n"
    + "  2. Log in to Claude Code (claude login) with a Claude Max subscription"

  /** `get_claude_backend`: the API when a key resolves, else the CLI when it is installed and logged in. */
  function ClaudeBackend(apiKey: Json, cliInstalled: bool, maxCredentials: bool): (r: Result<string>)
    ensures r == Ok("api") <==> Truthy(apiKey)
    ensures r == Ok("cli") <==> !Truthy(apiKey) && cliInstalled && maxCredentials
    ensures r.Err? <==> !Truthy(apiKey) && !(cliInstalled && maxCredentials)
    ensures r.Err? ==> r.error == NoClaudeAccess
  {
    if Truthy(apiKey) then Ok("api")
    else if cliInstalled && maxCredentials then Ok("cli")
    else Err(NoClaudeAccess)
  }

  /** With an API key in the environment the backend is the API, whatever else holds. */
  lemma BackendPrefersApi(env: map<string, string>, configFile: Option<Json>, cliInstalled: bool, credentials: Option<Json>)
    requires AnthropicKeyName in env && env[AnthropicKeyName] != ""
    ensures ClaudeBackend(GetKey(AnthropicKeyName, env, configFile), cliInstalled, HasMaxCredentials(credentials)) == Ok("api")
  {
  }

  // ---------------------------------------------------------------------
  // The tail of call_claude_cli

  const MaxTurnsSuffix := "Error: Reached max turns (3)"

  /** What `call_claude_cli` returns for the CLI's standard output. */
  function CliOutput(stdout: string): (r: string)
    ensures |r| > 0 ==> !IsSpace(r[0]) && !IsSpace(r[|r| - 1])
    ensures var o := Strip(stdout);
      !EndsWith(o, MaxTurnsSuffix) ==> r == o
    ensures var o := Strip(stdout);
      EndsWith(o, MaxTurnsSuffix) ==> o == o[..|o| - |MaxTurnsSuffix|] + MaxTurnsSuffix && r == Strip(o[..|o| - |MaxTurnsSuffix|])
  {
    var output := Strip(stdout);
    if EndsWith(output, MaxTurnsSuffix) then Strip(output[..|output| - |MaxTurnsSuffix|]) else output
  }

  /** The appended notice is dropped: a reply followed by the notice on its own line gives the reply, stripped. */
  lemma CliOutputDropsNotice(reply: string)
    requires |reply| > 0 && !IsSpace(reply[0])
    ensures CliOutput(reply + "\n" + MaxTurnsSuffix) == Strip(reply)
  {
    var s := reply + "\n" + MaxTurnsSuffix;
    assert s[0] == reply[0] && s[|s| - 1] == ')';
    StripOfSpaceFree(s);
    assert EndsWith(s, MaxTurnsSuffix);
    var p := s[..|s| - |MaxTurnsSuffix|];
    assert p == reply + "\n";
    assert TrimStart(p, IsSpace) == p;
    TrimEndSnoc(reply, '\n', IsSpace);
    assert TrimStart(reply, IsSpace) == reply;
  }
}
