/**
 * Background music: merging word timings into speech regions and the
 * ffmpeg volume expression that ducks the music under them
 * (pipeline/music.py).
 *
 * Times are natural numbers of centiseconds, so that `f"{x:.2f}"` is exact:
 * 0.5 s is 50, the default buffer of 0.3 s is 30.
 */
module Music {
  import opened Wrappers
  import opened PyText

  /** A stretch of audio: a word as Whisper times it, or a speech region. */
  datatype Span = Span(start: nat, end: nat)

  /** A word starting less than this after the region's end joins the region. */
  const MergeGap: nat := 50

  /** The buffer `build_duck_filter` uses unless told otherwise. */
  const DefaultBuffer: nat := 30

  /** The region used when neither the words nor the duration are available (60 s). */
  const FallbackEnd: nat := 6000

  // ---------------------------------------------------------------------
  // Speech regions

  /**
   * The regions the merge loop of `_get_speech_regions` produces, defined
   * word by word from the left: the last word either extends the last
   * region or opens a new one.
   */
  function Regions(ws: seq<Span>): (rs: seq<Span>)
    requires |ws| > 0
    ensures 1 <= |rs| <= |ws|
    ensures rs[0].start == ws[0].start
    ensures rs[|rs| - 1].end == ws[|ws| - 1].end
    decreases |ws|
  {
    if |ws| == 1 then [ws[0]]
    else
      var rs := Regions(ws[..|ws| - 1]);
      var w := ws[|ws| - 1];
      var last := rs[|rs| - 1];
      if w.start - last.end < MergeGap then rs[..|rs| - 1] + [Span(last.start, w.end)]
      else rs + [w]
  }

  /** Where word `i` starts a region of its own: it begins at least `MergeGap` after the previous word ends. */
  predicate IsBreak(ws: seq<Span>, i: nat)
    requires 0 < i < |ws|
  {
    ws[i].start - ws[i - 1].end >= MergeGap
  }

  /** The number of breaks among the words. */
  function Breaks(ws: seq<Span>): nat
    decreases |ws|
  {
    if |ws| <= 1 then 0
    else Breaks(ws[..|ws| - 1]) + if IsBreak(ws, |ws| - 1) then 1 else 0
  }

  lemma PrefixBreak(ws: seq<Span>, i: nat)
    requires 0 < i < |ws| - 1
    ensures IsBreak(ws[..|ws| - 1], i) == IsBreak(ws, i)
  {
  }

  /** There is one region more than there are breaks between words. */
  lemma {:induction false} RegionsCount(ws: seq<Span>)
    requires |ws| > 0
    ensures |Regions(ws)| == 1 + Breaks(ws)
    decreases |ws|
  {
    if |ws| > 1 {
      var init := ws[..|ws| - 1];
      RegionsCount(init);
      var rs := Regions(init);
      assert rs[|rs| - 1].end == ws[|ws| - 2].end;
    }
  }

  /** Region `k + 1` starts at least `MergeGap` after region `k` ends. */
  predicate SilenceAfter(rs: seq<Span>, k: nat)
    requires k + 1 < |rs|
  {
    rs[k + 1].start - rs[k].end >= MergeGap
  }

  /** Consecutive regions are separated by a silence of at least `MergeGap`. */
  lemma {:induction false} RegionsGaps(ws: seq<Span>)
    requires |ws| > 0
    ensures forall k :: 0 <= k < |Regions(ws)| - 1 ==> SilenceAfter(Regions(ws), k)
    decreases |ws|
  {
    if |ws| > 1 {
      var init := ws[..|ws| - 1];
      RegionsGaps(init);
      var rs := Regions(init);
      var w := ws[|ws| - 1];
      var last := rs[|rs| - 1];
      if w.start - last.end < MergeGap {
        var out := rs[..|rs| - 1] + [Span(last.start, w.end)];
        assert Regions(ws) == out;
        forall k | 0 <= k < |out| - 1 ensures SilenceAfter(out, k) {
          assert SilenceAfter(rs, k);
          assert out[k] == rs[k];
          assert out[k + 1].start == rs[k + 1].start;
        }
      } else {
        var out := rs + [w];
        assert Regions(ws) == out;
        forall k | 0 <= k < |out| - 1 ensures SilenceAfter(out, k) {
          if k < |rs| - 1 {
            assert SilenceAfter(rs, k);
          }
        }
      }
    }
  }

  /** One more word: the regions of the longer prefix in terms of the shorter one. */
  lemma RegionsStep(ws: seq<Span>, i: nat)
    requires 0 < i < |ws|
    ensures var rs := Regions(ws[..i]);
      var last := rs[|rs| - 1];
      Regions(ws[..i + 1]) ==
        if ws[i].start - last.end < MergeGap then rs[..|rs| - 1] + [Span(last.start, ws[i].end)]
        else rs + [ws[i]]
  {
    assert ws[..i + 1][..i] == ws[..i];
  }

  /** The merge loop of `_get_speech_regions`, for a non-empty word list. */
  method MergeRegions(words: seq<Span>) returns (regions: seq<Span>)
    requires |words| > 0
    ensures regions == Regions(words)
  {
    regions := [];
    var regionStart := words[0].start;
    var regionEnd := words[0].end;
    assert words[..1] == [words[0]];
    for i := 1 to |words|
      invariant regions + [Span(regionStart, regionEnd)] == Regions(words[..i])
    {
      RegionsStep(words, i);
      var w := words[i];
      if w.start - regionEnd < MergeGap {
        regionEnd := w.end;
      } else {
        regions := regions + [Span(regionStart, regionEnd)];
        regionStart := w.start;
        regionEnd := w.end;
      }
    }
    regions := regions + [Span(regionStart, regionEnd)];
    assert words[..|words|] == words;
  }

  /**
   * `_get_speech_regions` with its two calls out given as data: the Whisper
   * words (None when transcription raised) and the audio duration (None
   * when probing it raised).
   */
  method SpeechRegions(whisper: Option<seq<Span>>, duration: Option<nat>) returns (regions: seq<Span>)
    ensures |regions| >= 1
    ensures whisper.Some? && |whisper.value| > 0 ==> regions == Regions(whisper.value)
    ensures !(whisper.Some? && |whisper.value| > 0) && duration.Some? ==> regions == [Span(0, duration.value)]
    ensures !(whisper.Some? && |whisper.value| > 0) && duration.None? ==> regions == [Span(0, FallbackEnd)]
  {
    if whisper.Some? && |whisper.value| > 0 {
      regions := MergeRegions(whisper.value);
      return;
    }
    match duration
    case Some(d) => regions := [Span(0, d)];
    case None => regions := [Span(0, FallbackEnd)];
  }

  // ---------------------------------------------------------------------
  // Two-decimal numbers: `f"{x:.2f}"`

  /** A centisecond count as seconds with two decimals. */
  function Fmt2(cs: nat): string {
    NatToString(cs / 100) + "." + PadNat(cs % 100, 2)
  }

  /** Reads `Fmt2` output back: whole seconds before the point, centiseconds after it. */
  function ParseFmt2(t: string): Option<nat> {
    var p := SplitOn(t, '.');
    if |p| != 2 then None else Some(100 * ParseDigits(p[0]) + ParseDigits(p[1]))
  }

  /** Exactly two digits follow the point. */
  lemma Fmt2Decimals(cs: nat)
    ensures var t := Fmt2(cs);
      |t| >= 4 && t[|t| - 3] == '.' && AllDigits(t[|t| - 2..]) && AllDigits(t[..|t| - 3])
  {
    NatToStringLength(cs % 100, 2);
    var w, f := NatToString(cs / 100), PadNat(cs % 100, 2);
    assert |f| == 2;
    Infix(w, ".", f);
  }

  lemma {:induction false} Fmt2RoundTrip(cs: nat)
    ensures ParseFmt2(Fmt2(cs)) == Some(cs)
  {
    var q, r := cs / 100, cs % 100;
    var w, f := NatToString(q), PadNat(r, 2);
    assert Fmt2(cs) == w + ['.'] + f;
    DigitsFree(w, '.');
    DigitsFree(f, '.');
    SplitOnTwo(w, f, '.');
    ParseNatToString(q);
    ParsePadNat(r, 2);
    assert ParseFmt2(Fmt2(cs)) == Some(100 * q + r);
    Centis(cs);
  }

  lemma Centis(cs: nat)
    ensures 100 * (cs / 100) + cs % 100 == cs
  {
  }

  lemma DigitsFree(s: string, c: char)
    requires AllDigits(s) && !IsDigit(c)
    ensures c !in s
  {
  }

  lemma Fmt2Free(cs: nat, c: char)
    requires !IsDigit(c) && c != '.'
    ensures c !in Fmt2(cs)
  {
    var w, f := NatToString(cs / 100), PadNat(cs % 100, 2);
    DigitsFree(w, c);
    DigitsFree(f, c);
  }

  // ---------------------------------------------------------------------
  // The ducking filter

  const TermOpen := "between(t,"
  const DuckOpen := "volume='if("
  const DuckClose := ", 0.12, 0.25)':eval=frame"
  const DuckOff := "volume=0.25"

  /** `max(0, start - buffer)` */
  function ClipStart(start: nat, buffer: nat): (s: nat)
    ensures s == if start >= buffer then start - buffer else 0
    ensures s <= start
  {
    if start >= buffer then start - buffer else 0
  }

  /** The window a region asks to be ducked over, widened by the buffer on both sides. */
  function Window(r: Span, buffer: nat): Span {
    Span(ClipStart(r.start, buffer), r.end + buffer)
  }

  function Bounds(w: Span): string {
    Fmt2(w.start) + "," + Fmt2(w.end)
  }

  /** The `between(t,s,e)` condition for one region. */
  function Term(r: Span, buffer: nat): string {
    TermOpen + Bounds(Window(r, buffer)) + ")"
  }

  lemma TermSpelled(r: Span, buffer: nat)
    ensures Term(r, buffer) == TermOpen + (Fmt2(ClipStart(r.start, buffer)) + "," + Fmt2(r.end + buffer)) + ")"
  {
  }

  function Terms(regions: seq<Span>, buffer: nat): (ts: seq<string>)
    ensures |ts| == |regions|
  {
    seq(|regions|, i requires 0 <= i < |regions| => Term(regions[i], buffer))
  }

  /** The text `build_duck_filter` returns. */
  function DuckFilter(regions: seq<Span>, buffer: nat): string {
    if |regions| == 0 then DuckOff else DuckOpen + Join(Terms(regions, buffer), "+") + DuckClose
  }

  /** `build_duck_filter`: one condition per region, in order, joined with `+`. */
  method BuildDuckFilter(regions: seq<Span>, buffer: nat) returns (f: string)
    ensures f == DuckFilter(regions, buffer)
  {
    if |regions| == 0 {
      return DuckOff;
    }
    ghost var all := Terms(regions, buffer);
    var conditions: seq<string> := [];
    for i := 0 to |regions|
      invariant conditions == all[..i]
    {
      var r := regions[i];
      var s := ClipStart(r.start, buffer);
      var e := r.end + buffer;
      var condition := TermOpen + (Fmt2(s) + "," + Fmt2(e)) + ")";
      TermSpelled(r, buffer);
      TakeNext(all, i);
      conditions := conditions + [condition];
    }
    assert all[..|regions|] == all;
    f := DuckOpen + Join(conditions, "+") + DuckClose;
  }

  /** The filter switches ducking off exactly when there are no regions. */
  lemma DuckFilterOff(regions: seq<Span>, buffer: nat)
    ensures DuckFilter(regions, buffer) == DuckOff <==> |regions| == 0
  {
    if |regions| > 0 {
      var f := DuckFilter(regions, buffer);
      Infix(DuckOpen, Join(Terms(regions, buffer), "+"), DuckClose);
      assert f[7] == DuckOpen[7] == '\'';
      assert DuckOff[7] == '0';
    }
  }

  /** Reads a `between(t,s,e)` condition back into its window. */
  function ParseTerm(t: string): Option<Span> {
    if |t| < |TermOpen| + 1 || t[..|TermOpen|] != TermOpen || t[|t| - 1] != ')' then None
    else
      var ab := SplitOn(t[|TermOpen|..|t| - 1], ',');
      if |ab| != 2 then None
      else
        match ParseFmt2(ab[0])
        case None => None
        case Some(s) =>
          match ParseFmt2(ab[1])
          case None => None
          case Some(e) => Some(Span(s, e))
  }

  lemma BoundsSplit(w: Span)
    ensures SplitOn(Bounds(w), ',') == [Fmt2(w.start), Fmt2(w.end)]
  {
    Fmt2Free(w.start, ',');
    Fmt2Free(w.end, ',');
    SplitOnTwo(Fmt2(w.start), Fmt2(w.end), ',');
  }

  /** Each condition carries the region's start less the buffer (never below 0) and its end plus the buffer. */
  lemma TermRoundTrip(r: Span, buffer: nat)
    ensures ParseTerm(Term(r, buffer)) == Some(Window(r, buffer))
  {
    var w := Window(r, buffer);
    var t := Term(r, buffer);
    Infix(TermOpen, Bounds(w), ")");
    assert t[|TermOpen|..|t| - 1] == Bounds(w);
    BoundsSplit(w);
    Fmt2RoundTrip(w.start);
    Fmt2RoundTrip(w.end);
  }

  lemma TermFree(r: Span, buffer: nat)
    ensures '+' !in Term(r, buffer)
  {
    var w := Window(r, buffer);
    Fmt2Free(w.start, '+');
    Fmt2Free(w.end, '+');
    assert '+' !in Bounds(w);
  }

  /**
   * A non-empty filter is the fixed frame around the conditions; split on
   * `+`, the conditions are one per region, in order, each reading back as
   * that region's window.
   */
  lemma DuckFilterReadBack(regions: seq<Span>, buffer: nat)
    requires |regions| > 0
    ensures var f := DuckFilter(regions, buffer);
      var ts := SplitOn(f[|DuckOpen|..|f| - |DuckClose|], '+');
      && f[..|DuckOpen|] == DuckOpen
      && f[|f| - |DuckClose|..] == DuckClose
      && |ts| == |regions|
      && forall i :: 0 <= i < |ts| ==> ParseTerm(ts[i]) == Some(Window(regions[i], buffer))
  {
    var terms := Terms(regions, buffer);
    Infix(DuckOpen, Join(terms, "+"), DuckClose);
    forall i | 0 <= i < |terms| ensures '+' !in terms[i] {
      TermFree(regions[i], buffer);
    }
    SplitOnJoinFree(terms, '+');
    forall i | 0 <= i < |terms| ensures ParseTerm(terms[i]) == Some(Window(regions[i], buffer)) {
      TermRoundTrip(regions[i], buffer);
    }
  }

  // ---------------------------------------------------------------------
  // select_and_prepare_music

  /**
   * `select_and_prepare_music`, given the tracks found, the index `pick`
   * that stands in for `random.choice`, and the outcomes of the calls
   * behind `_get_speech_regions`.
   */
  method SelectAndPrepareMusic(tracks: seq<string>, pick: nat, whisper: Option<seq<Span>>, duration: Option<nat>)
    returns (r: map<string, string>)
    ensures |tracks| == 0 <==> r == map[]
    ensures |tracks| > 0 ==> r.Keys == {"track_path", "duck_filter"} && r["track_path"] == tracks[pick % |tracks|]
    ensures |tracks| > 0 && whisper.Some? && |whisper.value| > 0 ==>
      r["duck_filter"] == DuckFilter(Regions(whisper.value), DefaultBuffer)
    ensures |tracks| > 0 && !(whisper.Some? && |whisper.value| > 0) && duration.Some? ==>
      r["duck_filter"] == DuckFilter([Span(0, duration.value)], DefaultBuffer)
    ensures |tracks| > 0 && !(whisper.Some? && |whisper.value| > 0) && duration.None? ==>
      r["duck_filter"] == DuckFilter([Span(0, FallbackEnd)], DefaultBuffer)
  {
    if |tracks| == 0 {
      return map[];
    }
    var track := tracks[pick % |tracks|];
    var regions := SpeechRegions(whisper, duration);
    var duck := BuildDuckFilter(regions, DefaultBuffer);
    r := map["track_path" := track, "duck_filter" := duck];
    assert "track_path" in r;
  }
}
