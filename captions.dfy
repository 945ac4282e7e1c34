/**
 * Caption synthesis from word timestamps (pipeline/captions.py).
 *
 * Words are grouped four at a time. The SRT rendering has one cue per group;
 * the ASS rendering has one Dialogue line per word, showing the word's group
 * with that word highlighted. Times are natural numbers of milliseconds.
 */
module Captions {
  import opened Wrappers
  import opened PyText

  /** One word from the speech-to-text step: its text and its span in milliseconds. */
  datatype Word = Word(text: string, start: nat, end: nat)

  // ---------------------------------------------------------------------
  // Grouping

  /** The groups `_group_words` forms: consecutive slices of `size` words, the last one shorter. */
  function Groups(words: seq<Word>, size: nat): (gs: seq<seq<Word>>)
    requires size > 0
    ensures forall i :: 0 <= i < |gs| ==> 0 < |gs[i]| <= size
    decreases |words|
  {
    if |words| == 0 then []
    else [words[..Min(size, |words|)]] + Groups(words[Min(size, |words|)..], size)
  }

  /** `_group_words`: walks the words `size` at a time, appending each slice. */
  method GroupWords(words: seq<Word>, size: nat) returns (groups: seq<seq<Word>>)
    requires size > 0
    ensures groups == Groups(words, size)
  {
    groups := [];
    var i := 0;
    while i < |words|
      invariant groups + Groups(words[Min(i, |words|)..], size) == Groups(words, size)
      decreases |words| - i
    {
      var rest := words[i..];
      assert rest[..Min(size, |rest|)] == words[i..Min(i + size, |words|)];
      assert rest[Min(size, |rest|)..] == words[Min(i + size, |words|)..];
      groups := groups + [words[i..Min(i + size, |words|)]];
      i := i + size;
    }
  }

  /** Concatenating the groups gives back the words, in order. */
  lemma {:induction false} GroupsConcat(words: seq<Word>, size: nat)
    requires size > 0
    ensures Flatten(Groups(words, size)) == words
    decreases |words|
  {
    if |words| > 0 {
      var k := Min(size, |words|);
      GroupsConcat(words[k..], size);
      assert words[..k] + words[k..] == words;
    }
  }

  /**
   * Every group but the last has exactly `size` words, so there are
   * ceil(n / size) groups: `size` times one fewer falls short of n, `size`
   * times their number reaches it.
   */
  lemma {:induction false} GroupsShape(words: seq<Word>, size: nat)
    requires size > 0
    ensures var gs := Groups(words, size);
      && (forall i :: 0 <= i < |gs| - 1 ==> |gs[i]| == size)
      && |words| <= |gs| * size
      && (|gs| > 0 ==> (|gs| - 1) * size < |words|)
      && (|words| == 0 <==> gs == [])
    decreases |words|
  {
    var gs := Groups(words, size);
    if |words| > 0 {
      var k := Min(size, |words|);
      GroupsShape(words[k..], size);
      var rest := Groups(words[k..], size);
      assert gs == [words[..k]] + rest;
      if |words| > size {
        CountStep(|words|, size, |rest|);
        forall i | 0 <= i < |gs| - 1 ensures |gs[i]| == size {
          if i > 0 { assert gs[i] == rest[i - 1]; }
        }
      }
    }
  }

  /** One more full group: the bounds for the rest give the bounds for the whole. */
  lemma CountStep(n: nat, size: nat, r: nat)
    requires 0 < size < n
    requires n - size <= r * size && (r > 0 ==> (r - 1) * size < n - size)
    requires r == 0 ==> n - size == 0
    ensures n <= (r + 1) * size && r * size < n
  {
    assert (r + 1) * size == r * size + size;
    if r > 0 {
      assert r * size == (r - 1) * size + size;
    }
  }

  /** The group of four that holds word `4 * q`, in closed form. */
  function GroupOfFour(words: seq<Word>, q: nat): seq<Word>
    requires 4 * q < |words|
  {
    words[4 * q..Min(4 * q + 4, |words|)]
  }

  lemma {:induction false} GroupsOfFourAt(words: seq<Word>, q: nat)
    requires q < |Groups(words, 4)|
    ensures 4 * q < |words|
    ensures Groups(words, 4)[q] == GroupOfFour(words, q)
    decreases q
  {
    var k := Min(4, |words|);
    var rest := Groups(words[k..], 4);
    assert Groups(words, 4) == [words[..k]] + rest;
    if q > 0 {
      assert q - 1 < |rest|;
      assert |words| > 4;
      GroupsOfFourAt(words[k..], q - 1);
      assert Groups(words, 4)[q] == rest[q - 1];
      assert words[4..][4 * (q - 1)..Min(4 * (q - 1) + 4, |words| - 4)]
          == words[4 * q..Min(4 * q + 4, |words|)];
    } else {
      assert Groups(words, 4)[0] == words[..k];
    }
  }

  lemma GroupsOfFourCover(words: seq<Word>)
    ensures 4 * |Groups(words, 4)| >= |words|
  {
    GroupsShape(words, 4);
    assert |Groups(words, 4)| * 4 >= |words|;
  }

  // ---------------------------------------------------------------------
  // Timestamps

  /**
   * A time split into hours, minutes, seconds and milliseconds, as
   * `_srt_time` and `_format_ass_time` split it; the split is the unique one
   * with minutes and seconds below 60 and milliseconds below 1000.
   */
  function Clock(ms: nat): (c: (nat, nat, nat, nat))
    ensures ms == 3600000 * c.0 + 60000 * c.1 + 1000 * c.2 + c.3
    ensures c.1 < 60 && c.2 < 60 && c.3 < 1000
  {
    var r := ms % 3600000;
    assert ms == 3600000 * (ms / 3600000) + r;
    assert r == 60000 * (r / 60000) + r % 60000;
    assert ms % 60000 == r % 60000;
    assert ms % 60000 == 1000 * (ms % 60000 / 1000) + ms % 1000;
    (ms / 3600000, ms % 3600000 / 60000, ms % 60000 / 1000, ms % 1000)
  }

  /** `H:MM:SS` followed by `sep` and the fraction. */
  function ClockText(h: string, m: string, s: string, sep: char, f: string): string {
    h + ":" + m + ":" + s + [sep] + f
  }

  /** `_srt_time`: `HH:MM:SS,mmm`, every field zero-padded, the hour to at least two digits. */
  function SrtTime(ms: nat): string {
    var c := Clock(ms);
    ClockText(PadNat(c.0, 2), PadNat(c.1, 2), PadNat(c.2, 2), ',', PadNat(c.3, 3))
  }

  /** `_format_ass_time`: `H:MM:SS.cc`, the hour unpadded, hundredths truncated. */
  function AssTime(ms: nat): string {
    var c := Clock(ms);
    ClockText(NatToString(c.0), PadNat(c.1, 2), PadNat(c.2, 2), '.', PadNat(c.3 / 10, 2))
  }

  /** Reads an `H:MM:SS<sep>F` time back into its four numeric fields. */
  function ParseClock(t: string, sep: char): Option<(nat, nat, nat, nat)> {
    var hms := SplitOn(t, ':');
    if |hms| != 3 then None
    else
      var sf := SplitOn(hms[2], sep);
      if |sf| != 2 then None
      else Some((ParseDigits(hms[0]), ParseDigits(hms[1]), ParseDigits(sf[0]), ParseDigits(sf[1])))
  }

  lemma DigitsFree(s: string, c: char)
    requires AllDigits(s) && !IsDigit(c)
    ensures c !in s
  {
  }

  lemma ClockTextFields(h: string, m: string, s: string, sep: char, f: string)
    requires ':' !in h && ':' !in m && ':' !in s && ':' !in f && sep != ':'
    ensures SplitOn(ClockText(h, m, s, sep, f), ':') == [h, m, s + [sep] + f]
  {
    var last := s + [sep] + f;
    var tail := m + [':'] + last;
    SplitOnTwo(m, last, ':');
    assert ClockText(h, m, s, sep, f) == h + [':'] + tail;
    SplitOnConcat(h, tail, ':');
    SplitOnFree(h, ':');
  }

  lemma {:induction false} ParseClockOf(h: string, m: string, s: string, f: string, sep: char)
    requires AllDigits(h) && AllDigits(m) && AllDigits(s) && AllDigits(f)
    requires sep == ',' || sep == '.'
    ensures ParseClock(ClockText(h, m, s, sep, f), sep)
         == Some((ParseDigits(h), ParseDigits(m), ParseDigits(s), ParseDigits(f)))
  {
    DigitsFree(h, ':'); DigitsFree(m, ':'); DigitsFree(s, ':'); DigitsFree(f, ':');
    DigitsFree(s, sep); DigitsFree(f, sep);
    ClockTextFields(h, m, s, sep, f);
    SplitOnTwo(s, f, sep);
  }

  /** An SRT timestamp reads back as exactly the milliseconds it was made from. */
  lemma {:induction false} SrtTimeRoundTrip(ms: nat)
    ensures match ParseClock(SrtTime(ms), ',')
      case Some((h, m, s, f)) => 3600000 * h + 60000 * m + 1000 * s + f == ms
      case None => false
  {
    var c := Clock(ms);
    ParseClockOf(PadNat(c.0, 2), PadNat(c.1, 2), PadNat(c.2, 2), PadNat(c.3, 3), ',');
    ParsePadNat(c.0, 2); ParsePadNat(c.1, 2); ParsePadNat(c.2, 2); ParsePadNat(c.3, 3);
  }

  /** An ASS timestamp reads back as the time truncated to hundredths of a second. */
  lemma {:induction false} AssTimeRoundTrip(ms: nat)
    ensures match ParseClock(AssTime(ms), '.')
      case Some((h, m, s, cs)) => 360000 * h + 6000 * m + 100 * s + cs == ms / 10
      case None => false
  {
    var c := Clock(ms);
    ParseClockOf(NatToString(c.0), PadNat(c.1, 2), PadNat(c.2, 2), PadNat(c.3 / 10, 2), '.');
    ParseNatToString(c.0); ParsePadNat(c.1, 2); ParsePadNat(c.2, 2); ParsePadNat(c.3 / 10, 2);
    assert ms == 10 * (360000 * c.0 + 6000 * c.1 + 100 * c.2 + c.3 / 10) + c.3 % 10;
  }

  /**
   * An ASS timestamp is `H:MM:SS.cc`: the hour's digits, then minutes,
   * seconds and hundredths as two digits each.
   */
  lemma {:induction false} AssTimeWidth(ms: nat)
    ensures var t := AssTime(ms);
      var n := |NatToString(ms / 3600000)|;
      && |t| == n + 9
      && t[n] == ':' && t[n + 3] == ':' && t[n + 6] == '.'
      && AllDigits(t[..n]) && AllDigits(t[n + 1..n + 3]) && AllDigits(t[n + 4..n + 6]) && AllDigits(t[n + 7..])
  {
    var c := Clock(ms);
    NatToStringLength(c.1, 2);
    NatToStringLength(c.2, 2);
    NatToStringLength(c.3 / 10, 2);
    var h, m, sec, f := NatToString(c.0), PadNat(c.1, 2), PadNat(c.2, 2), PadNat(c.3 / 10, 2);
    var t := AssTime(ms);
    var n := |h|;
    assert t == h + ":" + m + ":" + sec + "." + f;
    assert t[..n] == h && t[n + 1..n + 3] == m && t[n + 4..n + 6] == sec && t[n + 7..] == f;
  }

  /** The clock fields of a time given by fields within their ranges. */
  lemma ClockOf(ms: nat, h: nat, m: nat, sec: nat, f: nat)
    requires m < 60 && sec < 60 && f < 1000
    requires ms == 3600000 * h + 60000 * m + 1000 * sec + f
    ensures Clock(ms) == (h, m, sec, f)
  {
    var c := Clock(ms);
    ClockUnique(c.0, c.1, c.2, c.3, h, m, sec, f);
  }

  lemma ClockUnique(h: nat, m: nat, sec: nat, f: nat, h': nat, m': nat, sec': nat, f': nat)
    requires m < 60 && sec < 60 && f < 1000 && m' < 60 && sec' < 60 && f' < 1000
    requires 3600000 * h + 60000 * m + 1000 * sec + f == 3600000 * h' + 60000 * m' + 1000 * sec' + f'
    ensures h == h' && m == m' && sec == sec' && f == f'
  {
    assert 60000 * m + 1000 * sec + f < 3600000;
    assert 60000 * m' + 1000 * sec' + f' < 3600000;
    assert h == h';
    assert 1000 * sec + f < 60000 && 1000 * sec' + f' < 60000;
    assert m == m';
  }

  /** The ASS timestamp of a time given by its fields. */
  lemma AssTimeOf(ms: nat, h: nat, m: nat, sec: nat, cs: nat, r: nat)
    requires m < 60 && sec < 60 && cs < 100 && r < 10
    requires ms == 3600000 * h + 60000 * m + 1000 * sec + 10 * cs + r
    ensures AssTime(ms) == NatToString(h) + ":" + TwoDigits(m) + ":" + TwoDigits(sec) + "." + TwoDigits(cs)
  {
    ClockOf(ms, h, m, sec, 10 * cs + r);
    assert (10 * cs + r) / 10 == cs;
    PadTwo(m);
    PadTwo(sec);
    PadTwo(cs);
  }

  function TwoDigits(n: nat): string
    requires n < 100
  {
    [DigitChar(n / 10), DigitChar(n % 10)]
  }

  lemma PadTwo(n: nat)
    requires n < 100
    ensures PadNat(n, 2) == TwoDigits(n)
  {
    if n >= 10 {
      assert NatToString(n) == NatToString(n / 10) + [DigitChar(n % 10)];
    }
  }

  /** The texts of the examples below, spelled from their fields. */
  lemma AssTimeTexts()
    ensures NatToString(0) + ":" + TwoDigits(0) + ":" + TwoDigits(0) + "." + TwoDigits(0) == "0:00:00.00"
    ensures NatToString(0) + ":" + TwoDigits(0) + ":" + TwoDigits(5) + "." + TwoDigits(50) == "0:00:05.50"
    ensures NatToString(0) + ":" + TwoDigits(0) + ":" + TwoDigits(0) + "." + TwoDigits(5) == "0:00:00.05"
    ensures NatToString(0) + ":" + TwoDigits(1) + ":" + TwoDigits(5) + "." + TwoDigits(25) == "0:01:05.25"
    ensures NatToString(1) + ":" + TwoDigits(1) + ":" + TwoDigits(1) + "." + TwoDigits(75) == "1:01:01.75"
  {
  }

  /** Timestamps under a minute: zero, seconds with a half, and five hundredths. */
  lemma AssTimeSeconds()
    ensures AssTime(0) == "0:00:00.00"
    ensures AssTime(5500) == "0:00:05.50"
    ensures AssTime(50) == "0:00:00.05"
  {
    AssTimeOf(0, 0, 0, 0, 0, 0);
    AssTimeOf(5500, 0, 0, 5, 50, 0);
    AssTimeOf(50, 0, 0, 0, 5, 0);
    AssTimeTexts();
  }

  /** A timestamp with minutes. */
  lemma AssTimeMinutes()
    ensures AssTime(65250) == "0:01:05.25"
  {
    AssTimeOf(65250, 0, 1, 5, 25, 0);
    AssTimeTexts();
  }

  /** A timestamp with hours. */
  lemma AssTimeHours()
    ensures AssTime(3661750) == "1:01:01.75"
  {
    AssTimeOf(3661750, 1, 1, 1, 75, 0);
    AssTimeTexts();
  }

  /** Below 100 hours an SRT timestamp is the fixed-width `HH:MM:SS,mmm`. */
  lemma {:induction false} SrtTimeWidth(ms: nat)
    requires ms < 360000000
    ensures |SrtTime(ms)| == 12
    ensures SrtTime(ms)[2] == ':' && SrtTime(ms)[5] == ':' && SrtTime(ms)[8] == ','
  {
    var c := Clock(ms);
    NatToStringLength(c.0, 2);
    NatToStringLength(c.1, 2);
    NatToStringLength(c.2, 2);
    NatToStringLength(c.3, 3);
  }

  lemma SrtTimeFree(ms: nat)
    ensures '\n' !in SrtTime(ms)
  {
    var c := Clock(ms);
    DigitsFree(PadNat(c.0, 2), '\n'); DigitsFree(PadNat(c.1, 2), '\n');
    DigitsFree(PadNat(c.2, 2), '\n'); DigitsFree(PadNat(c.3, 3), '\n');
  }

  lemma AssTimeFree(ms: nat)
    ensures '\n' !in AssTime(ms)
  {
    var c := Clock(ms);
    DigitsFree(NatToString(c.0), '\n'); DigitsFree(PadNat(c.1, 2), '\n');
    DigitsFree(PadNat(c.2, 2), '\n'); DigitsFree(PadNat(c.3 / 10, 2), '\n');
  }

  // ---------------------------------------------------------------------
  // SRT

  function Texts(group: seq<Word>): (ts: seq<string>)
    ensures |ts| == |group|
  {
    seq(|group|, i requires 0 <= i < |group| => group[i].text)
  }

  /** One SRT cue: its number, the group's span, the group's words joined by spaces. */
  function SrtCue(index: nat, group: seq<Word>): string
    requires |group| > 0
  {
    NatToString(index) + "\n" + SpanLine(group) + "\n" + Join(Texts(group), " ") + "\n"
  }

  /** A cue's timing line: the group's first start to its last end. */
  function SpanLine(group: seq<Word>): string
    requires |group| > 0
  {
    SrtTime(group[0].start) + " --> " + SrtTime(group[|group| - 1].end)
  }

  function SrtCues(words: seq<Word>): seq<string> {
    var gs := Groups(words, 4);
    seq(|gs|, i requires 0 <= i < |gs| => SrtCue(i + 1, gs[i]))
  }

  /** The text `_generate_srt` writes. */
  function SrtText(words: seq<Word>): string {
    Join(SrtCues(words), "\n")
  }

  /** `_generate_srt`: one cue per group, numbered from 1, joined by newlines. */
  method GenerateSrt(words: seq<Word>) returns (srt: string)
    ensures srt == SrtText(words)
  {
    var groups := GroupWords(words, 4);
    var lines: seq<string> := [];
    for i := 0 to |groups|
      invariant lines == SrtCues(words)[..i]
    {
      var group := groups[i];
      var start := group[0].start;
      var end := group[|group| - 1].end;
      var text := Join(Texts(group), " ");
      var cue := NatToString(i + 1) + "\n" + (SrtTime(start) + " --> " + SrtTime(end)) + "\n" + text + "\n";
      CueSpelled(i + 1, group);
      SrtCuesStep(words, i);
      lines := lines + [cue];
    }
    assert SrtCues(words)[..|groups|] == SrtCues(words);
    srt := Join(lines, "\n");
  }

  lemma CueSpelled(index: nat, g: seq<Word>)
    requires |g| > 0
    ensures SrtCue(index, g)
      == NatToString(index) + "\n" + (SrtTime(g[0].start) + " --> " + SrtTime(g[|g| - 1].end)) + "\n" + Join(Texts(g), " ") + "\n"
  {
  }

  /** One more cue. */
  lemma SrtCuesStep(words: seq<Word>, i: nat)
    requires i < |Groups(words, 4)|
    ensures SrtCues(words)[..i + 1] == SrtCues(words)[..i] + [SrtCue(i + 1, Groups(words, 4)[i])]
  {
    TakeNext(SrtCues(words), i);
  }

  predicate NoNewlines(words: seq<Word>) {
    forall i :: 0 <= i < |words| ==> '\n' !in words[i].text
  }

  lemma JoinFree(parts: seq<string>, sep: string, c: char)
    requires c !in sep
    requires forall i :: 0 <= i < |parts| ==> c !in parts[i]
    ensures c !in Join(parts, sep)
  {
    if |parts| > 1 {
      JoinFree(parts[1..], sep, c);
    }
  }

  /** Splitting pieces that each split into four gives four lines per piece. */
  lemma {:induction false} SplitAllFours(parts: seq<string>, c: char)
    requires forall i :: 0 <= i < |parts| ==> |SplitOn(parts[i], c)| == 4
    ensures |SplitAll(parts, c)| == 4 * |parts|
    ensures forall i :: 0 <= i < |parts| ==> SplitAll(parts, c)[4 * i..4 * i + 4] == SplitOn(parts[i], c)
  {
    if |parts| > 0 {
      SplitAllFours(parts[1..], c);
      var all := SplitAll(parts, c);
      var rest := SplitAll(parts[1..], c);
      assert all == SplitOn(parts[0], c) + rest;
      forall i | 0 <= i < |parts| ensures all[4 * i..4 * i + 4] == SplitOn(parts[i], c) {
        if i > 0 {
          assert all[4 * i..4 * i + 4] == rest[4 * (i - 1)..4 * (i - 1) + 4];
        }
      }
    }
  }

  /**
   * Read line by line, the SRT text is four lines per group: the cue number
   * (1, 2, ...), the span from the group's first start to its last end, the
   * group's words joined by spaces, and a blank line.
   */
  lemma SrtReadBack(words: seq<Word>)
    requires NoNewlines(words)
    requires |words| > 0
    ensures var gs := Groups(words, 4);
      var lines := SplitOn(SrtText(words), '\n');
      && |lines| == 4 * |gs|
      && forall i :: 0 <= i < |gs| ==>
           lines[4 * i..4 * i + 4] == [NatToString(i + 1), SpanLine(gs[i]), Join(Texts(gs[i]), " "), ""]
  {
    var cues := SrtCues(words);
    GroupsShape(words, 4);
    CuesSplit(words);
    SplitOnJoin(cues, '\n');
    SplitAllFours(cues, '\n');
  }

  lemma CuesSplit(words: seq<Word>)
    requires NoNewlines(words)
    ensures var gs := Groups(words, 4);
      forall i :: 0 <= i < |gs| ==>
        SplitOn(SrtCues(words)[i], '\n') == [NatToString(i + 1), SpanLine(gs[i]), Join(Texts(gs[i]), " "), ""]
  {
    var gs: seq<seq<Word>> := Groups(words, 4);
    forall i | 0 <= i < |gs|
      ensures SplitOn(SrtCues(words)[i], '\n') == [NatToString(i + 1), SpanLine(gs[i]), Join(Texts(gs[i]), " "), ""]
    {
      GroupTextsFree(words, i);
      CueLines(i + 1, gs[i]);
    }
  }

  /** A cue is four newline-free lines, the last one empty. */
  lemma CueLines(index: nat, g: seq<Word>)
    requires |g| > 0
    requires forall j :: 0 <= j < |g| ==> '\n' !in Texts(g)[j]
    ensures SplitOn(SrtCue(index, g), '\n') == [NatToString(index), SpanLine(g), Join(Texts(g), " "), ""]
  {
    var a, b, c := NatToString(index), SpanLine(g), Join(Texts(g), " ");
    DigitsFree(a, '\n');
    SrtTimeFree(g[0].start);
    SrtTimeFree(g[|g| - 1].end);
    assert '\n' !in b;
    JoinFree(Texts(g), " ", '\n');
    TerminatedLines(a, b, c, '\n');
  }

  lemma GroupTextsFree(words: seq<Word>, i: nat)
    requires NoNewlines(words)
    requires i < |Groups(words, 4)|
    ensures forall j :: 0 <= j < |Groups(words, 4)[i]| ==> '\n' !in Texts(Groups(words, 4)[i])[j]
  {
    GroupsOfFourAt(words, i);
  }

  // ---------------------------------------------------------------------
  // ASS

  /** The lines of the ASS header, before the events. */
  function AssHeaderLines(width: nat, height: nat): seq<string> {
    [ "[Script Info]",
      "Title: Pipeline Captions",
      "ScriptType: v4.00+",
      "PlayResX: " + NatToString(width),
      "PlayResY: " + NatToString(height),
      "WrapStyle: 0",
      "",
      "[V4+ Styles]",
      StyleFormat,
      DefaultStyle + NatToString(MarginV(height)) + ",1",
      "",
      "[Events]",
      EventFormat ]
  }

  /** The field list of the `[V4+ Styles]` section. */
  const StyleFormat: string :=
    "Format: Name, Fontname, Fontsize, PrimaryColour, SecondaryColour, OutlineColour, BackColour, Bold, Italic, Underline, StrikeOut, ScaleX, ScaleY, Spacing, Angle, BorderStyle, Outline, Shadow, Alignment, MarginL, MarginR, MarginV, Encoding"

  /**
   * The one style, up to its bottom margin: Arial 72, white text, black
   * outline, semi-transparent box (border style 3), bottom-centre alignment,
   * side margins 40.
   */
  const DefaultStyle: string :=
    "Style: Default,Arial,72,&H00FFFFFF,&H000000FF,&H00000000,&H80000000,-1,0,0,0,100,100,0,0,3,3,0,2,40,40,"

  /** The field list of the `[Events]` section. */
  const EventFormat: string :=
    "Format: Layer, Start, End, Style, Name, MarginL, MarginR, MarginV, Effect, Text"

  /** `int(video_height * 0.25)`: the bottom margin, a quarter of the height rounded down. */
  function MarginV(height: nat): (m: nat)
    ensures 4 * m <= height < 4 * m + 4
  {
    height / 4
  }

  const HighlightOpen: string := "{\\c&H00FFFF&\\b1\\fs80}"
  const HighlightClose: string := "{\\r}"

  /** Word `j` of a group as shown while word `active` is spoken. */
  function Part(group: seq<Word>, active: nat, j: nat): string
    requires j < |group|
  {
    if j == active then HighlightOpen + group[j].text + HighlightClose else group[j].text
  }

  function Parts(group: seq<Word>, active: nat): (ps: seq<string>)
    ensures |ps| == |group|
  {
    seq(|group|, j requires 0 <= j < |group| => Part(group, active, j))
  }

  /** The Dialogue line for word `active` of `group`. */
  function DialogueLine(group: seq<Word>, active: nat): string
    requires active < |group|
  {
    "Dialogue: 0," + AssTime(group[active].start) + "," + AssTime(group[active].end)
    + ",Default,,0,0,0,," + Join(Parts(group, active), " ")
  }

  /** One Dialogue line per word. */
  function AssEvents(words: seq<Word>): (evs: seq<string>)
    ensures |evs| == |words|
    ensures forall k :: 0 <= k < |words| ==> evs[k] == EventOf(words, k)
  {
    seq(|words|, k requires 0 <= k < |words| => EventOf(words, k))
  }

  /** The Dialogue line of word k: the group k / 4 with its word k % 4 highlighted. */
  function EventOf(words: seq<Word>, k: nat): string
    requires k < |words|
  {
    assert 4 * (k / 4) <= k;
    DialogueLine(GroupOfFour(words, k / 4), k % 4)
  }

  /**
   * The lines of the text `_generate_ass` writes: the header lines, then the
   * events. The header ends in a newline, so with no events the text ends in
   * one empty line.
   */
  function AssLines(words: seq<Word>, width: nat, height: nat): seq<string> {
    AssHeaderLines(width, height) + if |words| == 0 then [""] else AssEvents(words)
  }

  /** The text `_generate_ass` writes. */
  function AssText(words: seq<Word>, width: nat, height: nat): string {
    Join(AssLines(words, width, height), "\n")
  }

  /**
   * The k-th Dialogue line belongs to the k-th word: it shows the word's group
   * of four, highlights the word's place in it, and is timed by that word.
   */
  lemma AssEventOfWord(words: seq<Word>, k: nat)
    requires k < |words|
    ensures var g := GroupOfFour(words, k / 4);
      && k % 4 < |g| && g[k % 4] == words[k]
      && AssEvents(words)[k] == DialogueLine(g, k % 4)
  {
    WordInGroup(words, k);
    EventAt(words, k);
  }

  lemma WordInGroup(words: seq<Word>, k: nat)
    requires k < |words|
    ensures var g := GroupOfFour(words, k / 4); k % 4 < |g| && g[k % 4] == words[k]
  {
  }

  lemma EventAt(words: seq<Word>, k: nat)
    requires k < |words|
    ensures AssEvents(words)[k] == DialogueLine(GroupOfFour(words, k / 4), k % 4)
  {
    EventOfUnfold(words, k);
  }

  lemma EventOfUnfold(words: seq<Word>, k: nat)
    requires k < |words|
    ensures EventOf(words, k) == DialogueLine(GroupOfFour(words, k / 4), k % 4)
  {
  }

  /** `_generate_ass`: the header, then for each group one Dialogue line per word. */
  method GenerateAss(words: seq<Word>, width: nat, height: nat) returns (ass: string)
    ensures ass == AssText(words, width, height)
  {
    var header := Join(AssHeaderLines(width, height), "\n") + "\n";
    var groups := GroupWords(words, 4);
    GroupsOfFourCover(words);
    var events: seq<string> := [];
    for gi := 0 to |groups|
      invariant events == AssEvents(words)[..Min(4 * gi, |words|)]
    {
      var group := groups[gi];
      GroupsOfFourAt(words, gi);
      for a := 0 to |group|
        invariant events == AssEvents(words)[..4 * gi + a]
      {
        var parts := HighlightParts(group, a);
        var text := Join(parts, " ");
        EventsStep(words, gi, a);
        events := events + ["Dialogue: 0," + AssTime(group[a].start) + "," + AssTime(group[a].end) + ",Default,,0,0,0,," + text];
      }
    }
    assert events == AssEvents(words);
    AssTextOf(words, width, height);
    ass := header + Join(events, "\n");
  }

  /** The words of one group, the active one wrapped in the highlight tags. */
  method HighlightParts(group: seq<Word>, a: nat) returns (parts: seq<string>)
    ensures parts == Parts(group, a)
  {
    parts := [];
    for j := 0 to |group|
      invariant parts == Parts(group, a)[..j]
    {
      PartsStep(group, a, j);
      if j == a {
        parts := parts + [HighlightOpen + group[j].text + HighlightClose];
      } else {
        parts := parts + [group[j].text];
      }
    }
  }

  lemma PartsStep(group: seq<Word>, a: nat, j: nat)
    requires j < |group|
    ensures Parts(group, a)[..j + 1]
         == Parts(group, a)[..j] + [if j == a then HighlightOpen + group[j].text + HighlightClose else group[j].text]
  {
    TakeNext(Parts(group, a), j);
  }

  /** The next event, spelt out as `_generate_ass` writes it. */
  lemma EventsStep(words: seq<Word>, gi: nat, a: nat)
    requires 4 * gi < |words| && a < |GroupOfFour(words, gi)|
    ensures var g := GroupOfFour(words, gi);
      AssEvents(words)[..4 * gi + a + 1] == AssEvents(words)[..4 * gi + a]
        + ["Dialogue: 0," + AssTime(g[a].start) + "," + AssTime(g[a].end) + ",Default,,0,0,0,," + Join(Parts(g, a), " ")]
  {
    var k := 4 * gi + a;
    var g := GroupOfFour(words, gi);
    QuarterOf(gi, a);
    EventAt(words, k);
    var e := AssEvents(words);
    assert e[k] == DialogueLine(g, a);
    TakeNext(e, k);
  }

  lemma QuarterOf(q: nat, a: nat)
    requires a < 4
    ensures (4 * q + a) / 4 == q && (4 * q + a) % 4 == a
  {
  }

  /** The header then the events joined by newlines is the text described by `AssLines`. */
  lemma AssTextOf(words: seq<Word>, width: nat, height: nat)
    ensures Join(AssHeaderLines(width, height), "\n") + "\n" + Join(AssEvents(words), "\n")
         == AssText(words, width, height)
  {
    var hs := AssHeaderLines(width, height);
    if |words| == 0 {
      JoinConcat(hs, [""], "\n");
      assert Join(AssEvents(words), "\n") == "";
    } else {
      JoinConcat(hs, AssEvents(words), "\n");
    }
  }

  /**
   * Read line by line, the ASS text is the header's lines followed by exactly
   * one Dialogue line per word, in word order.
   */
  lemma AssReadBack(words: seq<Word>, width: nat, height: nat)
    requires |words| > 0
    requires NoNewlines(words)
    ensures SplitOn(AssText(words, width, height), '\n')
         == SplitOn(Join(AssHeaderLines(width, height), "\n"), '\n') + AssEvents(words)
  {
    var header := Join(AssHeaderLines(width, height), "\n");
    var body := Join(AssEvents(words), "\n");
    AssTextOf(words, width, height);
    SplitOnConcat(header, body, '\n');
    EventsFree(words);
    SplitOnJoinFree(AssEvents(words), '\n');
  }

  lemma EventsFree(words: seq<Word>)
    requires NoNewlines(words)
    ensures forall k :: 0 <= k < |words| ==> '\n' !in AssEvents(words)[k]
  {
    forall k | 0 <= k < |words| ensures '\n' !in AssEvents(words)[k] {
      GroupFree(words, k / 4);
      DialogueLineFree(GroupOfFour(words, k / 4), k % 4);
      AssEventOfWord(words, k);
    }
  }

  lemma GroupFree(words: seq<Word>, q: nat)
    requires NoNewlines(words) && 4 * q < |words|
    ensures NoNewlines(GroupOfFour(words, q))
  {
    var g := GroupOfFour(words, q);
    forall j | 0 <= j < |g| ensures '\n' !in g[j].text {
      assert g[j] == words[4 * q + j];
    }
  }

  lemma DialogueLineFree(g: seq<Word>, a: nat)
    requires a < |g| && NoNewlines(g)
    ensures '\n' !in DialogueLine(g, a)
  {
    PartsFree(g, a);
    AssTimeFree(g[a].start);
    AssTimeFree(g[a].end);
    DialogueFree(AssTime(g[a].start), AssTime(g[a].end), Join(Parts(g, a), " "));
  }

  lemma PartsFree(g: seq<Word>, a: nat)
    requires NoNewlines(g)
    ensures '\n' !in Join(Parts(g, a), " ")
  {
    var ps := Parts(g, a);
    assert forall j :: 0 <= j < |ps| ==> '\n' !in ps[j];
    JoinFree(ps, " ", '\n');
  }

  lemma DialogueFree(t0: string, t1: string, text: string)
    requires '\n' !in t0 && '\n' !in t1 && '\n' !in text
    ensures '\n' !in "Dialogue: 0," + t0 + "," + t1 + ",Default,,0,0,0,," + text
  {
    var p1 := "Dialogue: 0," + t0;
    assert '\n' !in p1;
    var p2 := p1 + "," + t1;
    assert '\n' !in p2;
    var p3 := p2 + ",Default,,0,0,0,,";
    assert '\n' !in p3;
  }

  // ---------------------------------------------------------------------
  // generate_captions

  /** What `generate_captions` returns, with the files it writes as (path, text) pairs. */
  datatype CaptionsResult = CaptionsResult(
    words: seq<Word>,
    srtPath: Option<string>,
    assPath: Option<string>,
    written: seq<(string, string)>)

  /**
   * `generate_captions`. The speech-to-text words are an input; `fallbackSrt`
   * is what the whisper command-line fallback yields when there are no words
   * (the path of the subtitle file it produced, or None when it failed or
   * produced none).
   */
  method GenerateCaptions(words: seq<Word>, workDir: string, lang: string, fallbackSrt: Option<string>)
    returns (r: CaptionsResult)
    ensures r.words == words
    ensures |words| == 0 ==> r.assPath.None? && r.srtPath == fallbackSrt && r.written == []
    ensures |words| > 0 ==>
      && r.srtPath == Some(PathJoin(workDir, "captions_" + lang + ".srt"))
      && r.assPath == Some(PathJoin(workDir, "captions_" + lang + ".ass"))
      && r.written == [(r.srtPath.value, SrtText(words)), (r.assPath.value, AssText(words, 1080, 1920))]
  {
    if |words| == 0 {
      r := CaptionsResult(words, fallbackSrt, None, []);
      return;
    }
    var srtPath := PathJoin(workDir, "captions_" + lang + ".srt");
    var srt := GenerateSrt(words);
    var assPath := PathJoin(workDir, "captions_" + lang + ".ass");
    var ass := GenerateAss(words, 1080, 1920);
    r := CaptionsResult(words, Some(srtPath), Some(assPath), [(srtPath, srt), (assPath, ass)]);
  }
}
