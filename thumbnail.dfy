/**
 * The thumbnail step (pipeline/thumbnail.py): greedy word wrap of the
 * title, the placement of the text block, the font choice and the
 * defaults and file names of `generate_thumbnail`. Pillow is reduced to
 * its measurements: `measure` is the width of one line's bounding box,
 * and the text block's width and height are inputs. The image call,
 * `_generate_thumb_image`, wrapped in `with_retry(max_retries=3,
 * base_delay=2.0)`, is not part of this model; the Retry module models
 * the wrapper.
 */
module Thumbnail {
  import opened Wrappers
  import opened Json
  import opened PyText

  const ThumbWidth: int := 1280
  const ThumbHeight: int := 720
  /** 40 pixels of padding on each side. */
  const MaxWidth: int := ThumbWidth - 80
  const BottomMargin: int := 60
  const ShadowOffset: int := 3
  const FontSize: nat := 64

  // ---------------------------------------------------------------------
  // _wrap_text

  /** The loop's variables: the finished lines and the line being built. */
  datatype WrapState = WrapState(lines: seq<string>, current: string)

  /** One word: keep it on the line when the line still fits, else start a new line with it. */
  function WrapStep(st: WrapState, word: string, measure: string -> int, maxWidth: int): WrapState {
    var test := Strip(st.current + " " + word);
    if measure(test) <= maxWidth then WrapState(st.lines, test)
    else WrapState(if st.current != "" then st.lines + [st.current] else st.lines, word)
  }

  /** The loop over the first words. */
  function WrapFold(words: seq<string>, measure: string -> int, maxWidth: int): WrapState
    decreases |words|
  {
    if |words| == 0 then WrapState([], "")
    else WrapStep(WrapFold(words[..|words| - 1], measure, maxWidth), words[|words| - 1], measure, maxWidth)
  }

  /** `_wrap_text(draw, text, font, max_width)` */
  function Wrap(text: string, measure: string -> int, maxWidth: int): seq<string> {
    var st := WrapFold(Split(text), measure, maxWidth);
    if st.current != "" then st.lines + [st.current] else st.lines
  }

  method WrapText(text: string, measure: string -> int, maxWidth: int) returns (lines: seq<string>)
    ensures lines == Wrap(text, measure, maxWidth)
  {
    var words := Split(text);
    lines := [];
    var current := "";
    for i := 0 to |words|
      invariant WrapState(lines, current) == WrapFold(words[..i], measure, maxWidth)
    {
      WrapFoldStep(words, measure, maxWidth, i);
      var test := Strip(current + " " + words[i]);
      if measure(test) <= maxWidth {
        current := test;
      } else {
        if current != "" {
          lines := lines + [current];
        }
        current := words[i];
      }
    }
    assert words[..|words|] == words;
    if current != "" {
      lines := lines + [current];
    }
  }

  lemma WrapFoldStep(words: seq<string>, measure: string -> int, maxWidth: int, i: nat)
    requires i < |words|
    ensures WrapFold(words[..i + 1], measure, maxWidth) == WrapStep(WrapFold(words[..i], measure, maxWidth), words[i], measure, maxWidth)
  {
    assert words[..i + 1][..i] == words[..i];
  }

  // The same wrap on word lists: every line is a group of words.

  datatype GroupState = GroupState(done: seq<seq<string>>, current: seq<string>)

  function GroupStep(st: GroupState, word: string, measure: string -> int, maxWidth: int): GroupState {
    var test := st.current + [word];
    if measure(Join(test, " ")) <= maxWidth then GroupState(st.done, test)
    else GroupState(if st.current != [] then st.done + [st.current] else st.done, [word])
  }

  function GroupFold(words: seq<string>, measure: string -> int, maxWidth: int): GroupState
    decreases |words|
  {
    if |words| == 0 then GroupState([], [])
    else GroupStep(GroupFold(words[..|words| - 1], measure, maxWidth), words[|words| - 1], measure, maxWidth)
  }

  function Close(st: GroupState): seq<seq<string>> {
    if st.current != [] then st.done + [st.current] else st.done
  }

  predicate AllTokens(g: seq<string>) {
    forall j :: 0 <= j < |g| ==> IsToken(g[j])
  }

  /** Every line is a non-empty group of words. */
  predicate Nonempty(gs: seq<seq<string>>) {
    forall i :: 0 <= i < |gs| ==> gs[i] != [] && AllTokens(gs[i])
  }

  /** A line of two or more words fits the width. */
  predicate GroupsFit(gs: seq<seq<string>>, measure: string -> int, maxWidth: int) {
    forall i :: 0 <= i < |gs| && |gs[i]| >= 2 ==> measure(Join(gs[i], " ")) <= maxWidth
  }

  /** No line could have taken the first word of the next one. */
  predicate GroupsGreedy(gs: seq<seq<string>>, measure: string -> int, maxWidth: int) {
    forall i :: 0 <= i < |gs| - 1 ==> Overflows(gs[i], gs[i + 1], measure, maxWidth)
  }

  predicate Overflows(g: seq<string>, next: seq<string>, measure: string -> int, maxWidth: int) {
    next != [] && measure(Join(g + [next[0]], " ")) > maxWidth
  }

  /** What a greedy wrap promises of its lines. */
  predicate WellWrapped(gs: seq<seq<string>>, measure: string -> int, maxWidth: int) {
    Nonempty(gs) && GroupsFit(gs, measure, maxWidth) && GroupsGreedy(gs, measure, maxWidth)
  }

  predicate GroupInv(st: GroupState, words: seq<string>, measure: string -> int, maxWidth: int) {
    && Flatten(Close(st)) == words
    && (st.current == [] ==> st.done == [])
    && WellWrapped(Close(st), measure, maxWidth)
  }

  lemma GroupStepInv(st: GroupState, words: seq<string>, w: string, measure: string -> int, maxWidth: int)
    requires GroupInv(st, words, measure, maxWidth) && IsToken(w)
    ensures GroupInv(GroupStep(st, w, measure, maxWidth), words + [w], measure, maxWidth)
  {
    if st.current == [] {
      FirstWordInv(st, words, w, measure, maxWidth);
    } else if measure(Join(st.current + [w], " ")) <= maxWidth {
      WordFitsInv(st, words, w, measure, maxWidth);
    } else {
      NewLineInv(st, words, w, measure, maxWidth);
    }
  }

  lemma FirstWordInv(st: GroupState, words: seq<string>, w: string, measure: string -> int, maxWidth: int)
    requires GroupInv(st, words, measure, maxWidth) && IsToken(w) && st.current == []
    ensures GroupInv(GroupStep(st, w, measure, maxWidth), words + [w], measure, maxWidth)
  {
    var next := GroupStep(st, w, measure, maxWidth);
    assert st.done == [] && Close(st) == [];
    assert next.done == [] && next.current == [w];
    assert Close(next) == [[w]];
    assert Flatten([[w]]) == [w] + Flatten([]);
  }

  lemma WordFitsInv(st: GroupState, words: seq<string>, w: string, measure: string -> int, maxWidth: int)
    requires GroupInv(st, words, measure, maxWidth) && IsToken(w) && st.current != []
    requires measure(Join(st.current + [w], " ")) <= maxWidth
    ensures GroupInv(GroupStep(st, w, measure, maxWidth), words + [w], measure, maxWidth)
  {
    var next := GroupStep(st, w, measure, maxWidth);
    var test := st.current + [w];
    assert Close(st) == st.done + [st.current] && Close(next) == st.done + [test];
    assert Close(st)[|Close(st)| - 1] == st.current;
    assert AllTokens(test);
    ReplaceLast(st.done, st.current, test, measure, maxWidth);
    FlattenAppend(st.done, [st.current]);
    FlattenAppend(st.done, [test]);
    assert Flatten([st.current]) == st.current + Flatten([]);
    assert Flatten([test]) == test + Flatten([]);
  }

  lemma NewLineInv(st: GroupState, words: seq<string>, w: string, measure: string -> int, maxWidth: int)
    requires GroupInv(st, words, measure, maxWidth) && IsToken(w) && st.current != []
    requires measure(Join(st.current + [w], " ")) > maxWidth
    ensures GroupInv(GroupStep(st, w, measure, maxWidth), words + [w], measure, maxWidth)
  {
    var next := GroupStep(st, w, measure, maxWidth);
    assert Close(next) == Close(st) + [[w]];
    AppendLine(Close(st), st.current, w, measure, maxWidth);
    FlattenAppend(Close(st), [[w]]);
    assert Flatten([[w]]) == [w] + Flatten([]);
  }

  /** A word that does not fit starts a line of its own. */
  lemma AppendLine(gs: seq<seq<string>>, last: seq<string>, w: string, measure: string -> int, maxWidth: int)
    requires WellWrapped(gs, measure, maxWidth) && IsToken(w)
    requires |gs| > 0 && gs[|gs| - 1] == last && measure(Join(last + [w], " ")) > maxWidth
    ensures WellWrapped(gs + [[w]], measure, maxWidth)
  {
    var ys := gs + [[w]];
    forall i | 0 <= i < |ys| ensures ys[i] != [] && AllTokens(ys[i]) {
      if i < |gs| {
        assert ys[i] == gs[i];
      }
    }
    forall i | 0 <= i < |ys| && |ys[i]| >= 2 ensures measure(Join(ys[i], " ")) <= maxWidth {
      assert ys[i] == gs[i];
    }
    forall i | 0 <= i < |ys| - 1 ensures Overflows(ys[i], ys[i + 1], measure, maxWidth) {
      if i < |gs| - 1 {
        assert ys[i] == gs[i] && ys[i + 1] == gs[i + 1];
      }
    }
  }

  /** The line being built may grow by a word that fits without breaking the wrap's promises. */
  lemma ReplaceLast(gs: seq<seq<string>>, a: seq<string>, b: seq<string>, measure: string -> int, maxWidth: int)
    requires WellWrapped(gs + [a], measure, maxWidth)
    requires b != [] && AllTokens(b) && a != [] && b[0] == a[0]
    requires |b| >= 2 ==> measure(Join(b, " ")) <= maxWidth
    ensures WellWrapped(gs + [b], measure, maxWidth)
  {
    var xs, ys := gs + [a], gs + [b];
    forall i | 0 <= i < |ys| ensures ys[i] != [] && AllTokens(ys[i]) {
      if i < |gs| {
        assert ys[i] == xs[i];
      }
    }
    forall i | 0 <= i < |ys| && |ys[i]| >= 2 ensures measure(Join(ys[i], " ")) <= maxWidth {
      if i < |gs| {
        assert ys[i] == xs[i];
      }
    }
    forall i | 0 <= i < |ys| - 1 ensures Overflows(ys[i], ys[i + 1], measure, maxWidth) {
      assert ys[i] == xs[i];
      assert Overflows(xs[i], xs[i + 1], measure, maxWidth);
      assert ys[i + 1][0] == xs[i + 1][0];
    }
  }

  lemma {:induction false} GroupFoldInv(words: seq<string>, measure: string -> int, maxWidth: int)
    requires AllTokens(words)
    ensures GroupInv(GroupFold(words, measure, maxWidth), words, measure, maxWidth)
    decreases |words|
  {
    if |words| > 0 {
      var n := |words| - 1;
      var prev := GroupFold(words[..n], measure, maxWidth);
      assert GroupFold(words, measure, maxWidth) == GroupStep(prev, words[n], measure, maxWidth);
      assert words[..n] + [words[n]] == words;
      GroupFoldInv(words[..n], measure, maxWidth);
      GroupStepInv(prev, words[..n], words[n], measure, maxWidth);
    }
  }

  function JoinEach(gs: seq<seq<string>>): (ls: seq<string>)
    ensures |ls| == |gs|
  {
    seq(|gs|, i requires 0 <= i < |gs| => Join(gs[i], " "))
  }

  /** Joining words that all have a first character keeps that character first. */
  lemma JoinFirst(g: seq<string>)
    requires g != [] && AllTokens(g)
    ensures |Join(g, " ")| > 0 && Join(g, " ")[0] == g[0][0]
  {
  }

  /** `f"{current} {word}".strip()` on a line of words is the line with the word added. */
  lemma StripSnoc(g: seq<string>, w: string)
    requires AllTokens(g) && IsToken(w)
    ensures Strip(Join(g, " ") + " " + w) == Join(g + [w], " ")
  {
    if g == [] {
      assert Join(g, " ") + " " + w == " " + w;
      assert g + [w] == [w];
      StripSnocFirst(w);
    } else {
      StripSnocMore(g, w);
    }
  }

  lemma StripSnocFirst(w: string)
    requires IsToken(w)
    ensures Strip(" " + w) == Join([w], " ")
  {
    assert (" " + w)[1..] == w;
    assert TrimStart(" " + w, IsSpace) == w;
    assert TrimEnd(w, IsSpace) == w;
  }

  lemma StripSnocMore(g: seq<string>, w: string)
    requires g != [] && AllTokens(g) && IsToken(w)
    ensures Strip(Join(g, " ") + " " + w) == Join(g + [w], " ")
  {
    var s := Join(g + [w], " ");
    JoinConcat(g, [w], " ");
    assert Join([w], " ") == w;
    assert s == Join(g, " ") + " " + w;
    JoinFirst(g);
    assert s[0] == g[0][0];
    assert s[|s| - 1] == w[|w| - 1];
    StripOfSpaceFree(s);
  }

  lemma {:induction false} JoinNonEmpty(g: seq<string>)
    requires AllTokens(g)
    ensures Join(g, " ") == "" <==> g == []
  {
    if g != [] {
      JoinFirst(g);
    }
  }

  /** The string state mirrors the group state. */
  predicate Mirrors(st: WrapState, g: GroupState) {
    st == WrapState(JoinEach(g.done), Join(g.current, " "))
  }

  lemma WrapStepGroups(st: WrapState, g: GroupState, w: string, measure: string -> int, maxWidth: int)
    requires Mirrors(st, g) && AllTokens(g.current) && IsToken(w)
    ensures Mirrors(WrapStep(st, w, measure, maxWidth), GroupStep(g, w, measure, maxWidth))
  {
    StripSnoc(g.current, w);
    JoinNonEmpty(g.current);
    assert Join([w], " ") == w;
    assert JoinEach(g.done + [g.current]) == JoinEach(g.done) + [Join(g.current, " ")];
  }

  lemma CurrentTokens(g: GroupState, words: seq<string>, measure: string -> int, maxWidth: int)
    requires GroupInv(g, words, measure, maxWidth)
    ensures AllTokens(g.current)
  {
    if g.current != [] {
      assert Close(g)[|Close(g)| - 1] == g.current;
    }
  }

  /** The string loop builds exactly the joined groups. */
  lemma {:induction false} WrapFoldGroups(words: seq<string>, measure: string -> int, maxWidth: int)
    requires AllTokens(words)
    ensures Mirrors(WrapFold(words, measure, maxWidth), GroupFold(words, measure, maxWidth))
    decreases |words|
  {
    if |words| > 0 {
      var n := |words| - 1;
      WrapFoldGroups(words[..n], measure, maxWidth);
      GroupFoldInv(words[..n], measure, maxWidth);
      CurrentTokens(GroupFold(words[..n], measure, maxWidth), words[..n], measure, maxWidth);
      WrapStepGroups(WrapFold(words[..n], measure, maxWidth), GroupFold(words[..n], measure, maxWidth), words[n], measure, maxWidth);
    }
  }

  /** `_wrap_text` as groups of words: the reference the properties below are proved on. */
  function Groups(text: string, measure: string -> int, maxWidth: int): seq<seq<string>> {
    Close(GroupFold(Split(text), measure, maxWidth))
  }

  lemma WrapIsGroups(text: string, measure: string -> int, maxWidth: int)
    ensures Wrap(text, measure, maxWidth) == JoinEach(Groups(text, measure, maxWidth))
    ensures GroupInv(GroupFold(Split(text), measure, maxWidth), Split(text), measure, maxWidth)
  {
    var words := Split(text);
    var g := GroupFold(words, measure, maxWidth);
    var st := WrapFold(words, measure, maxWidth);
    WrapFoldGroups(words, measure, maxWidth);
    assert st.lines == JoinEach(g.done) && st.current == Join(g.current, " ");
    GroupFoldInv(words, measure, maxWidth);
    CurrentTokens(g, words, measure, maxWidth);
    CloseJoined(g);
  }

  /** Closing the last line commutes with joining the lines. */
  lemma CloseJoined(g: GroupState)
    requires AllTokens(g.current)
    ensures JoinEach(Close(g))
      == if Join(g.current, " ") != "" then JoinEach(g.done) + [Join(g.current, " ")] else JoinEach(g.done)
  {
    JoinNonEmpty(g.current);
    if g.current != [] {
      assert JoinEach(g.done + [g.current]) == JoinEach(g.done) + [Join(g.current, " ")];
    }
  }

  /** The words of every line, read back with `str.split()`. */
  function LineWords(lines: seq<string>): (ws: seq<seq<string>>)
    ensures |ws| == |lines|
  {
    seq(|lines|, i requires 0 <= i < |lines| => Split(lines[i]))
  }

  /** Read back on spaces, the lines give the words of the text, in order. */
  predicate KeepsWords(lines: seq<string>, text: string) {
    Flatten(LineWords(lines)) == Split(text)
  }

  predicate NoEmptyLine(lines: seq<string>) {
    forall i :: 0 <= i < |lines| ==> lines[i] != ""
  }

  predicate LinesFit(lines: seq<string>, measure: string -> int, maxWidth: int) {
    forall i :: 0 <= i < |lines| && |Split(lines[i])| >= 2 ==> measure(lines[i]) <= maxWidth
  }

  /** A line followed by a space and the next line's first word does not fit. */
  predicate LinesGreedy(lines: seq<string>, measure: string -> int, maxWidth: int) {
    forall i :: 0 <= i < |lines| - 1 ==> TooWideWith(lines[i], lines[i + 1], measure, maxWidth)
  }

  predicate TooWideWith(line: string, next: string, measure: string -> int, maxWidth: int) {
    |Split(next)| > 0 && measure(line + " " + Split(next)[0]) > maxWidth
  }

  /**
   * `_wrap_text` keeps every word, in order, and makes no empty line; a
   * line of two or more words fits the width; and the wrap is greedy.
   */
  lemma WrapSpec(text: string, measure: string -> int, maxWidth: int)
    ensures KeepsWords(Wrap(text, measure, maxWidth), text)
    ensures NoEmptyLine(Wrap(text, measure, maxWidth))
    ensures LinesFit(Wrap(text, measure, maxWidth), measure, maxWidth)
    ensures LinesGreedy(Wrap(text, measure, maxWidth), measure, maxWidth)
  {
    var lines := Wrap(text, measure, maxWidth);
    var gs := Groups(text, measure, maxWidth);
    WrapIsGroups(text, measure, maxWidth);
    WrapLineWords(lines, gs);
    forall i | 0 <= i < |lines| ensures lines[i] != "" {
      JoinNonEmpty(gs[i]);
    }
    forall i | 0 <= i < |lines| - 1 ensures TooWideWith(lines[i], lines[i + 1], measure, maxWidth) {
      GreedyLine(gs[i], gs[i + 1], measure, maxWidth);
    }
  }

  lemma WrapLineWords(lines: seq<string>, gs: seq<seq<string>>)
    requires lines == JoinEach(gs) && Nonempty(gs)
    ensures LineWords(lines) == gs
  {
    forall i | 0 <= i < |gs| ensures Split(lines[i]) == gs[i] {
      SplitJoinTokens(gs[i]);
    }
  }

  lemma GreedyLine(g: seq<string>, next: seq<string>, measure: string -> int, maxWidth: int)
    requires AllTokens(g) && AllTokens(next) && g != [] && Overflows(g, next, measure, maxWidth)
    ensures TooWideWith(Join(g, " "), Join(next, " "), measure, maxWidth)
  {
    SplitJoinTokens(next);
    JoinConcat(g, [next[0]], " ");
    assert Join([next[0]], " ") == next[0];
  }

  /** Empty or whitespace-only text gives no lines, and any words give some. */
  lemma WrapEmpty(text: string, measure: string -> int, maxWidth: int)
    ensures Wrap(text, measure, maxWidth) == [] <==> Split(text) == []
  {
    var gs := Groups(text, measure, maxWidth);
    WrapIsGroups(text, measure, maxWidth);
    if gs == [] {
      assert Flatten(gs) == [];
    }
  }

  /** A line that is too wide on its own still has a line to itself: a single word. */
  lemma WideLinesAreWords(text: string, measure: string -> int, maxWidth: int, i: nat)
    requires i < |Wrap(text, measure, maxWidth)| && measure(Wrap(text, measure, maxWidth)[i]) > maxWidth
    ensures Split(Wrap(text, measure, maxWidth)[i]) == [Wrap(text, measure, maxWidth)[i]]
  {
    var gs := Groups(text, measure, maxWidth);
    WrapIsGroups(text, measure, maxWidth);
    SplitJoinTokens(gs[i]);
    assert |gs[i]| == 1;
    assert Join(gs[i], " ") == gs[i][0];
  }

  // ---------------------------------------------------------------------
  // _overlay_title

  /** Where the text block and its shadow are drawn. */
  datatype Placement = Placement(x: int, y: int, shadowX: int, shadowY: int)

  /**
   * `x = (THUMB_WIDTH - text_w) // 2` and `y = THUMB_HEIGHT - text_h - 60`
   * (Dafny's division by a positive number floors, as `//` does): the block
   * is centred to within a pixel, its bottom 60 pixels above the edge, and
   * the shadow three pixels right and down.
   */
  function Place(textW: int, textH: int): (p: Placement)
    ensures 0 <= ThumbWidth - (p.x + textW) - p.x <= 1
    ensures p.y + textH + BottomMargin == ThumbHeight
    ensures p.shadowX == p.x + ShadowOffset && p.shadowY == p.y + ShadowOffset
  {
    var x := (ThumbWidth - textW) / 2;
    var y := ThumbHeight - textH - BottomMargin;
    Placement(x, y, x + ShadowOffset, y + ShadowOffset)
  }

  const FontPaths: seq<string> := [
    "/System/Library/Fonts/Helvetica.ttc",
    "/System/Library/Fonts/SFNSDisplay.ttf",
    "/usr/share/fonts/truetype/dejavu/DejaVuSans-Bold.ttf"
  ]

  /** The first font that loads; `None` when none does and Pillow's default is used. */
  function FirstLoadable(paths: seq<string>, loads: string -> bool): (r: Option<nat>)
    ensures r.Some? ==> r.value < |paths| && loads(paths[r.value]) && forall k :: 0 <= k < r.value ==> !loads(paths[k])
    ensures r.None? ==> forall k :: 0 <= k < |paths| ==> !loads(paths[k])
    decreases |paths|
  {
    if |paths| == 0 then None
    else if loads(paths[0]) then Some(0)
    else
      var r := FirstLoadable(paths[1..], loads);
      if r.Some? then Some(r.value + 1) else None
  }

  /** The font loop: try each path in turn and stop at the first that loads. */
  method PickFont(loads: string -> bool) returns (font: Option<string>)
    ensures var k := FirstLoadable(FontPaths, loads);
      font == if k.Some? then Some(FontPaths[k.value]) else None
  {
    font := None;
    var i := 0;
    while i < |FontPaths|
      invariant i <= |FontPaths|
      invariant forall k :: 0 <= k < i ==> !loads(FontPaths[k])
    {
      if loads(FontPaths[i]) {
        font := Some(FontPaths[i]);
        FirstLoadableAt(FontPaths, loads, i);
        return;
      }
      i := i + 1;
    }
    FirstLoadableNone(FontPaths, loads);
  }

  lemma {:induction false} FirstLoadableAt(paths: seq<string>, loads: string -> bool, i: nat)
    requires i < |paths| && loads(paths[i]) && forall k :: 0 <= k < i ==> !loads(paths[k])
    ensures FirstLoadable(paths, loads) == Some(i)
    decreases i
  {
    if i > 0 {
      assert !loads(paths[0]);
      FirstLoadableAt(paths[1..], loads, i - 1);
    }
  }

  lemma {:induction false} FirstLoadableNone(paths: seq<string>, loads: string -> bool)
    requires forall k :: 0 <= k < |paths| ==> !loads(paths[k])
    ensures FirstLoadable(paths, loads) == None
    decreases |paths|
  {
    if |paths| > 0 {
      FirstLoadableNone(paths[1..], loads);
    }
  }

  /** What `_overlay_title` draws: the wrapped lines joined by newlines, and where. */
  datatype Overlay = Overlay(lines: seq<string>, block: string, place: Placement)

  /** `blockSize` is the width and height of the block's bounding box. */
  function OverlayTitle(title: string, measure: string -> int, blockSize: string -> (int, int)): (o: Overlay)
    ensures o.lines == Wrap(title, measure, MaxWidth) && o.block == Join(o.lines, "\n")
    ensures o.place == Place(blockSize(o.block).0, blockSize(o.block).1)
  {
    var lines := Wrap(title, measure, MaxWidth);
    var block := Join(lines, "\n");
    var size := blockSize(block);
    Overlay(lines, block, Place(size.0, size.1))
  }

  /** A line of words contains no newline, so the text block splits back into the wrapped lines. */
  lemma BlockLines(title: string, measure: string -> int, blockSize: string -> (int, int))
    requires Split(title) != []
    ensures var o := OverlayTitle(title, measure, blockSize);
      SplitOn(o.block, '\n') == o.lines
  {
    var lines := Wrap(title, measure, MaxWidth);
    var gs := Groups(title, measure, MaxWidth);
    WrapIsGroups(title, measure, MaxWidth);
    WrapEmpty(title, measure, MaxWidth);
    forall i | 0 <= i < |lines| ensures '\n' !in lines[i] {
      JoinNoNewline(gs[i]);
    }
    SplitOnJoinFree(lines, '\n');
  }

  lemma {:induction false} JoinNoNewline(g: seq<string>)
    requires AllTokens(g)
    ensures '\n' !in Join(g, " ")
    decreases |g|
  {
    if |g| > 0 {
      assert '\n' !in g[0] by {
        forall k | 0 <= k < |g[0]| ensures g[0][k] != '\n' {
          assert !IsSpace(g[0][k]);
        }
      }
      if |g| > 1 {
        JoinNoNewline(g[1..]);
      }
    }
  }

  // ---------------------------------------------------------------------
  // generate_thumbnail

  const DefaultPrompt := "Cinematic YouTube thumbnail"
  const UnknownJob := "unknown"

  /** The inputs `generate_thumbnail` takes from the draft, and the files it writes under `outDir`. */
  datatype ThumbnailJob = ThumbnailJob(prompt: Json, title: Json, jobId: Json, rawPath: string, finalPath: string)

  function ThumbnailJobOf(draft: map<string, Json>, outDir: string, repr: Json -> string): (j: ThumbnailJob)
    ensures j.prompt == (if "thumbnail_prompt" in draft then draft["thumbnail_prompt"] else JStr(DefaultPrompt))
    ensures j.title == (if "youtube_title" in draft then draft["youtube_title"]
                        else if "news" in draft then draft["news"] else JStr(""))
    ensures j.jobId == (if "job_id" in draft then draft["job_id"] else JStr(UnknownJob))
    ensures var id := Str(j.jobId, repr);
      j.rawPath == PathJoin(outDir, "thumb_raw_" + id + ".png") && j.finalPath == PathJoin(outDir, "thumb_" + id + ".png")
  {
    var prompt := Get(draft, "thumbnail_prompt", JStr(DefaultPrompt));
    var title := Get(draft, "youtube_title", Get(draft, "news", JStr("")));
    var jobId := Get(draft, "job_id", JStr(UnknownJob));
    var id := Str(jobId, repr);
    ThumbnailJob(prompt, title, jobId, PathJoin(outDir, "thumb_raw_" + id + ".png"), PathJoin(outDir, "thumb_" + id + ".png"))
  }

  /** The two files differ whatever the job id: one name has `raw_` where the other has the id. */
  lemma PathsDiffer(draft: map<string, Json>, outDir: string, repr: Json -> string)
    ensures ThumbnailJobOf(draft, outDir, repr).rawPath != ThumbnailJobOf(draft, outDir, repr).finalPath
  {
    var j := ThumbnailJobOf(draft, outDir, repr);
    assert |j.rawPath| == |j.finalPath| + 4;
  }
}
