/**
 * The Python string built-ins the pipeline leans on, as total functions on
 * `seq<char>`: `str.split()`, `sep.join(...)`, `str.split(c)`, `str.strip()`,
 * `str.lower()`, slicing `s[:k]`, `in`, `startswith`/`endswith` and the
 * decimal formatting of `f"{n}"` and `f"{n:02d}"`.
 *
 * Case folding and whitespace are those of ASCII (plus the C0 separators
 * Python counts as whitespace); Unicode case mapping is not modelled.
 */
module PyText {

  function Min(a: int, b: int): int { if a <= b then a else b }
  function Max(a: int, b: int): int { if a >= b then a else b }

  // ---------------------------------------------------------------------
  // Characters

  /** The characters `str.isspace()` accepts in the ASCII range. */
  predicate IsSpace(c: char) {
    c == ' ' || c == '\t' || c == '\n' || c == '\r' || c == '\U{000B}' || c == '\U{000C}'
    || c == '\U{001C}' || c == '\U{001D}' || c == '\U{001E}' || c == '\U{001F}'
  }

  predicate IsUpper(c: char) { 'A' <= c <= 'Z' }

  predicate IsDigit(c: char) { '0' <= c <= '9' }

  function LowerChar(c: char): char {
    if IsUpper(c) then (c as int + 32) as char else c
  }

  /** `s.lower()` */
  function Lower(s: string): (r: string)
    ensures |r| == |s|
    ensures forall i :: 0 <= i < |r| ==> !IsUpper(r[i])
  {
    seq(|s|, i requires 0 <= i < |s| => LowerChar(s[i]))
  }

  /** A string with no upper-case letter, i.e. one that `lower()` leaves unchanged. */
  predicate IsLowerCase(s: string) {
    forall i :: 0 <= i < |s| ==> !IsUpper(s[i])
  }

  // ---------------------------------------------------------------------
  // Prefixes, suffixes, substrings

  predicate StartsWith(s: string, p: string) { |p| <= |s| && s[..|p|] == p }

  predicate EndsWith(s: string, p: string) { |p| <= |s| && s[|s| - |p|..] == p }

  predicate OccursAt(s: string, sub: string, i: nat) {
    i + |sub| <= |s| && s[i..i + |sub|] == sub
  }

  /** `sub in s` */
  predicate Contains(s: string, sub: string) {
    exists i :: 0 <= i <= |s| && OccursAt(s, sub, i)
  }

  /** Python's `s[:k]`: a negative `k` counts from the end. */
  function SlicePrefix<T>(s: seq<T>, k: int): (r: seq<T>)
    ensures |r| == if k >= 0 then Min(k, |s|) else Max(0, |s| + k)
    ensures r == s[..|r|]
  {
    if k >= 0 then s[..Min(k, |s|)] else s[..Max(0, |s| + k)]
  }

  lemma SlicePrefixNonNegative<T>(s: seq<T>, k: int)
    requires k >= 0
    ensures |SlicePrefix(s, k)| <= k
  {
  }

  /** `Path(dir) / name` */
  function PathJoin(dir: string, name: string): string { dir + "/" + name }

  // ---------------------------------------------------------------------
  // Joining

  /** `sep.join(parts)` */
  function Join(parts: seq<string>, sep: string): string
  {
    if |parts| == 0 then ""
    else if |parts| == 1 then parts[0]
    else parts[0] + sep + Join(parts[1..], sep)
  }

  /** Joining two non-empty lists is joining each and putting one separator between. */
  lemma {:induction false} JoinConcat(a: seq<string>, b: seq<string>, sep: string)
    requires |a| > 0 && |b| > 0
    ensures Join(a + b, sep) == Join(a, sep) + sep + Join(b, sep)
  {
    if |a| > 1 {
      assert (a + b)[1..] == a[1..] + b;
      JoinConcat(a[1..], b, sep);
    } else {
      assert (a + b)[1..] == b;
    }
  }

  /** A prefix one longer is the prefix and the next element. */
  lemma TakeNext<T>(s: seq<T>, k: nat)
    requires k < |s|
    ensures s[..k + 1] == s[..k] + [s[k]]
  {
  }

  /** The middle of `pre + mid + post`, cut back out between its two ends. */
  lemma Infix<T>(pre: seq<T>, mid: seq<T>, post: seq<T>)
    ensures var s := pre + mid + post;
      |s| == |pre| + |mid| + |post| && s[..|pre|] == pre && s[|s| - |post|..] == post
      && s[|pre|..|s| - |post|] == mid
  {
  }

  /** The concatenation of a sequence of sequences. */
  function Flatten<T>(xss: seq<seq<T>>): seq<T>
  {
    if |xss| == 0 then [] else xss[0] + Flatten(xss[1..])
  }

  lemma FlattenAppend<T>(a: seq<seq<T>>, b: seq<seq<T>>)
    ensures Flatten(a + b) == Flatten(a) + Flatten(b)
  {
    if |a| == 0 {
      assert a + b == b;
    } else {
      assert (a + b)[1..] == a[1..] + b;
      FlattenAppend(a[1..], b);
    }
  }

  // ---------------------------------------------------------------------
  // Splitting on one character: `s.split(c)`

  function IndexOf(s: string, c: char): (i: nat)
    ensures i <= |s|
    ensures i < |s| ==> s[i] == c
    ensures forall k :: 0 <= k < i ==> s[k] != c
  {
    if |s| == 0 then 0 else if s[0] == c then 0 else 1 + IndexOf(s[1..], c)
  }

  function SplitOn(s: string, c: char): (parts: seq<string>)
    ensures |parts| >= 1
    decreases |s|
  {
    var i := IndexOf(s, c);
    if i == |s| then [s] else [s[..i]] + SplitOn(s[i + 1..], c)
  }

  lemma IndexOfAppend(a: string, t: string, c: char)
    ensures IndexOf(a + t, c) == if IndexOf(a, c) < |a| then IndexOf(a, c) else |a| + IndexOf(t, c)
  {
    if |a| > 0 {
      assert (a + t)[1..] == a[1..] + t;
      IndexOfAppend(a[1..], t, c);
    } else {
      assert a + t == t;
    }
  }

  /** A string without `c` is its own single piece. */
  lemma SplitOnFree(s: string, c: char)
    requires c !in s
    ensures SplitOn(s, c) == [s]
  {
  }

  /** `(a + c + b).split(c) == a.split(c) + b.split(c)` */
  lemma {:induction false} SplitOnConcat(a: string, b: string, c: char)
    ensures SplitOn(a + [c] + b, c) == SplitOn(a, c) + SplitOn(b, c)
    decreases |a|
  {
    var i := IndexOf(a, c);
    if i == |a| {
      SplitAtFirst(a, b, c);
    } else {
      var r := a[i + 1..];
      SplitBeforeFirst(a, b, c);
      SplitOnConcat(r, b, c);
      ConsConcat(a[..i], SplitOn(r + [c] + b, c), SplitOn(r, c), SplitOn(b, c));
    }
  }

  lemma ConsConcat<T>(h: T, x: seq<T>, y: seq<T>, z: seq<T>)
    requires x == y + z
    ensures [h] + x == ([h] + y) + z
  {
  }

  /** With no separator in `a`, the first piece is `a`. */
  lemma SplitAtFirst(a: string, b: string, c: char)
    requires IndexOf(a, c) == |a|
    ensures SplitOn(a, c) == [a]
    ensures SplitOn(a + [c] + b, c) == [a] + SplitOn(b, c)
  {
    var s, t := a + [c] + b, [c] + b;
    assert s == a + t;
    IndexOfAppend(a, t, c);
    assert IndexOf(t, c) == 0;
    assert IndexOf(s, c) == |a|;
    assert SplitOn(s, c) == [s[..|a|]] + SplitOn(s[|a| + 1..], c);
    assert s[..|a|] == a && s[|a| + 1..] == b;
  }

  /** With a separator in `a`, both splits start with the same piece. */
  lemma SplitBeforeFirst(a: string, b: string, c: char)
    requires IndexOf(a, c) < |a|
    ensures var i := IndexOf(a, c);
      && SplitOn(a, c) == [a[..i]] + SplitOn(a[i + 1..], c)
      && SplitOn(a + [c] + b, c) == [a[..i]] + SplitOn(a[i + 1..] + [c] + b, c)
  {
    IndexOfAppend(a, [c] + b, c);
    var s, i := a + [c] + b, IndexOf(a, c);
    assert s == a + ([c] + b);
    assert s[..i] == a[..i];
    assert s[i + 1..] == a[i + 1..] + [c] + b;
  }

  /** Two pieces free of the separator split back apart. */
  lemma SplitOnTwo(a: string, b: string, c: char)
    requires c !in a && c !in b
    ensures SplitOn(a + [c] + b, c) == [a, b]
  {
    SplitOnConcat(a, b, c);
    SplitOnFree(a, c);
    SplitOnFree(b, c);
  }

  /** Three pieces, each ended by the separator, split into the pieces and an empty tail. */
  lemma TerminatedLines(a: string, b: string, d: string, c: char)
    requires c !in a && c !in b && c !in d
    ensures SplitOn(a + [c] + b + [c] + d + [c], c) == [a, b, d, ""]
  {
    var x1 := a + [c] + b;
    var x2 := x1 + [c] + d;
    SplitOnTwo(a, b, c);
    SplitOnConcat(x1, d, c);
    SplitOnFree(d, c);
    assert SplitOn(x2, c) == [a, b, d];
    SplitOnConcat(x2, [], c);
    SplitOnFree([], c);
    assert x2 + [c] == x2 + [c] + [];
  }

  /** The pieces of every part, in order. */
  function SplitAll(parts: seq<string>, c: char): seq<string>
  {
    if |parts| == 0 then [] else SplitOn(parts[0], c) + SplitAll(parts[1..], c)
  }

  /** Splitting a joined text on its separator splits every part in turn. */
  lemma {:induction false} SplitOnJoin(parts: seq<string>, c: char)
    requires |parts| >= 1
    ensures SplitOn(Join(parts, [c]), c) == SplitAll(parts, c)
  {
    if |parts| == 1 {
      assert SplitAll(parts[1..], c) == [];
    } else {
      SplitOnConcat(parts[0], Join(parts[1..], [c]), c);
      SplitOnJoin(parts[1..], c);
    }
  }

  /** For parts without the separator, splitting undoes joining. */
  lemma {:induction false} SplitOnJoinFree(parts: seq<string>, c: char)
    requires |parts| >= 1
    requires forall i :: 0 <= i < |parts| ==> c !in parts[i]
    ensures SplitOn(Join(parts, [c]), c) == parts
  {
    SplitOnJoin(parts, c);
    SplitAllFree(parts, c);
  }

  lemma {:induction false} SplitAllFree(parts: seq<string>, c: char)
    requires forall i :: 0 <= i < |parts| ==> c !in parts[i]
    ensures SplitAll(parts, c) == parts
  {
    if |parts| > 0 {
      SplitOnFree(parts[0], c);
      SplitAllFree(parts[1..], c);
    }
  }

  // ---------------------------------------------------------------------
  // Splitting on runs of whitespace: `s.split()`

  /** A word `str.split()` can produce: non-empty, no whitespace. */
  predicate IsToken(w: string) {
    |w| > 0 && forall i :: 0 <= i < |w| ==> !IsSpace(w[i])
  }

  function TokenLen(s: string): (k: nat)
    ensures k <= |s|
    ensures forall i :: 0 <= i < k ==> !IsSpace(s[i])
    ensures k < |s| ==> IsSpace(s[k])
  {
    if |s| == 0 || IsSpace(s[0]) then 0 else 1 + TokenLen(s[1..])
  }

  function Split(s: string): (r: seq<string>)
    ensures forall i :: 0 <= i < |r| ==> IsToken(r[i])
    decreases |s|
  {
    if |s| == 0 then []
    else if IsSpace(s[0]) then Split(s[1..])
    else
      var k := TokenLen(s);
      [s[..k]] + Split(s[k..])
  }

  lemma TokenLenAppend(w: string, t: string)
    requires forall i :: 0 <= i < |w| ==> !IsSpace(w[i])
    ensures TokenLen(w + t) == |w| + TokenLen(t)
  {
    if |w| > 0 {
      assert (w + t)[1..] == w[1..] + t;
      TokenLenAppend(w[1..], t);
    } else {
      assert w + t == t;
    }
  }

  /** Joining words with single spaces and splitting again gives the words back. */
  lemma {:induction false} SplitJoinTokens(ws: seq<string>)
    requires forall i :: 0 <= i < |ws| ==> IsToken(ws[i])
    ensures Split(Join(ws, " ")) == ws
  {
    if |ws| == 0 {
    } else if |ws| == 1 {
      TokenLenAppend(ws[0], "");
      assert ws[0] + "" == ws[0];
      assert ws[0][|ws[0]|..] == "";
    } else {
      var w, rest := ws[0], Join(ws[1..], " ");
      var s := w + " " + rest;
      TokenLenAppend(w, " " + rest);
      assert s == w + (" " + rest);
      assert TokenLen(s) == |w|;
      assert s[..|w|] == w;
      assert s[|w|..] == " " + rest;
      assert (" " + rest)[1..] == rest;
      SplitJoinTokens(ws[1..]);
    }
  }

  // ---------------------------------------------------------------------
  // Trimming: `s.strip()` and `s.strip(chars)`

  function TrimStart(s: string, drop: char -> bool): (r: string)
    ensures |r| <= |s| && r == s[|s| - |r|..]
    ensures forall i :: 0 <= i < |s| - |r| ==> drop(s[i])
    ensures |r| > 0 ==> !drop(r[0])
  {
    if |s| > 0 && drop(s[0]) then TrimStart(s[1..], drop) else s
  }

  function TrimEnd(s: string, drop: char -> bool): (r: string)
    ensures |r| <= |s| && r == s[..|r|]
    ensures forall i :: |r| <= i < |s| ==> drop(s[i])
    ensures |r| > 0 ==> !drop(r[|r| - 1])
  {
    if |s| > 0 && drop(s[|s| - 1]) then TrimEnd(s[..|s| - 1], drop) else s
  }

  function Trim(s: string, drop: char -> bool): (r: string)
    ensures |r| > 0 ==> !drop(r[0]) && !drop(r[|r| - 1])
  {
    TrimEnd(TrimStart(s, drop), drop)
  }

  /** Trimming only removes characters: every character left was in the input. */
  lemma TrimChars(s: string, drop: char -> bool)
    ensures forall i :: 0 <= i < |Trim(s, drop)| ==> Trim(s, drop)[i] in s
  {
    var t := TrimStart(s, drop);
    var r := TrimEnd(t, drop);
    forall i | 0 <= i < |r| ensures r[i] in s {
      assert r[i] == t[i] == s[|s| - |t| + i];
    }
  }

  /** A separator at the very end is trimmed away before anything else. */
  lemma TrimEndSnoc(s: string, c: char, drop: char -> bool)
    requires drop(c)
    ensures TrimEnd(s + [c], drop) == TrimEnd(s, drop)
  {
    assert (s + [c])[..|s|] == s;
  }

  /** Trimming the start of a string with a dropped character added: nothing left, or what was left plus that character. */
  lemma {:induction false} TrimStartSnoc(s: string, c: char, drop: char -> bool)
    requires drop(c)
    ensures TrimStart(s + [c], drop) == if TrimStart(s, drop) == [] then [] else TrimStart(s, drop) + [c]
    decreases |s|
  {
    if |s| == 0 {
      assert ([] + [c])[1..] == [];
    } else if drop(s[0]) {
      assert (s + [c])[1..] == s[1..] + [c];
      TrimStartSnoc(s[1..], c, drop);
    }
  }

  /** `s.strip()` */
  function Strip(s: string): string { Trim(s, IsSpace) }

  lemma StripOfSpaceFree(s: string)
    requires |s| > 0 && !IsSpace(s[0]) && !IsSpace(s[|s| - 1])
    ensures Strip(s) == s
  {
  }

  // ---------------------------------------------------------------------
  // Decimal numbers: `f"{n}"` and `f"{n:0Wd}"`

  function DigitChar(d: nat): char
    requires d < 10
  {
    ('0' as int + d) as char
  }

  function DigitValue(c: char): nat {
    if IsDigit(c) then c as int - '0' as int else 0
  }

  predicate AllDigits(s: string) {
    forall i :: 0 <= i < |s| ==> IsDigit(s[i])
  }

  /** `str(n)` for a natural number. */
  function NatToString(n: nat): (r: string)
    ensures |r| >= 1 && AllDigits(r)
    decreases n
  {
    if n < 10 then [DigitChar(n)] else NatToString(n / 10) + [DigitChar(n % 10)]
  }

  /** The value of a digit string (`int(s)` for digits; empty is 0). */
  function ParseDigits(s: string): nat
  {
    if |s| == 0 then 0 else 10 * ParseDigits(s[..|s| - 1]) + DigitValue(s[|s| - 1])
  }

  lemma {:induction false} ParseNatToString(n: nat)
    ensures ParseDigits(NatToString(n)) == n
    decreases n
  {
    var r := NatToString(n);
    if n >= 10 {
      assert r[..|r| - 1] == NatToString(n / 10);
      ParseNatToString(n / 10);
    }
  }

  function Zeros(k: nat): (r: string)
    ensures |r| == k && forall i :: 0 <= i < k ==> r[i] == '0'
  {
    seq(k, i => '0')
  }

  /** `f"{n:0{width}d}"`: at least `width` digits, padded with zeros on the left. */
  function PadNat(n: nat, width: nat): (r: string)
    ensures |r| == Max(width, |NatToString(n)|) && AllDigits(r)
  {
    var d := NatToString(n);
    if |d| >= width then d else Zeros(width - |d|) + d
  }

  lemma {:induction false} ParseZerosPrefix(z: nat, s: string)
    ensures ParseDigits(Zeros(z) + s) == ParseDigits(s)
    decreases |s|
  {
    if |s| == 0 {
      assert Zeros(z) + s == Zeros(z);
      ParseZeros(z);
    } else {
      assert (Zeros(z) + s)[..|Zeros(z) + s| - 1] == Zeros(z) + s[..|s| - 1];
      ParseZerosPrefix(z, s[..|s| - 1]);
    }
  }

  lemma {:induction false} ParseZeros(z: nat)
    ensures ParseDigits(Zeros(z)) == 0
  {
    if z > 0 {
      assert Zeros(z)[..z - 1] == Zeros(z - 1);
      ParseZeros(z - 1);
    }
  }

  /** Zero padding does not change the value. */
  lemma {:induction false} ParsePadNat(n: nat, width: nat)
    ensures ParseDigits(PadNat(n, width)) == n
  {
    ParseNatToString(n);
    var d := NatToString(n);
    if |d| < width {
      assert PadNat(n, width) == Zeros(width - |d|) + d;
      ParseZerosPrefix(width - |d|, d);
    } else {
      assert PadNat(n, width) == d;
    }
  }

  /** The number of digits of `n`: two-digit fields really have two digits. */
  lemma {:induction false} NatToStringLength(n: nat, k: nat)
    requires n < Pow10(k) && k >= 1
    ensures |NatToString(n)| <= k
  {
    if n >= 10 {
      NatToStringLength(n / 10, k - 1);
    }
  }

  function Pow10(k: nat): nat { if k == 0 then 1 else 10 * Pow10(k - 1) }
}
