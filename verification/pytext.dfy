/**
  * The Python string built-ins the comparison pipeline relies on: `str.isspace`,
  * `str.find`, `str.rfind`, `str.strip`, `str.split()` and `str.replace`, on
  * strings of Unicode characters.
  */
module PyText {

  /** `c.isspace()`: the characters Python treats as whitespace. The same set is
      the `\s` class of its regular expressions on `str`. */
  predicate IsSpace(c: char) {
    ('\t' <= c <= '\r') || ('\U{1C}' <= c <= '\U{1F}') || c == ' '
    || c == '\U{85}' || c == '\U{A0}' || c == '\U{1680}'
    || ('\U{2000}' <= c <= '\U{200A}') || c == '\U{2028}' || c == '\U{2029}'
    || c == '\U{202F}' || c == '\U{205F}' || c == '\U{3000}'
  }

  /** An ASCII decimal digit, the class `[0-9]`. */
  predicate IsDigit(c: char) {
    '0' <= c <= '9'
  }

  /** The runs of decimal digits (general category Nd) of Unicode 15.0, the version of
      Python 3.12, beyond ASCII `0`-`9` and the ARABIC-INDIC DIGITs U+0660-U+0669,
      each as its first and last character, in increasing order. */
  const DecimalRanges: seq<(char, char)> := [
      ('\U{06F0}', '\U{06F9}'),
      ('\U{07C0}', '\U{07C9}'), ('\U{0966}', '\U{096F}'), ('\U{09E6}', '\U{09EF}'),
      ('\U{0A66}', '\U{0A6F}'), ('\U{0AE6}', '\U{0AEF}'), ('\U{0B66}', '\U{0B6F}'),
      ('\U{0BE6}', '\U{0BEF}'), ('\U{0C66}', '\U{0C6F}'), ('\U{0CE6}', '\U{0CEF}'),
      ('\U{0D66}', '\U{0D6F}'), ('\U{0DE6}', '\U{0DEF}'), ('\U{0E50}', '\U{0E59}'),
      ('\U{0ED0}', '\U{0ED9}'), ('\U{0F20}', '\U{0F29}'), ('\U{1040}', '\U{1049}'),
      ('\U{1090}', '\U{1099}'), ('\U{17E0}', '\U{17E9}'), ('\U{1810}', '\U{1819}'),
      ('\U{1946}', '\U{194F}'), ('\U{19D0}', '\U{19D9}'), ('\U{1A80}', '\U{1A89}'),
      ('\U{1A90}', '\U{1A99}'), ('\U{1B50}', '\U{1B59}'), ('\U{1BB0}', '\U{1BB9}'),
      ('\U{1C40}', '\U{1C49}'), ('\U{1C50}', '\U{1C59}'), ('\U{A620}', '\U{A629}'),
      ('\U{A8D0}', '\U{A8D9}'), ('\U{A900}', '\U{A909}'), ('\U{A9D0}', '\U{A9D9}'),
      ('\U{A9F0}', '\U{A9F9}'), ('\U{AA50}', '\U{AA59}'), ('\U{ABF0}', '\U{ABF9}'),
      ('\U{FF10}', '\U{FF19}'), ('\U{104A0}', '\U{104A9}'), ('\U{10D30}', '\U{10D39}'),
      ('\U{11066}', '\U{1106F}'), ('\U{110F0}', '\U{110F9}'), ('\U{11136}', '\U{1113F}'),
      ('\U{111D0}', '\U{111D9}'), ('\U{112F0}', '\U{112F9}'), ('\U{11450}', '\U{11459}'),
      ('\U{114D0}', '\U{114D9}'), ('\U{11650}', '\U{11659}'), ('\U{116C0}', '\U{116C9}'),
      ('\U{11730}', '\U{11739}'), ('\U{118E0}', '\U{118E9}'), ('\U{11950}', '\U{11959}'),
      ('\U{11C50}', '\U{11C59}'), ('\U{11D50}', '\U{11D59}'), ('\U{11DA0}', '\U{11DA9}'),
      ('\U{11F50}', '\U{11F59}'), ('\U{16A60}', '\U{16A69}'), ('\U{16AC0}', '\U{16AC9}'),
      ('\U{16B50}', '\U{16B59}'), ('\U{1D7CE}', '\U{1D7FF}'), ('\U{1E140}', '\U{1E149}'),
      ('\U{1E2F0}', '\U{1E2F9}'), ('\U{1E4F0}', '\U{1E4F9}'), ('\U{1E950}', '\U{1E959}'),
      ('\U{1FBF0}', '\U{1FBF9}')
    ]

  /** `\d` of Python's regular expressions on `str`, which is `str.isdecimal`: an ASCII
      digit, an ARABIC-INDIC DIGIT or a character of one of the `DecimalRanges`. */
  predicate IsDecimal(c: char) {
    IsDigit(c) || ('\U{0660}' <= c <= '\U{0669}') || (c > '\U{0669}' && InDecimalRanges(c, 0))
  }

  /** `c` lies in one of `DecimalRanges[i..]`. */
  predicate InDecimalRanges(c: char, i: nat)
    decreases |DecimalRanges| - i
  {
    i < |DecimalRanges| && (DecimalRanges[i].0 <= c <= DecimalRanges[i].1 || InDecimalRanges(c, i + 1))
  }

  predicate AllDecimals(s: string) {
    forall i :: 0 <= i < |s| ==> IsDecimal(s[i])
  }

  predicate AllSpace(s: string) {
    forall i :: 0 <= i < |s| ==> IsSpace(s[i])
  }

  predicate NoSpace(s: string) {
    forall i :: 0 <= i < |s| ==> !IsSpace(s[i])
  }

  predicate AllDigits(s: string) {
    forall i :: 0 <= i < |s| ==> IsDigit(s[i])
  }

  /** `s.find(c)`: the index of the first `c`, or -1. */
  function Find(s: string, c: char): (r: int)
    ensures -1 <= r < |s|
    ensures r == -1 <==> c !in s
    ensures r >= 0 ==> s[r] == c && c !in s[..r]
  {
    if s == [] then -1
    else if s[0] == c then 0
    else
      var k := Find(s[1..], c);
      if k == -1 then -1
      else
        assert s[..k + 1] == [s[0]] + s[1..][..k];
        k + 1
  }

  /** The first `c` of `s` is at `k` (at `|s|`: there is none). */
  lemma FindAt(s: string, c: char, k: nat)
    requires k <= |s| && forall i :: 0 <= i < k ==> s[i] != c
    requires k < |s| ==> s[k] == c
    ensures Find(s, c) == if k < |s| then k else -1
  {
  }

  /** `s.rfind(c)`: the index of the last `c`, or -1. */
  function RFind(s: string, c: char): (r: int)
    ensures -1 <= r < |s|
    ensures r == -1 <==> c !in s
    ensures r >= 0 ==> s[r] == c
    ensures forall i :: r < i < |s| ==> s[i] != c
  {
    if s == [] then -1
    else if s[|s| - 1] == c then |s| - 1
    else
      var k := RFind(s[..|s| - 1], c);
      assert c in s[..|s| - 1] ==> c in s;
      k
  }

  /** Number of whitespace characters at the start of `s`. */
  function LeadingSpace(s: string): (n: nat)
    ensures n <= |s| && AllSpace(s[..n])
    ensures n < |s| ==> !IsSpace(s[n])
  {
    if s == [] || !IsSpace(s[0]) then 0 else 1 + LeadingSpace(s[1..])
  }

  /** Number of whitespace characters at the end of `s`. */
  function TrailingSpace(s: string): (n: nat)
    ensures n <= |s| && AllSpace(s[|s| - n..])
    ensures n < |s| ==> !IsSpace(s[|s| - n - 1])
  {
    SpaceBefore(s, |s|)
  }

  /** Number of ASCII digits immediately before position `k` of `s`. */
  function DigitsBefore(s: string, k: nat): (n: nat)
    requires k <= |s|
    ensures n <= k
    ensures forall i :: k - n <= i < k ==> IsDigit(s[i])
    ensures n < k ==> !IsDigit(s[k - n - 1])
  {
    if k == 0 || !IsDigit(s[k - 1]) then 0 else 1 + DigitsBefore(s, k - 1)
  }

  /** The digits before position `k` start at `q`. */
  lemma DigitsBeforeAt(s: string, k: nat, q: nat)
    requires q <= k <= |s| && forall i :: q <= i < k ==> IsDigit(s[i])
    requires q > 0 ==> !IsDigit(s[q - 1])
    ensures DigitsBefore(s, k) == k - q
  {
  }

  /** Number of whitespace characters immediately before position `k` of `s`. */
  function SpaceBefore(s: string, k: nat): (n: nat)
    requires k <= |s|
    ensures n <= k
    ensures forall i :: k - n <= i < k ==> IsSpace(s[i])
    ensures n < k ==> !IsSpace(s[k - n - 1])
  {
    if k == 0 || !IsSpace(s[k - 1]) then 0 else 1 + SpaceBefore(s, k - 1)
  }

  /** The whitespace before position `k` starts at `q`. */
  lemma SpaceBeforeAt(s: string, k: nat, q: nat)
    requires q <= k <= |s| && forall i :: q <= i < k ==> IsSpace(s[i])
    requires q > 0 ==> !IsSpace(s[q - 1])
    ensures SpaceBefore(s, k) == k - q
  {
  }

  /** Number of decimal digits immediately before position `k` of `s`. */
  function DecimalsBefore(s: string, k: nat): (n: nat)
    requires k <= |s|
    ensures n <= k
    ensures forall i :: k - n <= i < k ==> IsDecimal(s[i])
    ensures n < k ==> !IsDecimal(s[k - n - 1])
  {
    if k == 0 || !IsDecimal(s[k - 1]) then 0 else 1 + DecimalsBefore(s, k - 1)
  }

  /** The decimal digits before position `k` start at `q`. */
  lemma DecimalsBeforeAt(s: string, k: nat, q: nat)
    requires q <= k <= |s| && forall i :: q <= i < k ==> IsDecimal(s[i])
    requires q > 0 ==> !IsDecimal(s[q - 1])
    ensures DecimalsBefore(s, k) == k - q
  {
  }

  /** Number of decimal digits at the end of `s`. */
  function TrailingDecimals(s: string): (n: nat)
    ensures n <= |s| && AllDecimals(s[|s| - n..])
    ensures n < |s| ==> !IsDecimal(s[|s| - n - 1])
  {
    DecimalsBefore(s, |s|)
  }

  /** The decimal digits at the end of `s` start at `q` when `s[q..]` is all decimal
      digits and the character before it is not one. */
  lemma TrailingDecimalsAt(s: string, q: nat)
    requires q <= |s| && AllDecimals(s[q..])
    requires q > 0 ==> !IsDecimal(s[q - 1])
    ensures TrailingDecimals(s) == |s| - q
  {
    DecimalsBeforeAt(s, |s|, q);
  }

  /** `s.strip()`: `s` without its leading and trailing whitespace. */
  function Strip(s: string): (r: string)
    ensures r == [] <==> AllSpace(s)
    ensures r != [] ==> !IsSpace(r[0]) && !IsSpace(r[|r| - 1])
    ensures LeadingSpace(s) + |r| <= |s|
    ensures r == s[LeadingSpace(s)..LeadingSpace(s) + |r|]
    ensures AllSpace(s[LeadingSpace(s) + |r|..])
  {
    var a := LeadingSpace(s);
    var t := s[a..];
    assert a == |s| ==> s == s[..a];
    assert a < |s| ==> !IsSpace(t[0]);
    var b := TrailingSpace(t);
    t[..|t| - b]
  }

  /** Stripping text that has no whitespace at either end leaves it unchanged. */
  lemma StripUnchanged(t: string)
    requires t == [] || (!IsSpace(t[0]) && !IsSpace(t[|t| - 1]))
    ensures Strip(t) == t
  {
    assert LeadingSpace(t) == 0;
    assert TrailingSpace(t) == 0;
  }

  /** Length of the run of non-whitespace characters at the start of `s`. */
  function WordLength(s: string): (n: nat)
    ensures n <= |s| && NoSpace(s[..n])
    ensures n < |s| ==> IsSpace(s[n])
  {
    if s == [] || IsSpace(s[0]) then 0 else 1 + WordLength(s[1..])
  }

  /** `s.split()` with no separator: the maximal runs of non-whitespace, in order. */
  function Split(s: string): (ws: seq<string>)
    ensures ws == [] <==> AllSpace(s)
    ensures forall k :: 0 <= k < |ws| ==> ws[k] != [] && NoSpace(ws[k])
    decreases |s|
  {
    var a := LeadingSpace(s);
    if a == |s| then
      assert s == s[..a];
      []
    else
      var n := WordLength(s[a..]);
      assert s[a..][..n] == s[a..a + n];
      assert n > 0;
      var rest := Split(s[a + n..]);
      assert !AllSpace(s) by { assert !IsSpace(s[a]); }
      [s[a..a + n]] + rest
  }

  /** `gaps[0] + ws[0] + gaps[1] + ... + ws[n - 1] + gaps[n]`: the words `ws` laid out
      with the runs `gaps` before, between and after them. */
  function Interleave(gaps: seq<string>, ws: seq<string>): string
    requires |gaps| == |ws| + 1
    decreases ws
  {
    if ws == [] then gaps[0] else gaps[0] + ws[0] + Interleave(gaps[1..], ws[1..])
  }

  /** `gaps` separate the words `ws`: every gap is whitespace, and a gap between two
      words is not empty. */
  predicate Separates(gaps: seq<string>, ws: seq<string>) {
    && |gaps| == |ws| + 1
    && (forall k :: 0 <= k < |gaps| ==> AllSpace(gaps[k]))
    && (forall k :: 0 < k < |ws| ==> gaps[k] != [])
  }

  /** Each word is a non-empty run of non-whitespace. */
  predicate Words(ws: seq<string>) {
    forall k :: 0 <= k < |ws| ==> ws[k] != [] && NoSpace(ws[k])
  }

  /** The words of `Split(s)`, with whitespace between them, make up all of `s`. */
  lemma {:induction false} SplitDecomposes(s: string)
    ensures exists gaps :: Separates(gaps, Split(s)) && Interleave(gaps, Split(s)) == s
    decreases |s|
  {
    if AllSpace(s) {
      assert Separates([s], Split(s)) && Interleave([s], Split(s)) == s;
    } else {
      var g0, w, rest := FirstWord(s);
      SplitDecomposes(rest);
      var g :| Separates(g, Split(rest)) && Interleave(g, Split(rest)) == rest;
      FirstGapNotEmpty(g, Split(rest));
      SplitWordFirst(g0, w, rest);
      InterleaveCons(g0, w, g, Split(rest));
      assert Separates([g0] + g, Split(s)) && Interleave([g0] + g, Split(s)) == s;
    }
  }

  /** Text that is not all whitespace is whitespace, a word, then text that is empty
      or starts with whitespace. */
  lemma FirstWord(s: string) returns (g0: string, w: string, rest: string)
    requires !AllSpace(s)
    ensures s == g0 + w + rest && |rest| < |s|
    ensures AllSpace(g0) && w != [] && NoSpace(w) && (rest == [] || IsSpace(rest[0]))
  {
    var a := LeadingSpace(s);
    var n := WordLength(s[a..]);
    g0, w, rest := s[..a], s[a..a + n], s[a + n..];
    assert w != [] && NoSpace(w) by {
      assert s[a..][..n] == w;
    }
    assert rest == [] || IsSpace(rest[0]) by {
      assert rest == s[a..][n..];
    }
    assert s == g0 + w + rest;
  }

  /** A gap and a word put in front of a layout. */
  lemma InterleaveCons(g0: string, w: string, gaps: seq<string>, ws: seq<string>)
    requires AllSpace(g0) && Separates(gaps, ws) && (ws != [] ==> gaps[0] != [])
    ensures Separates([g0] + gaps, [w] + ws)
    ensures Interleave([g0] + gaps, [w] + ws) == g0 + w + Interleave(gaps, ws)
  {
    assert ([g0] + gaps)[1..] == gaps && ([w] + ws)[1..] == ws;
  }

  /** In a layout of text that is empty or starts with whitespace, the first gap is
      not empty unless there are no words. */
  lemma FirstGapNotEmpty(gaps: seq<string>, ws: seq<string>)
    requires Separates(gaps, ws) && Words(ws)
    requires var s := Interleave(gaps, ws); s == [] || IsSpace(s[0])
    ensures ws != [] ==> gaps[0] != []
  {
    if ws != [] && gaps[0] == [] {
      InterleaveFirst(gaps, ws);
    }
  }

  /** A layout whose first gap is empty starts with its first word. */
  lemma InterleaveFirst(gaps: seq<string>, ws: seq<string>)
    requires |gaps| == |ws| + 1 && ws != [] && gaps[0] == [] && ws[0] != []
    ensures Interleave(gaps, ws) != [] && Interleave(gaps, ws)[0] == ws[0][0]
  {
    var rest := Interleave(gaps[1..], ws[1..]);
    assert Interleave(gaps, ws) == [] + ws[0] + rest;
    assert ([] + ws[0] + rest)[0] == ws[0][0];
  }

  /** `Split` is the only way to cut `s` into words separated by whitespace: any
      layout of non-empty, whitespace-free words gives back those words. */
  lemma {:induction false} SplitUnique(gaps: seq<string>, ws: seq<string>)
    requires Separates(gaps, ws) && Words(ws)
    ensures Split(Interleave(gaps, ws)) == ws
    decreases ws
  {
    if ws != [] {
      var rest := Interleave(gaps[1..], ws[1..]);
      SeparatesTail(gaps, ws);
      SplitUnique(gaps[1..], ws[1..]);
      InterleaveNext(gaps, ws);
      SplitWordFirst(gaps[0], ws[0], rest);
    }
  }

  /** Dropping the first gap and word of a layout leaves a layout. */
  lemma SeparatesTail(gaps: seq<string>, ws: seq<string>)
    requires Separates(gaps, ws) && Words(ws) && ws != []
    ensures Separates(gaps[1..], ws[1..]) && Words(ws[1..])
  {
  }

  /** A layout is its first gap, its first word, then the rest, which is empty or
      starts with whitespace. */
  lemma InterleaveNext(gaps: seq<string>, ws: seq<string>)
    requires Separates(gaps, ws) && ws != []
    ensures Interleave(gaps, ws) == gaps[0] + ws[0] + Interleave(gaps[1..], ws[1..])
    ensures var rest := Interleave(gaps[1..], ws[1..]); rest == [] || IsSpace(rest[0])
  {
    var rest := Interleave(gaps[1..], ws[1..]);
    if ws[1..] != [] {
      assert rest == gaps[1] + ws[1] + Interleave(gaps[2..], ws[2..]) by {
        assert gaps[1..][1..] == gaps[2..] && ws[1..][1..] == ws[2..];
      }
      assert rest[0] == gaps[1][0];
    } else {
      assert rest == gaps[1];
    }
  }

  /** Whitespace, then a word, then text that is empty or starts with whitespace
      splits into that word followed by the words of the text. */
  lemma SplitWordFirst(g: string, w: string, rest: string)
    requires AllSpace(g) && w != [] && NoSpace(w) && (rest == [] || IsSpace(rest[0]))
    ensures Split(g + w + rest) == [w] + Split(rest)
  {
    var s := g + w + rest;
    assert s == g + (w + rest);
    LeadingSpaceOf(g, w + rest);
    assert s[|g|..] == w + rest;
    WordLengthOf(w, rest);
    assert |g| + |w| <= |s|;
    SplitStep(s, |g|, |w|);
    assert s[|g|..|g| + |w|] == w && s[|g| + |w|..] == rest;
  }

  /** One step of `Split`: a word at `a` of length `n > 0`, after whitespace. */
  lemma SplitStep(s: string, a: nat, n: nat)
    requires a < |s| && LeadingSpace(s) == a && a + n <= |s| && WordLength(s[a..]) == n
    ensures Split(s) == [s[a..a + n]] + Split(s[a + n..])
  {
  }

  /** Whitespace `g` followed by a non-whitespace character has length `|g|` of
      leading whitespace. */
  lemma {:induction false} LeadingSpaceOf(g: string, t: string)
    requires AllSpace(g) && (t == [] || !IsSpace(t[0]))
    ensures LeadingSpace(g + t) == |g|
  {
    if g != [] {
      assert (g + t)[1..] == g[1..] + t;
      LeadingSpaceOf(g[1..], t);
    }
  }

  /** A word `w` followed by whitespace or nothing is a word of length `|w|`. */
  lemma {:induction false} WordLengthOf(w: string, t: string)
    requires NoSpace(w) && (t == [] || IsSpace(t[0]))
    ensures WordLength(w + t) == |w|
  {
    if w != [] {
      assert (w + t)[1..] == w[1..] + t;
      WordLengthOf(w[1..], t);
    }
  }

  /** `s.replace(x, y)` for one-character `x` and `y`. */
  function ReplaceChar(s: string, x: char, y: char): (r: string)
    ensures |r| == |s|
    ensures forall i :: 0 <= i < |s| ==> r[i] == if s[i] == x then y else s[i]
  {
    if s == [] then [] else [if s[0] == x then y else s[0]] + ReplaceChar(s[1..], x, y)
  }
}
