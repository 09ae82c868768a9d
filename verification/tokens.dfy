/**
  * Token and line helpers of the comparison pipeline: cutting comments off a
  * line, normalising a numeric token (Fortran `D` exponents, decimal commas)
  * and recognising lines made only of decimal literals.
  */
module Tokens {
  import opened Wrappers
  import opened PyText

  // ---------------------------------------------------------------------------
  // Comments
  // ---------------------------------------------------------------------------

  /** The comment markers, in the order the line is cut at them. */
  const CommentMarks: seq<char> := ['#', '!']

  /** `c` is one of the `CommentMarks`. */
  predicate IsCommentMark(c: char) {
    c in CommentMarks
  }

  /** One cut: `s` up to (not including) its first `mark`, or all of `s`. */
  function CutAt(s: string, mark: char): (r: string)
    ensures r <= s && mark !in r
    ensures mark !in s ==> r == s
    ensures mark in s ==> |r| < |s| && s[|r|] == mark
  {
    var p := Find(s, mark);
    if p != -1 then s[..p] else s
  }

  /** The cuts at `marks[0]`, `marks[1]`, ... applied one after the other: a prefix
      of `s` holding none of the marks. */
  function CutAll(s: string, marks: seq<char>): (r: string)
    ensures r <= s
    ensures forall k :: 0 <= k < |marks| ==> marks[k] !in r
    decreases |marks|
  {
    if marks == [] then s
    else
      var before := CutAll(s, marks[..|marks| - 1]);
      var r := CutAt(before, marks[|marks| - 1]);
      assert r == before[..|r|];
      r
  }

  /** Index of the first comment marker of `s`, or `|s|` when it has none. */
  function CommentStart(s: string): (k: nat)
    ensures k <= |s|
    ensures forall i :: 0 <= i < k ==> !IsCommentMark(s[i])
    ensures k < |s| ==> IsCommentMark(s[k])
  {
    if s == [] || IsCommentMark(s[0]) then 0 else 1 + CommentStart(s[1..])
  }

  /** The first comment marker is at `k` when none comes before `k` and `s[k]` is one. */
  lemma CommentStartAt(s: string, k: nat)
    requires k <= |s| && forall i :: 0 <= i < k ==> !IsCommentMark(s[i])
    requires k < |s| ==> IsCommentMark(s[k])
    ensures CommentStart(s) == k
  {
  }

  /** Cutting at `#` and then at `!` keeps exactly the text before the first marker of either kind. */
  lemma {:induction false} CutAllIsCommentStart(s: string)
    ensures CutAll(s, CommentMarks) == s[..CommentStart(s)]
  {
    CutAllMarks(s);
    var k := CommentStart(s);
    if k == |s| {
      CutsWithoutMarks(s);
    } else if s[k] == '#' {
      CutsAtHash(s, k);
    } else {
      CutsAtBang(s, k);
    }
  }

  /** The comment marks are `#` and then `!`. */
  lemma CutAllMarks(s: string)
    ensures CutAll(s, CommentMarks) == CutAt(CutAt(s, '#'), '!')
  {
    assert CommentMarks[..|CommentMarks| - 1] == ['#'];
    assert ['#'][..0] == [];
  }

  /** A line without markers is not cut. */
  lemma CutsWithoutMarks(s: string)
    requires forall i :: 0 <= i < |s| ==> !IsCommentMark(s[i])
    ensures CutAt(CutAt(s, '#'), '!') == s
  {
    FindAt(s, '#', |s|);
    FindAt(s, '!', |s|);
  }

  /** The first marker is a `#`: the first cut keeps the text before it, the second keeps that. */
  lemma CutsAtHash(s: string, k: nat)
    requires k < |s| && s[k] == '#' && forall i :: 0 <= i < k ==> !IsCommentMark(s[i])
    ensures CutAt(CutAt(s, '#'), '!') == s[..k]
  {
    FindAt(s, '#', k);
    FindAt(s[..k], '!', k);
  }

  /** The first marker is a `!`: the first cut keeps it, the second cuts there. */
  lemma CutsAtBang(s: string, k: nat)
    requires k < |s| && s[k] == '!' && forall i :: 0 <= i < k ==> !IsCommentMark(s[i])
    ensures CutAt(CutAt(s, '#'), '!') == s[..k]
  {
    var t := CutAt(s, '#');
    assert '#' !in s[..k + 1] by {
      assert forall i :: 0 <= i <= k ==> s[i] != '#';
    }
    assert |t| > k by {
      if '#' in s {
        assert s[|t|] == '#';
      }
    }
    assert t[..k + 1] == s[..k + 1];
    FindAt(t, '!', k);
    assert t[..k] == s[..k];
  }

  /** `_strip_comment`: cut the line at its first `#`, then at its first `!`. */
  method StripComment(line: string) returns (s: string)
    ensures s == line[..CommentStart(line)]
    ensures s <= line && '#' !in s && '!' !in s
    ensures Find(line, '#') >= 0 && '!' !in line[..Find(line, '#')] ==> s == line[..Find(line, '#')]
    ensures '#' !in line && '!' !in line ==> s == line
  {
    s := line;
    for k := 0 to |CommentMarks|
      invariant s == CutAll(line, CommentMarks[..k])
    {
      assert CommentMarks[..k + 1][..k] == CommentMarks[..k];
      var p := Find(s, CommentMarks[k]);
      if p != -1 {
        s := s[..p];
      }
    }
    assert CommentMarks[..|CommentMarks|] == CommentMarks;
    CutAllIsCommentStart(line);
    assert forall i :: 0 <= i < |s| ==> !IsCommentMark(s[i]);
    var p := Find(line, '#');
    if p >= 0 && '!' !in line[..p] {
      assert forall i :: 0 <= i < p ==> line[..p][i] == line[i];
      CommentStartAt(line, p);
    }
    if '#' !in line && '!' !in line {
      CommentStartAt(line, |line|);
    }
  }

  // ---------------------------------------------------------------------------
  // Token normalisation
  // ---------------------------------------------------------------------------

  predicate IsSign(c: char) {
    c == '+' || c == '-'
  }

  /** The end-anchored Fortran exponent `([0-9])([dD])([+\-]?\d+)$` occurs at index `i` of `t`:
      an ASCII digit, the letter, then an optional sign and decimal digits of any script. */
  predicate FortranExponentAt(t: string, i: int) {
    0 <= i && i + 2 < |t| && IsDigit(t[i]) && (t[i + 1] == 'd' || t[i + 1] == 'D')
    && ExponentDigitsFrom(t, if IsSign(t[i + 2]) then i + 3 else i + 2)
  }

  /** `t[q..]` is a non-empty run of decimal digits (`\d+$`). */
  predicate ExponentDigitsFrom(t: string, q: int) {
    0 <= q < |t| && forall k :: q <= k < |t| ==> IsDecimal(t[k])
  }

  /** Where the Fortran exponent occurs, found by reading `t` from its end. */
  function FortranExponent(t: string): (r: Option<nat>)
    ensures r.Some? ==> FortranExponentAt(t, r.value)
  {
    var n := TrailingDecimals(t);
    var p := if 0 < n < |t| && IsSign(t[|t| - n - 1]) then |t| - n - 1 else |t| - n;
    if n > 0 && p >= 2 && (t[p - 1] == 'd' || t[p - 1] == 'D') && IsDigit(t[p - 2]) then Some(p - 2)
    else None
  }

  /** Reading from the end finds every occurrence of the Fortran exponent, so there
      is at most one. */
  lemma FortranExponentFinds(t: string, i: int)
    requires FortranExponentAt(t, i)
    ensures FortranExponent(t) == Some(i)
  {
    var q := if IsSign(t[i + 2]) then i + 3 else i + 2;
    assert AllDecimals(t[q..]);
    TrailingDecimalsAt(t, q);
  }

  /** The regular-expression substitution of the normaliser: the `D` or `d` of a
      trailing Fortran exponent becomes `E`; every other character stays. */
  function RewriteFortranExponent(t: string): (r: string)
    ensures |r| == |t|
    ensures forall i :: FortranExponentAt(t, i) ==> r == t[i + 1 := 'E']
    ensures (forall i :: !FortranExponentAt(t, i)) ==> r == t
  {
    assert forall i :: FortranExponentAt(t, i) ==> FortranExponent(t) == Some(i) by {
      forall i | FortranExponentAt(t, i) ensures FortranExponent(t) == Some(i) {
        FortranExponentFinds(t, i);
      }
    }
    match FortranExponent(t)
    case Some(k) => t[k + 1 := 'E']
    case None => t
  }

  /** Position by position, the substitution writes `E` over the letter of a trailing
      Fortran exponent and copies everything else. */
  lemma RewriteFortranExponentAt(t: string, k: nat)
    requires k < |t|
    ensures RewriteFortranExponent(t)[k] == if k >= 1 && FortranExponentAt(t, k - 1) then 'E' else t[k]
  {
    if k >= 1 && FortranExponentAt(t, k - 1) {
      FortranExponentFinds(t, k - 1);
    }
  }

  /** The substitution neither adds nor removes any character other than `d`, `D` and `E`. */
  lemma RewriteFortranExponentKeeps(t: string, x: char)
    requires x != 'd' && x != 'D' && x != 'E'
    ensures x in RewriteFortranExponent(t) <==> x in t
  {
    var u := RewriteFortranExponent(t);
    forall j | 0 <= j < |t| ensures (u[j] == x) == (t[j] == x) {
      RewriteFortranExponentAt(t, j);
    }
    if x in u {
      var j :| 0 <= j < |u| && u[j] == x;
      assert t[j] == x;
    }
    if x in t {
      var j :| 0 <= j < |t| && t[j] == x;
      assert u[j] == x;
    }
  }

  /** The decimal-comma step: commas become points when the token has no point. */
  function DecimalComma(t: string): (r: string)
    ensures |r| == |t|
    ensures ',' in r ==> '.' in r
    ensures '.' in t || ',' !in t ==> r == t
  {
    if ',' in t && '.' !in t then ReplaceChar(t, ',', '.') else t
  }

  /** `_norm_token`: strip, rewrite a trailing Fortran exponent, then read a lone
      decimal comma as a point. */
  function NormToken(tok: string): (r: string)
    ensures |r| == |Strip(tok)|
  {
    NormStripped(Strip(tok))
  }

  /** The two rewriting steps of `_norm_token`, on the stripped token. Neither adds
      nor removes a character. */
  function NormStripped(t: string): (r: string)
    ensures |r| == |t|
  {
    DecimalComma(RewriteFortranExponent(t))
  }

  /** What `NormStripped` puts at position `k` of `t`. */
  function NormChar(t: string, k: nat): char
    requires k < |t|
  {
    if k >= 1 && FortranExponentAt(t, k - 1) then 'E'
    else if t[k] == ',' && '.' !in t then '.'
    else t[k]
  }

  /** `r` is `t` with the `E` of a trailing Fortran exponent and a point for each
      decimal comma written in. */
  ghost predicate NormalisedFrom(t: string, r: string) {
    |r| == |t| && forall k :: 0 <= k < |t| ==> r[k] == NormChar(t, k)
  }

  /** Each character of the normalised token is the `E` of a trailing Fortran
      exponent, a point for a decimal comma, or the stripped token's own character. */
  lemma NormStrippedChars(t: string)
    ensures NormalisedFrom(t, NormStripped(t))
  {
    RewriteFortranExponentKeeps(t, ',');
    RewriteFortranExponentKeeps(t, '.');
    forall k | 0 <= k < |t| ensures NormStripped(t)[k] == NormChar(t, k) {
      RewriteFortranExponentAt(t, k);
    }
  }

  /** A token ending in a digit, `D` or `d`, an optional sign and digits has just that
      letter turned into `E` (the token having no comma). */
  lemma NormTokenExponent(tok: string, i: nat)
    requires FortranExponentAt(Strip(tok), i) && ',' !in Strip(tok)
    ensures NormToken(tok) == Strip(tok)[i + 1 := 'E']
  {
    NormStrippedExponent(Strip(tok), i);
  }

  /** `NormTokenExponent` on the stripped token. */
  lemma NormStrippedExponent(t: string, i: nat)
    requires FortranExponentAt(t, i) && ',' !in t
    ensures NormStripped(t) == t[i + 1 := 'E']
  {
    RewriteFortranExponentKeeps(t, ',');
  }

  /** A token that already has a point keeps its commas. */
  lemma NormTokenKeepsCommas(tok: string)
    requires '.' in Strip(tok)
    ensures forall k :: 0 <= k < |Strip(tok)| && Strip(tok)[k] == ',' ==> NormToken(tok)[k] == ','
  {
    NormStrippedChars(Strip(tok));
  }

  /** A token with a comma and no point has every comma turned into a point, so the
      normalised token has no comma left. */
  lemma NormTokenCommas(tok: string)
    requires ',' in Strip(tok) && '.' !in Strip(tok)
    ensures forall k :: 0 <= k < |Strip(tok)| && Strip(tok)[k] == ',' ==> NormToken(tok)[k] == '.'
    ensures ',' !in NormToken(tok) && '.' in NormToken(tok)
  {
    NormStrippedCommas(Strip(tok));
  }

  /** `NormTokenCommas` on the stripped token. */
  lemma NormStrippedCommas(t: string)
    requires ',' in t && '.' !in t
    ensures forall k :: 0 <= k < |t| && t[k] == ',' ==> NormStripped(t)[k] == '.'
    ensures ',' !in NormStripped(t) && '.' in NormStripped(t)
  {
    var u := RewriteFortranExponent(t);
    RewriteFortranExponentKeeps(t, ',');
    RewriteFortranExponentKeeps(t, '.');
    forall k | 0 <= k < |t| && t[k] == ',' ensures u[k] == ',' {
      RewriteFortranExponentAt(t, k);
    }
    var r := ReplaceChar(u, ',', '.');
    var j :| 0 <= j < |u| && u[j] == ',';
    assert r[j] == '.';
  }

  /** Where a normalised token shows a Fortran exponent at `i`, the token it came from
      has the same characters, except perhaps the letter. */
  lemma NormalisedExponentChars(t: string, r: string, i: int, m: int)
    requires NormalisedFrom(t, r) && FortranExponentAt(r, i)
    requires i <= m < |r| && m != i + 1
    ensures r[m] == t[m]
  {
    assert IsSign(r[m]) || IsDecimal(r[m]);
  }

  /** A normalised token has no trailing Fortran exponent left. */
  lemma NormalisedNoExponent(t: string, r: string, i: int)
    requires NormalisedFrom(t, r)
    ensures !FortranExponentAt(r, i)
  {
    if FortranExponentAt(r, i) {
      forall m | i <= m < |r| && m != i + 1 ensures r[m] == t[m] {
        NormalisedExponentChars(t, r, i, m);
      }
      assert FortranExponentAt(t, i);
    }
  }

  /** A normalised token with a comma also has a point. */
  lemma NormalisedCommaHasPoint(t: string, r: string)
    requires NormalisedFrom(t, r)
    ensures ',' in r ==> '.' in r
  {
    if ',' in r {
      var k :| 0 <= k < |r| && r[k] == ',';
      var j :| 0 <= j < |t| && t[j] == '.';
      assert r[j] == '.';
    }
  }

  /** Normalising twice gives the same token as normalising once. */
  lemma NormTokenIdempotent(tok: string)
    ensures NormToken(NormToken(tok)) == NormToken(tok)
  {
    var t := Strip(tok);
    var r := NormStripped(t);
    NormStrippedChars(t);
    NormalisedIsFixed(t, r);
    StripUnchanged(r);
  }

  /** A normalised token is left as it is by both rewriting steps, and has no
      whitespace at either end. */
  lemma NormalisedIsFixed(t: string, r: string)
    requires NormalisedFrom(t, r) && (t == [] || (!IsSpace(t[0]) && !IsSpace(t[|t| - 1])))
    ensures NormStripped(r) == r
    ensures r == [] || (!IsSpace(r[0]) && !IsSpace(r[|r| - 1]))
  {
    forall i ensures !FortranExponentAt(r, i) {
      NormalisedNoExponent(t, r, i);
    }
    assert RewriteFortranExponent(r) == r;
    NormalisedCommaHasPoint(t, r);
    assert DecimalComma(r) == r;
  }

  /** Without a `d` or `D` there is nothing for the substitution to rewrite, so a
      token with neither letter nor surrounding whitespace is only subject to the
      decimal-comma step. */
  lemma NormTokenWithoutLetter(tok: string)
    requires 'd' !in tok && 'D' !in tok
    requires tok == [] || (!IsSpace(tok[0]) && !IsSpace(tok[|tok| - 1]))
    ensures NormToken(tok) == DecimalComma(tok)
  {
    assert Strip(tok) == tok by {
      StripUnchanged(tok);
    }
    assert RewriteFortranExponent(tok) == tok by {
      assert forall i :: !FortranExponentAt(tok, i);
    }
  }

  /** Worked case: a lower-case Fortran exponent becomes an upper-case `E`. */
  lemma NormTokenExampleExponent()
    ensures NormToken("1.5d+3") == "1.5E+3"
  {
    StripUnchanged("1.5d+3");
    ExampleExponentRewrite();
  }

  /** The rewriting steps of the worked case `1.5d+3`. */
  lemma ExampleExponentRewrite()
    ensures NormStripped("1.5d+3") == "1.5E+3"
  {
    assert ExponentDigitsFrom("1.5d+3", 5);
    NormStrippedExponent("1.5d+3", 2);
  }

  /** Worked case: the exponent digits may be decimal digits of any script, here
      ARABIC-INDIC DIGIT THREE. */
  lemma NormTokenExampleWideExponent()
    ensures NormToken("1d\U{0663}") == "1E\U{0663}"
  {
    StripUnchanged("1d\U{0663}");
    ExampleWideExponentRewrite();
  }

  /** The rewriting steps of the worked case `1d` + ARABIC-INDIC DIGIT THREE. */
  lemma ExampleWideExponentRewrite()
    ensures NormStripped("1d\U{0663}") == "1E\U{0663}"
  {
    assert ExponentDigitsFrom("1d\U{0663}", 2);
    NormStrippedExponent("1d\U{0663}", 0);
  }

  /** Worked case: a lone decimal comma becomes a point. */
  lemma NormTokenExampleComma()
    ensures NormToken("3,14") == "3.14"
  {
    StripUnchanged("3,14");
    ExampleCommaRewrite();
  }

  /** The rewriting steps of the worked case `3,14`. */
  lemma ExampleCommaRewrite()
    ensures NormStripped("3,14") == "3.14"
  {
    ExampleCommaNoExponent();
    ExampleCommaPoint();
  }

  /** `3,14` has no Fortran exponent to rewrite. */
  lemma ExampleCommaNoExponent()
    ensures RewriteFortranExponent("3,14") == "3,14"
  {
    assert forall i :: !FortranExponentAt("3,14", i);
  }

  /** The comma of `3,14` becomes a point. */
  lemma ExampleCommaPoint()
    ensures DecimalComma("3,14") == "3.14"
  {
    assert "3,14"[1] == ',';
    assert ReplaceChar("3,14", ',', '.') == "3.14";
  }

  /** Worked case: a comma beside a point is kept. */
  lemma NormTokenExampleCommaAndPoint()
    ensures NormToken("3,14.0") == "3,14.0"
  {
    NormTokenWithoutLetter("3,14.0");
    assert "3,14.0"[4] == '.';
  }

  /** Worked case: a `D` that does not open a trailing exponent is left alone. */
  lemma NormTokenExampleInnerLetter()
    ensures NormToken("HD2.0") == "HD2.0"
  {
    var t := "HD2.0";
    assert t[3] == '.';
    assert FortranExponent(t) == None;
    StripUnchanged(t);
  }

  // ---------------------------------------------------------------------------
  // The decimal-literal grammar and numeric lines
  // ---------------------------------------------------------------------------

  /** `t[lo..hi]` is all decimal digits (`\d`). */
  predicate DigitsIn(t: string, lo: int, hi: int) {
    0 <= lo <= hi <= |t| && forall k :: lo <= k < hi ==> IsDecimal(t[k])
  }

  /** `[+\-]?` matches `t[..i]`. */
  predicate SignPartTo(t: string, i: int) {
    i == 0 || (i == 1 && |t| > 0 && IsSign(t[0]))
  }

  /** `\d+(\.\d*)?|\.\d+` matches `t[i..j]`: digits, or a point with digits
      on at least one side of it. */
  predicate MantissaPart(t: string, i: int, j: int) {
    0 <= i <= j <= |t|
    && ((i < j && DigitsIn(t, i, j))
        || exists p :: i <= p < j && t[p] == '.' && DigitsIn(t, i, p) && DigitsIn(t, p + 1, j)
                       && (p > i || p + 1 < j))
  }

  /** `([eE][+\-]?\d+)?$` matches `t[j..]`. */
  predicate ExponentPartFrom(t: string, j: int) {
    j == |t|
    || (0 <= j && j + 1 < |t| && (t[j] == 'e' || t[j] == 'E')
        && ExponentDigitsFrom(t, if IsSign(t[j + 1]) then j + 2 else j + 1))
  }

  /** The decimal-literal pattern `^[+\-]?((\d+(\.\d*)?|\.\d+))([eE][+\-]?\d+)?$`,
      stated as a split of `t` into its three parts. */
  ghost predicate FloatGrammar(t: string) {
    exists i, j :: SignPartTo(t, i) && MantissaPart(t, i, j) && ExponentPartFrom(t, j)
  }

  /** The end of the run of decimal digits that starts at `k`. */
  function DigitsEnd(t: string, k: nat): (e: nat)
    requires k <= |t|
    ensures k <= e <= |t| && DigitsIn(t, k, e)
    ensures e < |t| ==> !IsDecimal(t[e])
    decreases |t| - k
  {
    if k < |t| && IsDecimal(t[k]) then DigitsEnd(t, k + 1) else k
  }

  /** The run of digits from `k` ends at `e` when the digits reach `e` and stop there. */
  lemma DigitsEndAt(t: string, k: nat, e: nat)
    requires k <= e <= |t| && DigitsIn(t, k, e)
    requires e < |t| ==> !IsDecimal(t[e])
    ensures DigitsEnd(t, k) == e
    decreases e - k
  {
    if k < e {
      DigitsEndAt(t, k + 1, e);
    }
  }

  /** Length of the sign the pattern takes at the start of `t`. */
  function SignEnd(t: string): nat {
    if |t| > 0 && IsSign(t[0]) then 1 else 0
  }

  /** Where the mantissa ends: after the leading digits, and after a point and the
      digits that follow it when there is one. */
  function MantissaEnd(t: string): (m: nat)
    ensures SignEnd(t) <= m <= |t|
  {
    var n := DigitsEnd(t, SignEnd(t));
    if n < |t| && t[n] == '.' then DigitsEnd(t, n + 1) else n
  }

  /** The decimal-literal pattern, matched left to right: an optional sign, the
      mantissa, then an exponent or nothing. */
  function MatchFloat(t: string): bool {
    var n := DigitsEnd(t, SignEnd(t));
    var m := MantissaEnd(t);
    (n > SignEnd(t) || m > n + 1) && ExponentPartFrom(t, m)
  }

  /** What the left-to-right match accepts is in the grammar. */
  lemma MatchFloatSound(t: string)
    requires MatchFloat(t)
    ensures FloatGrammar(t)
  {
    var i := SignEnd(t);
    var n := DigitsEnd(t, i);
    var m := MantissaEnd(t);
    if n < |t| && t[n] == '.' {
      assert MantissaPart(t, i, m);
    } else {
      assert MantissaPart(t, i, m);
    }
  }

  /** Every literal of the grammar is accepted by the left-to-right match. */
  lemma MatchFloatComplete(t: string, i: int, j: int)
    requires SignPartTo(t, i) && MantissaPart(t, i, j) && ExponentPartFrom(t, j)
    ensures MatchFloat(t)
  {
    assert j < |t| ==> t[j] == 'e' || t[j] == 'E';
    if i < j && DigitsIn(t, i, j) {
      assert i == SignEnd(t);
      DigitsEndAt(t, i, j);
    } else {
      var p :| i <= p < j && t[p] == '.' && DigitsIn(t, i, p) && DigitsIn(t, p + 1, j) && (p > i || p + 1 < j);
      assert i == SignEnd(t) by {
        assert i < |t| && (IsDecimal(t[i]) || t[i] == '.');
      }
      DigitsEndAt(t, i, p);
      DigitsEndAt(t, p + 1, j);
    }
  }

  /** The left-to-right match accepts exactly the literals of the grammar. */
  lemma MatchFloatIsGrammar(t: string)
    ensures MatchFloat(t) <==> FloatGrammar(t)
  {
    if MatchFloat(t) {
      MatchFloatSound(t);
    }
    if FloatGrammar(t) {
      var i, j :| SignPartTo(t, i) && MantissaPart(t, i, j) && ExponentPartFrom(t, j);
      MatchFloatComplete(t, i, j);
    }
  }

  /** The token has a point or an exponent letter. */
  predicate HasPointOrExponent(t: string) {
    '.' in t || 'e' in t || 'E' in t
  }

  /** `float_number`: the line has at least one token, and every token is a decimal
      literal with a point or an exponent. */
  function FloatLine(line: string): bool {
    var toks := Split(Strip(line));
    toks != [] && forall k :: 0 <= k < |toks| ==> MatchFloat(toks[k]) && HasPointOrExponent(toks[k])
  }

  /** A line is numeric exactly when it is not blank and each of its tokens is in the
      decimal-literal grammar and has a point or an exponent. */
  lemma FloatLineIsGrammar(line: string)
    ensures FloatLine(line) <==>
              !AllSpace(line)
              && forall t :: t in Split(Strip(line)) ==> FloatGrammar(t) && HasPointOrExponent(t)
  {
    BlankLineNoTokens(line);
    TokensInGrammar(Split(Strip(line)));
  }

  /** Every token is accepted by the matcher exactly when every token is in the grammar. */
  lemma TokensInGrammar(toks: seq<string>)
    ensures (forall k :: 0 <= k < |toks| ==> MatchFloat(toks[k]) && HasPointOrExponent(toks[k]))
            <==> (forall t :: t in toks ==> FloatGrammar(t) && HasPointOrExponent(t))
  {
    forall t | t in toks ensures MatchFloat(t) <==> FloatGrammar(t) {
      MatchFloatIsGrammar(t);
    }
  }

  /** A line has no tokens exactly when it is blank. */
  lemma BlankLineNoTokens(line: string)
    ensures Split(Strip(line)) == [] <==> AllSpace(line)
  {
    if AllSpace(line) {
      assert Strip(line) == [];
    }
  }

  /** A blank line is never numeric, and neither is a line with an integer token. */
  lemma FloatLineRejects(line: string)
    ensures AllSpace(line) ==> !FloatLine(line)
    ensures (exists k :: 0 <= k < |Split(Strip(line))| && AllDecimals(Split(Strip(line))[k])) ==> !FloatLine(line)
  {
    if AllSpace(line) {
      assert Strip(line) == [];
    }
    var toks := Split(Strip(line));
    if exists k :: 0 <= k < |toks| && AllDecimals(toks[k]) {
      var k :| 0 <= k < |toks| && AllDecimals(toks[k]);
      var t := toks[k];
      assert !HasPointOrExponent(t);
    }
  }
}
