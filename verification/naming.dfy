/**
  * The name of the report written for one series file: `comparacion_chu<N>.txt`
  * for a file named like `chu<N>.plt`, otherwise `comparacion_<stem>.txt`.
  */
module OutputNaming {
  import opened Wrappers
  import opened PyText

  const ReportPrefix := "comparacion_"
  const ReportSuffix := ".txt"

  /** Upper case of an ASCII lower-case letter; other characters are their own. */
  function Upper(c: char): char {
    if 'a' <= c <= 'z' then (c as int - 32) as char else c
  }

  /** `s` holds the lower-case `pattern` at position `p`, ignoring case. */
  predicate MatchesAt(s: string, p: nat, pattern: string) {
    p + |pattern| <= |s|
    && forall i :: 0 <= i < |pattern| ==> s[p + i] == pattern[i] || s[p + i] == Upper(pattern[i])
  }

  /** Where the series pattern `chu\s*([0-9]+)\.plt$` (ignoring case) sits in a name:
      `chu` from `start` to `gap`, whitespace up to `digits`, the series number up to
      `ext`, `.plt` up to `end`, then the end of the name or a final newline. */
  datatype ChuMatch = ChuMatch(start: nat, gap: nat, digits: nat, ext: nat, end: nat)

  predicate IsChuMatch(name: string, m: ChuMatch) {
    m.gap == m.start + 3 && m.gap <= m.digits < m.ext && m.end == m.ext + 4
    && (m.end == |name| || (m.end + 1 == |name| && name[m.end] == '\n'))
    && MatchesAt(name, m.start, "chu")
    && (forall i :: m.gap <= i < m.digits ==> IsSpace(name[i]))
    && (forall i :: m.digits <= i < m.ext ==> IsDigit(name[i]))
    && MatchesAt(name, m.ext, ".plt")
  }

  /** `m.group(1)`: the series number. */
  function SeriesNumber(name: string, m: ChuMatch): (n: string)
    requires IsChuMatch(name, m)
    ensures n != [] && AllDigits(n)
  {
    name[m.digits..m.ext]
  }

  /** `_NUM_CHU.search(name)`. The match has to end at the end of the name (or before
      a final newline), so it is read backwards: `.plt`, the run of digits before
      it, the run of whitespace before those, and `chu`. */
  function SearchChu(name: string): (r: Option<ChuMatch>)
    ensures r.Some? ==> IsChuMatch(name, r.value)
  {
    var e := if name != [] && name[|name| - 1] == '\n' then |name| - 1 else |name|;
    if e < 4 || !MatchesAt(name, e - 4, ".plt") then None
    else
      var q := e - 4 - DigitsBefore(name, e - 4);
      var g := q - SpaceBefore(name, q);
      if q == e - 4 || g < 3 || !MatchesAt(name, g - 3, "chu") then None
      else Some(ChuMatch(g - 3, g, q, e - 4, e))
  }

  /** The pattern occurs in a name at most once, and the search finds it: the series
      number it reports is the whole run of digits. */
  lemma {:induction false} SearchChuFinds(name: string, m: ChuMatch)
    requires IsChuMatch(name, m)
    ensures SearchChu(name) == Some(m)
  {
    ChuMatchEnds(name, m);
    ChuMatchDigits(name, m);
    ChuMatchGap(name, m);
    SearchChuReads(name, m);
  }

  /** The search, given where its backward reading stops, returns those positions. */
  lemma SearchChuReads(name: string, m: ChuMatch)
    requires m.gap == m.start + 3 && m.gap <= m.digits < m.ext && m.end == m.ext + 4
    requires (if name != [] && name[|name| - 1] == '\n' then |name| - 1 else |name|) == m.end
    requires m.end <= |name|
    requires DigitsBefore(name, m.ext) == m.ext - m.digits
    requires SpaceBefore(name, m.digits) == m.digits - m.gap
    requires MatchesAt(name, m.ext, ".plt") && MatchesAt(name, m.start, "chu")
    ensures SearchChu(name) == Some(m)
  {
  }

  /** A match ends where the search starts reading. */
  lemma ChuMatchEnds(name: string, m: ChuMatch)
    requires IsChuMatch(name, m)
    ensures (if name != [] && name[|name| - 1] == '\n' then |name| - 1 else |name|) == m.end
  {
    MatchesAtChar(name, m.ext, ".plt", 3);
    assert Upper('t') == 'T';
  }

  /** The series number of a match is the whole run of digits before `.plt`. */
  lemma ChuMatchDigits(name: string, m: ChuMatch)
    requires IsChuMatch(name, m)
    ensures DigitsBefore(name, m.ext) == m.ext - m.digits
  {
    MatchesAtChar(name, m.start, "chu", 2);
    assert Upper('u') == 'U';
    assert !IsDigit(name[m.digits - 1]) by {
      if m.digits > m.gap {
        assert IsSpace(name[m.digits - 1]);
      }
    }
    DigitsBeforeAt(name, m.ext, m.digits);
  }

  /** The whitespace of a match is the whole run of whitespace before its digits. */
  lemma ChuMatchGap(name: string, m: ChuMatch)
    requires IsChuMatch(name, m)
    ensures SpaceBefore(name, m.digits) == m.digits - m.gap
  {
    MatchesAtChar(name, m.start, "chu", 2);
    assert Upper('u') == 'U';
    SpaceBeforeAt(name, m.digits, m.gap);
  }

  /** One character of a case-insensitive match. */
  lemma MatchesAtChar(s: string, p: nat, pattern: string, i: nat)
    requires MatchesAt(s, p, pattern) && i < |pattern|
    ensures s[p + i] == pattern[i] || s[p + i] == Upper(pattern[i])
  {
  }

  predicate IsSeparator(c: char) {
    c == '/' || c == '\\'
  }

  /** Index of the last path separator of `p`, or -1. */
  function LastSeparator(p: string): (k: int)
    ensures -1 <= k < |p|
    ensures k >= 0 ==> IsSeparator(p[k])
    ensures forall i :: k < i < |p| ==> !IsSeparator(p[i])
  {
    var a := RFind(p, '/');
    var b := RFind(p, '\\');
    if a > b then a else b
  }

  /** `os.path.basename(p)`: what follows the last separator. */
  function Basename(p: string): (b: string)
    ensures |b| <= |p| && b == p[|p| - |b|..]
    ensures forall i :: 0 <= i < |b| ==> !IsSeparator(b[i])
    ensures |b| < |p| ==> IsSeparator(p[|p| - |b| - 1])
  {
    p[LastSeparator(p) + 1..]
  }

  /** Every character of `s` before position `k` is a point. */
  predicate PointsBefore(s: string, k: nat)
    requires k <= |s|
  {
    forall i :: 0 <= i < k ==> s[i] == '.'
  }

  /** `os.path.splitext(name)[0]` for a name without separators: the name without its
      last extension, which starts at its last point. A point that only has points
      before it (a hidden file such as `.plt`) does not start an extension. */
  function Stem(name: string): (r: string)
    ensures r <= name
    ensures |r| < |name| ==>
              name[|r|] == '.' && !PointsBefore(name, |r|)
              && forall i :: |r| < i < |name| ==> name[i] != '.'
    ensures |r| == |name| ==> forall i :: 0 <= i < |name| && name[i] == '.' ==> PointsBefore(name, i)
  {
    var d := RFind(name, '.');
    if d >= 0 && !PointsBefore(name, d) then name[..d]
    else name
  }

  /** The middle of the report name for a name without the series pattern: its file
      name without directory and last extension, spaces turned into underscores. */
  function OtherMiddle(name: string): (middle: string)
    ensures ' ' !in middle && forall i :: 0 <= i < |middle| ==> !IsSeparator(middle[i])
  {
    var base := Basename(name);
    var stem := Stem(base);
    var middle := ReplaceChar(stem, ' ', '_');
    assert forall i :: 0 <= i < |middle| ==> !IsSeparator(middle[i]) && middle[i] != ' ' by {
      forall i | 0 <= i < |middle| ensures !IsSeparator(middle[i]) && middle[i] != ' ' {
        assert stem[i] == base[i];
      }
    }
    middle
  }

  /** `nombre_salida(name)`: the report name for a series file. */
  function OutputName(name: string): (r: string)
    ensures ReportPrefix <= r && |r| >= |ReportPrefix| + |ReportSuffix|
    ensures r[|r| - |ReportSuffix|..] == ReportSuffix
    ensures SearchChu(name).Some? ==> r == ReportPrefix + "chu" + SeriesNumber(name, SearchChu(name).value) + ReportSuffix
    ensures SearchChu(name).None? ==>
              var middle := r[|ReportPrefix|..|r| - |ReportSuffix|];
              ' ' !in middle && forall i :: 0 <= i < |middle| ==> !IsSeparator(middle[i])
  {
    var middle := match SearchChu(name)
      case Some(m) => "chu" + SeriesNumber(name, m)
      case None => OtherMiddle(name);
    ReportFrames(middle);
    ReportPrefix + middle + ReportSuffix
  }

  /** A report name holds its middle between the prefix and the suffix. */
  lemma ReportFrames(middle: string)
    ensures var r := ReportPrefix + middle + ReportSuffix;
            ReportPrefix <= r && |r| == |ReportPrefix| + |middle| + |ReportSuffix|
            && r[|r| - |ReportSuffix|..] == ReportSuffix
            && r[|ReportPrefix|..|r| - |ReportSuffix|] == middle
  {
    var r := ReportPrefix + middle + ReportSuffix;
    assert r[|ReportPrefix|..|r| - |ReportSuffix|] == middle;
    assert r[|r| - |ReportSuffix|..] == ReportSuffix;
  }

  /** A name that carries the series pattern is reported under its series number,
      whatever the case of its letters and the whitespace before the number. */
  lemma {:induction false} OutputNameOfSeries(name: string, m: ChuMatch)
    requires IsChuMatch(name, m)
    ensures OutputName(name) == "comparacion_chu" + name[m.digits..m.ext] + ".txt"
  {
    SearchChuFinds(name, m);
  }

  /** `chu`, any whitespace, a series number and `.plt` make a series name, reported
      under its number: `chu<N>.plt` and `chu <N>.plt` get the same report name. */
  lemma {:induction false} OutputNameOfSpelling(gap: string, number: string)
    requires AllSpace(gap) && number != [] && AllDigits(number)
    ensures OutputName("chu" + gap + number + ".plt") == "comparacion_chu" + number + ".txt"
  {
    var name := "chu" + gap + number + ".plt";
    var g, n := |gap|, |number|;
    var m := ChuMatch(0, 3, 3 + g, 3 + g + n, 7 + g + n);
    assert name[3 + g..3 + g + n] == number;
    assert IsChuMatch(name, m) by {
      assert forall i :: 0 <= i < 3 ==> name[i] == "chu"[i];
      assert forall i :: 0 <= i < g ==> name[3 + i] == gap[i];
      assert forall i :: 0 <= i < n ==> name[3 + g + i] == number[i];
      assert forall i :: 0 <= i < 4 ==> name[3 + g + n + i] == ".plt"[i];
    }
    OutputNameOfSeries(name, m);
  }

  /** Any other name is reported under its file name without directory and last
      extension, its spaces turned into underscores. */
  lemma {:induction false} OutputNameOfOther(name: string)
    requires SearchChu(name).None?
    ensures OutputName(name) == "comparacion_" + ReplaceChar(Stem(Basename(name)), ' ', '_') + ".txt"
  {
  }
}
