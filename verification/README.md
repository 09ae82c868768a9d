# Verified model of the series comparison pipeline (`main.py`)

`main.py` compares the numbers of a baseline series file (folder A) with those of a
candidate file (folder B). It reads every number after a two-line header and cuts
`#`/`!` comments. It normalises Fortran `D` exponents and decimal commas, pairs the
numbers by position, computes absolute and relative errors, and names the report
after the series number of the file (`chu12.plt` gives `comparacion_chu12.txt`).

This project models that core in Dafny and proves what each piece promises.

- `wrappers.dfy` (`Wrappers`): the `Option` type. A token the number parser rejects
  is `None`, which stands for Python's `ValueError`.
- `pytext.dfy` (`PyText`): the Python string built-ins the code relies on.
  - `str.isspace`, `str.isdecimal`, `find`, `rfind`, `strip`, `split()` and `replace`.
  - Whitespace is Python's `isspace` set, which is also the `\s` of its regular
    expressions on `str`.
- `tokens.dfy` (`Tokens`):
  - `_strip_comment` as a method with a loop, proved against `CommentStart`.
  - `_norm_token`, where the substitution `([0-9])([dD])([+\-]?\d+)$` is read
    backwards from the end of the token.
  - The `_FLOAT` grammar, both as a split of the token into sign, mantissa and
    exponent and as a left-to-right matcher, proved equal.
  - `float_number`.
- `extraction.dfy` (`FlatExtraction`): the line loop of `leer_todos_los_numeros`.
  - It works on the list of lines of the file. The parser `float` is a parameter
    of type `string -> Option<real>`.
  - The nested loops are methods proved against the functions `LinesNumbers` and
    `TokensNumbers`.
- `errors.dfy` (`ErrorCalc`):
  - `_errores` over exact reals, with an explicit `PosInf`.
  - `comparar_tuplas_planas` as a method whose rows are `Row(i, tA[i], tB[i])`.
- `naming.dfy` (`OutputNaming`): `nombre_salida`.
  - The pattern `chu\s*([0-9]+)\.plt$` (ignoring case) is located by position.
    The search finds every occurrence, so it is unique.
  - `os.path.basename` and `os.path.splitext` are string functions.

Notes on how `main.py` behaves:

- `_norm_token` writes an upper-case `E` for both `d` and `D` (main.py:18). `1.5d+3`
  becomes `1.5E+3`, not `1.5e+3`.
- `float_number` requires EVERY token to contain a point or an exponent letter
  (main.py:27), not only one token of the line.
- The comment cut is sequential, first at `#` and then at `!` (main.py:9-12). The
  model proves that this is the text before the first marker of either kind.
- `\d` in the patterns at main.py:4 and main.py:18 is Python's Unicode decimal digit,
  the class of `str.isdecimal`, so `1d\u0663` (ARABIC-INDIC DIGIT THREE) becomes
  `1E\u0663`. The `[0-9]` of main.py:18 and main.py:110 is ASCII only.
- `_errores` gives a zero relative error near zero only when the baseline is within
  `eps` of zero AND the two values are within `eps` of each other (main.py:59-63).
  Its docstring (main.py:56) says "both ~0 -> 0", which is looser: `a = 1e-15`,
  `b = -1e-15` gives `inf`.
- Every file is read as one flat stream of numbers: line boundaries and columns play
  no part in which numbers are paired.

## Model

| member | source | states |
|---|---|---|
| PyText.IsSpace | main.py:41 | defines Python's `str.isspace` set, the whitespace of `strip()` and `split()` (main.py:17, 24, 41, 44) and the `\s` of the pattern at main.py:110 |
| PyText.IsDecimal | main.py:18 | defines `\d` on `str` (the class of `str.isdecimal`) as the ASCII digits, U+0660-U+0669 and the other 62 runs of Unicode 15.0 category Nd, for main.py:4 and main.py:18 |
| PyText.Find | main.py:10 | `s.find(c)`: -1 exactly when `c` is absent, else the index of the first `c` (no `c` before it) |
| PyText.RFind | main.py:123 | `s.rfind(c)`: -1 exactly when `c` is absent, else an index holding `c` with no `c` after it |
| PyText.Strip | main.py:41 | `s.strip()`: empty exactly when `s` is all whitespace, otherwise the slice of `s` between its leading and trailing whitespace, with no whitespace at either end |
| PyText.StripUnchanged | main.py:17 | stripping text with no whitespace at either end leaves it unchanged |
| PyText.Split | main.py:44 | `s.split()`: no tokens exactly when `s` is all whitespace; every token is non-empty and has no whitespace |
| PyText.SplitDecomposes | main.py:44 | the tokens of `s.split()`, with runs of whitespace before, between and after them (non-empty between two tokens), make up exactly `s`, in order |
| PyText.SplitUnique | main.py:44 | any cutting of a text into non-empty whitespace-free words separated by non-empty whitespace gives back `split()`'s tokens: they are the maximal runs of non-whitespace |
| PyText.TrailingDecimals | main.py:18 | length of the maximal run of `\d` characters at the end of the text |
| PyText.ReplaceChar | main.py:20 | `replace` of one character: same length, each `x` becomes `y`, every other character kept |
| Tokens.CommentStart | main.py:7-13 | index of the first `#` or `!`: no marker before it, a marker at it unless it is the end of the line |
| Tokens.CutAt | main.py:10-12 | one cut: a prefix of the line without the mark, the whole line when the mark is absent, ending just before the first mark otherwise |
| Tokens.CutAll | main.py:9-12 | the cuts at the marks in turn: a prefix of the line holding none of the marks |
| Tokens.CutAllIsCommentStart | main.py:9-12 | cutting at `#` and then at `!` keeps exactly the text before the first marker of either kind |
| Tokens.StripComment | main.py:7-13 | the loop returns the text before the first marker; it is a prefix of the line with neither `#` nor `!`; text before the first `#` is kept whole when it has no `!`; a line without markers is returned unchanged |
| Tokens.FortranExponentAt | main.py:18 | defines an occurrence at `i` of `[0-9][dD][+-]?\d+` that reaches the end of the token; `FortranExponentFinds` states what the search knows of it |
| Tokens.FortranExponent | main.py:18 | reading from the end: what it reports is an occurrence of `[0-9][dD][+-]?\d+` reaching the end of the token, with an ASCII digit before the letter and decimal digits of any script after it |
| Tokens.FortranExponentFinds | main.py:18 | every occurrence of the anchored exponent is the one the search finds, so there is at most one |
| Tokens.RewriteFortranExponent | main.py:18 | `re.sub`: the letter of the trailing exponent becomes `E` and nothing else changes; with no such exponent the token is unchanged |
| Tokens.RewriteFortranExponentAt | main.py:18 | position by position, the substitution writes `E` only over the exponent letter |
| Tokens.RewriteFortranExponentKeeps | main.py:18-19 | the substitution neither adds nor removes any character other than `d`, `D`, `E`, so the comma test sees the same commas and points |
| Tokens.DecimalComma | main.py:19-20 | the decimal-comma step keeps the length; afterwards a comma appears only in a token that also has a point; a token with a point or without a comma is left unchanged |
| Tokens.NormToken | main.py:15-21 | the normalised token has the length of the stripped token |
| Tokens.NormStripped | main.py:18-20 | the two rewriting steps keep the length of the token |
| Tokens.NormStrippedChars | main.py:15-21 | each normalised character is the exponent's `E`, a point for a comma of a token with no point, or the stripped token's own character |
| Tokens.NormTokenExponent | main.py:17-18 | a comma-free token ending in a Fortran exponent has exactly that letter turned into `E` |
| Tokens.NormStrippedExponent | main.py:18 | the same, for the stripped token |
| Tokens.NormTokenKeepsCommas | main.py:19 | a token that has a point keeps every comma |
| Tokens.NormTokenCommas | main.py:19-20 | for a stripped token with a comma and no point, every comma position holds a point, and the result has no comma and has a point |
| Tokens.NormStrippedCommas | main.py:19-20 | the same, stated for the stripped token |
| Tokens.NormalisedExponentChars | main.py:18 | a normalised token showing an exponent agrees with its source everywhere in it but at the letter |
| Tokens.NormalisedNoExponent | main.py:18 | a normalised token has no trailing Fortran exponent left |
| Tokens.NormalisedCommaHasPoint | main.py:19-20 | a normalised token with a comma also has a point |
| Tokens.NormalisedIsFixed | main.py:17-20 | a normalised token is left unchanged by both rewriting steps and has no whitespace at its ends |
| Tokens.NormTokenIdempotent | main.py:15-21 | normalising twice gives the same token as normalising once |
| Tokens.NormTokenWithoutLetter | main.py:18-20 | without `d`/`D` only the decimal-comma step can change a stripped token |
| Tokens.NormTokenExampleExponent | main.py:18 | `1.5d+3` normalises to `1.5E+3` |
| Tokens.NormTokenExampleWideExponent | main.py:18 | `1d\u0663` normalises to `1E\u0663`: the exponent digits may be decimal digits of any script |
| Tokens.NormTokenExampleComma | main.py:19-20 | `3,14` normalises to `3.14` |
| Tokens.NormTokenExampleCommaAndPoint | main.py:19 | `3,14.0` is left unchanged |
| Tokens.NormTokenExampleInnerLetter | main.py:18 | `HD2.0` is left unchanged: a `D` not opening a trailing exponent stays |
| Tokens.DigitsEnd | main.py:4 | the end of the maximal run of digits from a position |
| Tokens.FloatGrammar | main.py:4 | defines `_FLOAT`: an optional sign, a mantissa `\d+(\.\d*)?` or `\.\d+`, an optional exponent `[eE][+-]?\d+`, covering the whole token (which holds no newline, see Left out); `MatchFloatIsGrammar` ties it to the matcher |
| Tokens.MatchFloat | main.py:4 | defines `_FLOAT.match` as a left-to-right reading of sign, mantissa and exponent; `MatchFloatSound` and `MatchFloatComplete` prove it accepts exactly `FloatGrammar` |
| Tokens.MatchFloatSound | main.py:4 | whatever the left-to-right matcher accepts is in the `_FLOAT` grammar |
| Tokens.MatchFloatComplete | main.py:4 | every literal of the `_FLOAT` grammar is accepted by the matcher |
| Tokens.MatchFloatIsGrammar | main.py:4 | the matcher accepts exactly the grammar |
| Tokens.TokensInGrammar | main.py:27 | checking every token with the matcher is the same as checking every token against the `_FLOAT` grammar |
| Tokens.HasPointOrExponent | main.py:27 | defines `'.' in t or 'e' in t.lower()`: a point, `e` or `E` (no other character lower-cases to a text holding `e`); `FloatLineIsGrammar` states its use |
| Tokens.FloatLine | main.py:23-27 | defines `float_number` over the tokens of the stripped line; `FloatLineIsGrammar` and `FloatLineRejects` state what it accepts |
| Tokens.BlankLineNoTokens | main.py:24-26 | a line has no tokens exactly when it is blank |
| Tokens.FloatLineIsGrammar | main.py:23-27 | `float_number` holds exactly when the line is not blank and every token is in the `_FLOAT` grammar and has a point or an `e`/`E` |
| Tokens.FloatLineRejects | main.py:25-27 | a blank line, or a line with an all-digit token, is not a float line |
| FlatExtraction.ReadAllNumbers | main.py:39-49 | the line loop returns the numbers of the lines after the header, line after line (`LinesNumbers`); blank lines are skipped |
| FlatExtraction.AppendTokenNumbers | main.py:44-48 | the token loop appends the number of each token the parser accepts once normalised, in order; rejected tokens are skipped |
| FlatExtraction.AfterHeader | main.py:39 | defines `lineas[2:]`: nothing for a file of two lines or fewer; `HeaderIgnored` states that the header lines contribute nothing |
| FlatExtraction.LineTokens | main.py:41-44 | defines the tokens of a line: its text before the first comment marker, stripped and split at whitespace; `BlankLineHasNoTokens` states the blank-line case |
| FlatExtraction.Reader | main.py:45-46 | defines how a token is read: normalised by `_norm_token`, then handed to the parser; `ReaderNumber` states it |
| FlatExtraction.TokensNumbers | main.py:44-48 | defines the numbers of a token list, token by token; `TokensNumbersAppend`, `TokensNumbersBound`, `TokensNumbersMembers` and `TokensNumbersAllParse` state its properties |
| FlatExtraction.LinesNumbers | main.py:40-48 | defines the numbers of a list of lines, line by line; `LinesNumbersAreTokenStream` states that it is the number stream of all their tokens |
| FlatExtraction.TokensNumbersNext | main.py:44-48 | proof step of the token loop: the numbers of one more token are those of the shorter list followed by that token's number, if it has one |
| FlatExtraction.ReaderNumber | main.py:46 | proof step of the token loop: the number `Reader` gives a token is the parser's answer for the normalised token, when it has one |
| FlatExtraction.LinesNumbersNext | main.py:40-48 | proof step of the line loop: the numbers of one more line are those of the shorter list followed by that line's numbers |
| FlatExtraction.TokensNumbersAppend | main.py:44-48 | reading two token lists in turn gives the numbers of each, in order |
| FlatExtraction.LinesNumbersAreTokenStream | main.py:40-48 | reading line by line gives the numbers of the whole token stream: line boundaries do not matter |
| FlatExtraction.TokensNumbersBound | main.py:44-48 | there are never more numbers than tokens |
| FlatExtraction.TokensNumbersMembers | main.py:45-48 | a number is in the output exactly when some token parses to it once normalised |
| FlatExtraction.TokensNumbersAllParse | main.py:44-46 | when every token parses, the output is the parsed tokens one for one, in order |
| FlatExtraction.BlankLineHasNoTokens | main.py:41-43 | a line that is blank once its comment is cut contributes nothing |
| FlatExtraction.HeaderIgnored | main.py:39 | the two header lines contribute nothing, whatever they hold |
| FlatExtraction.FileNumbersBound | main.py:39-49 | a file yields at most as many numbers as its body has tokens |
| ErrorCalc.Abs | main.py:58-59 | `abs`: non-negative, the value or its negation |
| ErrorCalc.Errors | main.py:53-64 | absolute error `abs(a-b)`, zero exactly when `a == b`; relative error infinite exactly when `abs(a) <= eps` and the absolute error exceeds `eps`, otherwise finite and non-negative; zero when `abs(a) <= eps` and the absolute error is at most `eps` |
| ErrorCalc.RelErrorIsRatio | main.py:60-61 | for `abs(a) > eps` the relative error is finite and times `abs(a)` gives the absolute error |
| ErrorCalc.ErrorsOfEqual | main.py:53-64 | equal values have errors `(0, 0)` |
| ErrorCalc.RelErrorZero | main.py:58-63 | the relative error is zero exactly when the values are equal, or `abs(a) <= eps` and `abs(a-b) <= eps` |
| ErrorCalc.RelErrorNearZeroApart | main.py:56-63 | `a = eps`, `b = -eps`: both values are within `eps` of zero, yet the relative error is infinite |
| ErrorCalc.Row | main.py:76-83 | the row for position `i` holds `i`, the two values and their errors |
| ErrorCalc.CompareFlat | main.py:66-84 | exactly `min(len(tA), len(tB))` rows; row `i` is `Row(i, tA[i], tB[i])`; values past the shorter length are ignored |
| OutputNaming.IsChuMatch | main.py:110 | defines an occurrence of `chu\s*([0-9]+)\.plt$` ignoring case: `chu`, a run of whitespace, a run of ASCII digits and `.plt`, ending at the end of the name or before a final newline; `SearchChu` and `SearchChuFinds` state the search for it |
| OutputNaming.SeriesNumber | main.py:122 | `m.group(1)` is a non-empty run of digits |
| OutputNaming.SearchChu | main.py:110-120 | what the search reports is an occurrence of `chu\s*([0-9]+)\.plt$`, ignoring case, ending at the end of the name or before a final newline |
| OutputNaming.SearchChuFinds | main.py:110-120 | every occurrence of the pattern is the one the search reports, so it finds the pattern whenever the name has it |
| OutputNaming.SearchChuReads | main.py:110-120 | given where its backward reading stops, the search returns those positions |
| OutputNaming.ChuMatchEnds | main.py:110 | an occurrence ends at the end of the name, or before a final newline |
| OutputNaming.ChuMatchDigits | main.py:110 | the series number of an occurrence is the whole run of digits before `.plt` |
| OutputNaming.ChuMatchGap | main.py:110 | the whitespace of an occurrence is the whole run of whitespace before its digits |
| OutputNaming.MatchesAtChar | main.py:110 | proof step for the search: one character of a case-insensitive match is the pattern's own or its upper case |
| OutputNaming.LastSeparator | main.py:123 | index of the last `/` or `\`, or -1; none after it |
| OutputNaming.Basename | main.py:123 | `os.path.basename`: the suffix after the last separator, with no separator in it |
| OutputNaming.Stem | main.py:123 | `os.path.splitext(...)[0]`: a prefix of the name; when shorter, it ends at the last point, which has a non-point before it; when whole, every point has only points before it |
| OutputNaming.OtherMiddle | main.py:123 | the middle of a non-series report name has no space and no separator |
| OutputNaming.OutputName | main.py:119-124 | always `comparacion_` + middle + `.txt`; for a series name the middle is `chu` and its series number; otherwise it has no space and no separator |
| OutputNaming.ReportFrames | main.py:122-124 | a report name holds its middle between `comparacion_` and `.txt` |
| OutputNaming.OutputNameOfSeries | main.py:120-122 | a name with the series pattern is reported as `comparacion_chu<N>.txt`, whatever its letter case and the whitespace before the number |
| OutputNaming.OutputNameOfSpelling | main.py:119-122 | `chu<N>.plt`, `chu <N>.plt` and any other whitespace between give the same report name |
| OutputNaming.OutputNameOfOther | main.py:123-124 | the other branch, as a proof step: a name without the series pattern gives `comparacion_` + its base name without last extension, spaces as underscores, + `.txt` |

## Left out

- File access is not modelled. This covers `open`/`readlines` (main.py:37-38), report writing, `os.makedirs`, and `buscar_variantes`, which probes the file system with `os.path.exists`. `ReadAllNumbers` takes the list of lines of the file.
- Python's `float` is not modelled. `ReadAllNumbers` takes it as the parameter `parse`, and `None` stands for `ValueError`. That `float` accepts more than `_FLOAT` (`nan`, `inf`, `1_0`) lies outside the model.
- IEEE floating point is not modelled. `ErrorCalc.Errors` works on exact reals with a separate `PosInf`, so rounding and NaN propagation are not modelled.
- ErrorCalc.Errors: `eps` is fixed at its default `1e-15`, the only value any caller uses.
- `formatear_txt_detalle` (main.py:88-108) is presentation and relies on `.6e` float formatting.
- `comparar_carpeta_a_vs_b`, the `print` logging and the `__main__` driver (main.py:129-162) are orchestration over files.
- The patterns at main.py:4 and main.py:18 are modelled without the final-newline case of `$`, which also matches just before a final `\n`. That case cannot arise there: `_FLOAT` is only applied to `split()` tokens and the substitution only to a stripped token, neither of which holds a newline. The pattern at main.py:110, applied to a raw name, keeps that case.
- PyText.IsDecimal: `\d` follows the decimal digits of Unicode 15.0, the table of Python 3.12. Python versions built on other Unicode tables are not modelled.
- OutputNaming.SearchChu: `[0-9]` and the letters are matched as in the pattern. Unicode case folding beyond ASCII is not modelled, and it has no effect on the letters of `chu` and `.plt`.
- OutputNaming.Basename: `/` and `\` are separators, as on Windows. Drive letters and UNC prefixes are not split off.
- OutputNaming.Stem: it equals `splitext(...)[0]` only on names without separators. That is what `nombre_salida` passes it, since it is applied to a base name.
- The regular-expression engine itself is replaced by hand-written searches. Those searches are proved equal to the patterns at main.py:4 (on text without a newline, as above) and main.py:110. For the substitution at main.py:18, `FortranExponentFinds` proves that the backward reading finds every end-anchored occurrence, and `RewriteFortranExponent` states that only the letter of that occurrence changes.
