/**
  * Flat-scalar extraction: every number of a baseline or candidate file, after
  * its two header lines, in file order. The file arrives as its list of lines
  * and the number parser (Python's `float`) as a partial function.
  */
module FlatExtraction {
  import opened Wrappers
  import opened PyText
  import opened Tokens

  /** Number of header lines skipped at the top of a file. */
  const HeaderLines: nat := 2

  /** `lines[2:]`: what follows the header, empty when the file is no longer than it. */
  function AfterHeader(lines: seq<string>): seq<string> {
    if |lines| <= HeaderLines then [] else lines[HeaderLines..]
  }

  /** The tokens of one line: its text before any comment, stripped and split at whitespace. */
  function LineTokens(line: string): seq<string> {
    Split(Strip(line[..CommentStart(line)]))
  }

  /** How one token is read: normalised, then handed to the parser. */
  function Reader(parse: string -> Option<real>): string -> Option<real> {
    tok => parse(NormToken(tok))
  }

  /** The number `read` gets from one token, as a list of zero or one numbers. */
  function TokenNumber(tok: string, read: string -> Option<real>): seq<real> {
    match read(tok)
    case Some(x) => [x]
    case None => []
  }

  /** The numbers `read` gets from `toks`, in order; tokens it rejects are skipped. */
  function TokensNumbers(toks: seq<string>, read: string -> Option<real>): seq<real> {
    if toks == [] then []
    else TokensNumbers(toks[..|toks| - 1], read) + TokenNumber(toks[|toks| - 1], read)
  }

  /** The numbers read from each line of `lines`, line after line. */
  function LinesNumbers(lines: seq<string>, parse: string -> Option<real>): seq<real> {
    if lines == [] then []
    else LinesNumbers(lines[..|lines| - 1], parse) + TokensNumbers(LineTokens(lines[|lines| - 1]), Reader(parse))
  }

  /** All tokens of `lines`, line after line. */
  function AllTokens(lines: seq<string>): seq<string> {
    if lines == [] then [] else AllTokens(lines[..|lines| - 1]) + LineTokens(lines[|lines| - 1])
  }

  /** `leer_todos_los_numeros` once the file is read: skip the header, cut comments,
      skip blank lines, and append the number of every token that parses once
      normalised. */
  method ReadAllNumbers(lines: seq<string>, parse: string -> Option<real>) returns (nums: seq<real>)
    ensures nums == LinesNumbers(AfterHeader(lines), parse)
  {
    nums := [];
    var body := AfterHeader(lines);
    for li := 0 to |body|
      invariant nums == LinesNumbers(body[..li], parse)
    {
      var line := body[li];
      LinesNumbersNext(body, li, parse);
      var s := StripComment(line);
      s := Strip(s);
      if s == [] {
        assert LineTokens(line) == [];
        continue;
      }
      nums := AppendTokenNumbers(nums, Split(s), parse);
    }
    assert body[..|body|] == body;
  }

  /** The token loop of `leer_todos_los_numeros`: append to `nums` the number of each
      token of one line that parses once normalised; the parser's `ValueError`
      (here `None`) skips the token. */
  method AppendTokenNumbers(nums0: seq<real>, toks: seq<string>, parse: string -> Option<real>)
    returns (nums: seq<real>)
    ensures nums == nums0 + TokensNumbers(toks, Reader(parse))
  {
    nums := nums0;
    for ti := 0 to |toks|
      invariant nums == nums0 + TokensNumbers(toks[..ti], Reader(parse))
    {
      var v := parse(NormToken(toks[ti]));
      TokensNumbersNext(toks, ti, Reader(parse));
      ReaderNumber(toks[ti], parse, v);
      if v.Some? {
        nums := nums + [v.value];
      }
    }
    TokensNumbersWhole(toks, Reader(parse));
  }

  /** Reading one more token appends its number, if it has one. */
  lemma TokensNumbersNext(toks: seq<string>, k: nat, read: string -> Option<real>)
    requires k < |toks|
    ensures TokensNumbers(toks[..k + 1], read) == TokensNumbers(toks[..k], read) + TokenNumber(toks[k], read)
  {
    assert toks[..k + 1][..k] == toks[..k];
  }

  /** The reader's number for a token is the parser's answer for the normalised token. */
  lemma ReaderNumber(tok: string, parse: string -> Option<real>, v: Option<real>)
    requires v == parse(NormToken(tok))
    ensures TokenNumber(tok, Reader(parse)) == if v.Some? then [v.value] else []
  {
  }

  /** Reading every token of a list is reading the list. */
  lemma TokensNumbersWhole(toks: seq<string>, read: string -> Option<real>)
    ensures TokensNumbers(toks[..|toks|], read) == TokensNumbers(toks, read)
  {
    assert toks[..|toks|] == toks;
  }

  /** Reading one more line appends that line's numbers. */
  lemma LinesNumbersNext(lines: seq<string>, k: nat, parse: string -> Option<real>)
    requires k < |lines|
    ensures LinesNumbers(lines[..k + 1], parse) == LinesNumbers(lines[..k], parse) + TokensNumbers(LineTokens(lines[k]), Reader(parse))
  {
    assert lines[..k + 1][..k] == lines[..k];
  }

  /** Reading two token lists one after the other gives the numbers of each, in order. */
  lemma {:induction false} TokensNumbersAppend(a: seq<string>, b: seq<string>, read: string -> Option<real>)
    ensures TokensNumbers(a + b, read) == TokensNumbers(a, read) + TokensNumbers(b, read)
    decreases |b|
  {
    if b != [] {
      var c := b[..|b| - 1];
      assert (a + b)[..|a + b| - 1] == a + c;
      TokensNumbersAppend(a, c, read);
    } else {
      assert a + b == a;
    }
  }

  /** Reading the file line by line gives the same numbers as reading all of its
      tokens in one stream: line boundaries do not matter. */
  lemma {:induction false} LinesNumbersAreTokenStream(lines: seq<string>, parse: string -> Option<real>)
    ensures LinesNumbers(lines, parse) == TokensNumbers(AllTokens(lines), Reader(parse))
    decreases |lines|
  {
    if lines != [] {
      var init := lines[..|lines| - 1];
      LinesNumbersAreTokenStream(init, parse);
      TokensNumbersAppend(AllTokens(init), LineTokens(lines[|lines| - 1]), Reader(parse));
    }
  }

  /** There are never more numbers than tokens. */
  lemma {:induction false} TokensNumbersBound(toks: seq<string>, read: string -> Option<real>)
    ensures |TokensNumbers(toks, read)| <= |toks|
    decreases |toks|
  {
    if toks != [] {
      TokensNumbersBound(toks[..|toks| - 1], read);
    }
  }

  /** A number is read exactly when some token parses to it once normalised: tokens
      the parser rejects are dropped, nothing else is. */
  lemma {:induction false} TokensNumbersMembers(toks: seq<string>, read: string -> Option<real>, x: real)
    ensures x in TokensNumbers(toks, read) <==>
              exists k :: 0 <= k < |toks| && read(toks[k]) == Some(x)
    decreases |toks|
  {
    if toks != [] {
      var init := toks[..|toks| - 1];
      TokensNumbersMembers(init, read, x);
      if exists k :: 0 <= k < |init| && read(init[k]) == Some(x) {
        var k :| 0 <= k < |init| && read(init[k]) == Some(x);
        assert toks[k] == init[k];
      }
      if exists k :: 0 <= k < |toks| && read(toks[k]) == Some(x) {
        var k :| 0 <= k < |toks| && read(toks[k]) == Some(x);
        if k < |init| {
          assert init[k] == toks[k];
        }
      }
    }
  }

  /** When every token parses, the numbers are the parsed tokens one for one, in order. */
  lemma {:induction false} TokensNumbersAllParse(toks: seq<string>, read: string -> Option<real>)
    requires forall k :: 0 <= k < |toks| ==> read(toks[k]).Some?
    ensures |TokensNumbers(toks, read)| == |toks|
    ensures forall k :: 0 <= k < |toks| ==> TokensNumbers(toks, read)[k] == read(toks[k]).value
    decreases |toks|
  {
    if toks != [] {
      var init := toks[..|toks| - 1];
      assert forall k :: 0 <= k < |init| ==> init[k] == toks[k];
      TokensNumbersAllParse(init, read);
    }
  }

  /** A line that is blank once its comment is cut contributes no token. */
  lemma BlankLineHasNoTokens(line: string)
    requires AllSpace(line[..CommentStart(line)])
    ensures LineTokens(line) == []
  {
  }

  /** The two header lines never contribute numbers, whatever they hold. */
  lemma {:induction false} HeaderIgnored(h1: string, h2: string, rest: seq<string>, parse: string -> Option<real>)
    ensures LinesNumbers(AfterHeader([h1, h2] + rest), parse) == TokensNumbers(AllTokens(rest), Reader(parse))
  {
    assert ([h1, h2] + rest)[HeaderLines..] == rest;
    LinesNumbersAreTokenStream(rest, parse);
  }

  /** A file never yields more numbers than its body has tokens. */
  lemma {:induction false} FileNumbersBound(lines: seq<string>, parse: string -> Option<real>)
    ensures |LinesNumbers(AfterHeader(lines), parse)| <= |AllTokens(AfterHeader(lines))|
  {
    LinesNumbersAreTokenStream(AfterHeader(lines), parse);
    TokensNumbersBound(AllTokens(AfterHeader(lines)), Reader(parse));
  }
}
