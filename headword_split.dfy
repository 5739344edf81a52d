/**
 * The pronunciation lookup key of a headword: `headword.split(/[\s/(]+/)[0]`,
 * the text before the first run of whitespace, slashes or opening parentheses.
 */
module HeadwordSplit {
  import Lists

  /** ECMAScript `\s`: the WhiteSpace and LineTerminator code points. */
  predicate IsJsWhitespace(c: char)
  {
    var n := c as int;
    || n == 0x09 || n == 0x0A || n == 0x0B || n == 0x0C || n == 0x0D || n == 0x20
    || n == 0xA0 || n == 0x1680 || 0x2000 <= n <= 0x200A || n == 0x2028 || n == 0x2029
    || n == 0x202F || n == 0x205F || n == 0x3000 || n == 0xFEFF
  }

  /** A character of the class `[\s/(]`. */
  predicate IsDelimiter(c: char)
  {
    IsJsWhitespace(c) || c == '/' || c == '('
  }

  predicate NoDelimiter(s: string)
  {
    forall i :: 0 <= i < |s| ==> !IsDelimiter(s[i])
  }

  /** The length of the longest prefix of `s` free of delimiters. */
  function TokenLength(s: string): (n: nat)
    ensures n <= |s|
  {
    if s == [] || IsDelimiter(s[0]) then 0 else 1 + TokenLength(s[1..])
  }

  /** The length of the run of delimiters at the start of `s`. */
  function RunLength(s: string): (m: nat)
    ensures m <= |s|
    ensures s != [] && IsDelimiter(s[0]) ==> m > 0
  {
    if s == [] || !IsDelimiter(s[0]) then 0 else 1 + RunLength(s[1..])
  }

  /** `TokenLength` stops at the first delimiter, or at the end of `s`. */
  lemma {:induction false} TokenLengthStopsAtDelimiter(s: string)
    ensures forall i :: 0 <= i < TokenLength(s) ==> !IsDelimiter(s[i])
    ensures TokenLength(s) < |s| ==> IsDelimiter(s[TokenLength(s)])
  {
    if s != [] && !IsDelimiter(s[0]) {
      TokenLengthStopsAtDelimiter(s[1..]);
    }
  }

  /** `RunLength` covers the whole leading run of delimiters. */
  lemma {:induction false} RunLengthCoversRun(s: string)
    ensures forall i :: 0 <= i < RunLength(s) ==> IsDelimiter(s[i])
    ensures RunLength(s) < |s| ==> !IsDelimiter(s[RunLength(s)])
  {
    if s != [] && IsDelimiter(s[0]) {
      RunLengthCoversRun(s[1..]);
    }
  }

  /** `s.split(/[\s/(]+/)`: the pieces between maximal runs of delimiters. */
  function Split(s: string): (pieces: seq<string>)
    ensures |pieces| >= 1
    decreases |s|
  {
    var n := TokenLength(s);
    if n == |s| then [s] else [s[..n]] + Split(s[n + RunLength(s[n..])..])
  }

  /** No piece of a split contains a delimiter. */
  lemma SplitPiecesAreClean(s: string)
    ensures forall k :: 0 <= k < |Split(s)| ==> NoDelimiter(Split(s)[k])
  {
    forall k | 0 <= k < |Split(s)|
      ensures NoDelimiter(Split(s)[k])
    {
      SplitPieceIsClean(s, k);
    }
  }

  /** The `k`-th piece of a split contains no delimiter. */
  lemma {:induction false} SplitPieceIsClean(s: string, k: nat)
    requires k < |Split(s)|
    ensures NoDelimiter(Split(s)[k])
    decreases |s|
  {
    SplitFirstPiece(s);
    if k == 0 {
      TokenLengthStopsAtDelimiter(s);
    } else {
      var rest := SplitRest(s);
      SplitPieceIsClean(rest, k - 1);
      assert Split(s)[k] == Split(s)[1..][k - 1];
    }
  }

  /** Delimiter runs are maximal: every piece except the first and the last is non-empty. */
  lemma SplitInnerPiecesNonEmpty(s: string)
    ensures forall k :: 0 < k < |Split(s)| - 1 ==> Split(s)[k] != ""
  {
    forall k | 0 < k < |Split(s)| - 1
      ensures Split(s)[k] != ""
    {
      SplitInnerPieceNonEmpty(s, k);
    }
  }

  /** The `k`-th piece of a split, neither the first nor the last, is non-empty. */
  lemma {:induction false} SplitInnerPieceNonEmpty(s: string, k: nat)
    requires 0 < k < |Split(s)| - 1
    ensures Split(s)[k] != ""
    decreases |s|
  {
    SplitFirstPiece(s);
    var rest := SplitRest(s);
    assert Split(s)[k] == Split(s)[1..][k - 1];
    if k == 1 {
      SplitFirstPiece(rest);
      var n := TokenLength(s);
      RunLengthCoversRun(s[n..]);
      assert rest[0] == s[n..][RunLength(s[n..])];
    } else {
      SplitInnerPieceNonEmpty(rest, k - 1);
    }
  }

  /** The first piece of a split is the longest delimiter-free prefix, and it is the only piece when that prefix is all of `s`. */
  lemma SplitFirstPiece(s: string)
    ensures Split(s)[0] == s[..TokenLength(s)]
    ensures TokenLength(s) == |s| ==> |Split(s)| == 1
  {
  }

  /** The pieces after the first are the split of what follows the first run of delimiters. */
  lemma SplitRest(s: string) returns (rest: string)
    requires TokenLength(s) < |s|
    ensures rest == s[TokenLength(s) + RunLength(s[TokenLength(s)..])..]
    ensures |rest| < |s| && Split(s)[1..] == Split(rest)
  {
    var n := TokenLength(s);
    rest := s[n + RunLength(s[n..])..];
    SplitStep(s);
    assert ([s[..n]] + Split(rest))[1..] == Split(rest);
  }

  /** The pieces laid end to end. */
  function Flatten(pieces: seq<string>): string
  {
    if pieces == [] then [] else pieces[0] + Flatten(pieces[1..])
  }

  /** `s` with every delimiter removed. */
  function StripDelimiters(s: string): string
  {
    Lists.Filter(s, c => !IsDelimiter(c))
  }

  /** One step of `Split`: the first piece, then the split of what follows the first run of delimiters. */
  lemma {:induction false} SplitStep(s: string)
    requires TokenLength(s) < |s|
    ensures var n := TokenLength(s); var m := RunLength(s[n..]);
      Split(s) == [s[..n]] + Split(s[n + m..])
  {
  }

  /** Splitting drops the delimiters and nothing else: the pieces put back together are `s` without its delimiters. */
  lemma {:induction false} SplitKeepsAllText(s: string)
    ensures Flatten(Split(s)) == StripDelimiters(s)
    decreases |s|
  {
    var n := TokenLength(s);
    var pieces := Split(s);
    SplitFirstPiece(s);
    StripWordThenRun(s);
    assert Flatten(pieces) == pieces[0] + Flatten(pieces[1..]);
    if n == |s| {
      assert pieces[1..] == [];
      assert s[n + RunLength(s[n..])..] == [];
    } else {
      var rest := SplitRest(s);
      SplitKeepsAllText(rest);
    }
  }

  /** Stripping delimiters keeps the first word and drops the run of delimiters after it. */
  lemma {:induction false} StripWordThenRun(s: string)
    ensures var n := TokenLength(s);
      StripDelimiters(s) == s[..n] + StripDelimiters(s[n + RunLength(s[n..])..])
  {
    var n := TokenLength(s);
    var m := RunLength(s[n..]);
    WordThenRunMarks(s);
    Lists.FilterKeptPrefix(s, n, m, c => !IsDelimiter(c));
  }

  /** The first token is all text and the delimiter run after it has none. */
  lemma WordThenRunMarks(s: string)
    ensures var n := TokenLength(s); var m := RunLength(s[n..]);
      && n + m <= |s|
      && (forall i :: 0 <= i < n ==> !IsDelimiter(s[i]))
      && (forall i :: n <= i < n + m ==> IsDelimiter(s[i]))
  {
    var n := TokenLength(s);
    var m := RunLength(s[n..]);
    TokenLengthStopsAtDelimiter(s);
    RunLengthCoversRun(s[n..]);
    forall i | n <= i < n + m
      ensures IsDelimiter(s[i])
    {
      assert s[i] == s[n..][i - n];
    }
  }

  /** The key used for the pronunciation request of an entry. */
  function LookupKey(headword: string): (key: string)
    ensures key <= headword && NoDelimiter(key)
  {
    SplitFirstPiece(headword);
    TokenLengthStopsAtDelimiter(headword);
    Split(headword)[0]
  }

  /**
   * The key is the longest prefix of the headword without whitespace, `/` or `(`;
   * it is empty exactly when the headword is empty or starts with one of them.
   */
  lemma {:induction false} LookupKeyIsLongestCleanPrefix(headword: string)
    ensures var key := LookupKey(headword);
      && |key| <= |headword| && key == headword[..|key|]
      && NoDelimiter(key)
      && (|key| == |headword| || IsDelimiter(headword[|key|]))
      && (key == "" <==> headword == "" || IsDelimiter(headword[0]))
  {
    var n := TokenLength(headword);
    TokenLengthStopsAtDelimiter(headword);
    assert LookupKey(headword) == headword[..n];
    if n > 0 {
      assert !IsDelimiter(headword[..n][0]);
    }
  }

  /** The key is the whole headword exactly when the headword has no delimiter. */
  lemma {:induction false} LookupKeyWhole(headword: string)
    ensures LookupKey(headword) == headword <==> NoDelimiter(headword)
  {
    LookupKeyIsLongestCleanPrefix(headword);
  }

  /** A clean prefix followed by a delimiter run is consumed whole by `TokenLength`. */
  lemma {:induction false} TokenLengthAppend(a: string, b: string)
    requires NoDelimiter(a)
    ensures TokenLength(a + b) == |a| + TokenLength(b)
  {
    if a != [] {
      assert (a + b)[0] == a[0] && (a + b)[1..] == a[1..] + b;
      TokenLengthAppend(a[1..], b);
    } else {
      assert a + b == b;
    }
  }

  /** A run made only of delimiters is consumed whole by `RunLength`. */
  lemma {:induction false} RunLengthAppend(d: string, b: string)
    requires forall i :: 0 <= i < |d| ==> IsDelimiter(d[i])
    ensures RunLength(d + b) == |d| + RunLength(b)
  {
    if d != [] {
      assert (d + b)[0] == d[0] && (d + b)[1..] == d[1..] + b;
      RunLengthAppend(d[1..], b);
    } else {
      assert d + b == b;
    }
  }

  /** A clean word, a run of delimiters, then text not starting with a delimiter: the word is the first piece. */
  lemma SplitFirstWord(a: string, d: string, b: string)
    requires NoDelimiter(a)
    requires d != [] && forall i :: 0 <= i < |d| ==> IsDelimiter(d[i])
    requires b == [] || !IsDelimiter(b[0])
    ensures Split(a + d + b) == [a] + Split(b)
  {
    var s := a + d + b;
    assert s == a + (d + b);
    TokenLengthAppend(a, d + b);
    assert TokenLength(d + b) == 0;
    assert s[..|a|] == a && s[|a|..] == d + b;
    RunLengthAppend(d, b);
    assert RunLength(b) == 0;
    SplitStep(s);
    assert s[|a| + |d|..] == b;
  }

  /** Text without delimiters is split into one piece, itself. */
  lemma SplitCleanWord(b: string)
    requires NoDelimiter(b)
    ensures Split(b) == [b]
  {
    TokenLengthAppend(b, []);
    assert b + [] == b;
  }

  /** The two forms of the "Adequate / Inadequate" entry and the run between them. */
  lemma AdequateParts()
    ensures "Adequate / Inadequate" == "Adequate" + " / " + "Inadequate"
    ensures NoDelimiter("Adequate") && NoDelimiter("Inadequate")
    ensures forall i :: 0 <= i < |" / "| ==> IsDelimiter(" / "[i])
  {
  }

  /** Two clean words around a delimiter run split into those two words, and the key is the first. */
  lemma SplitTwoWords(a: string, d: string, b: string)
    requires NoDelimiter(a) && NoDelimiter(b)
    requires d != [] && forall i :: 0 <= i < |d| ==> IsDelimiter(d[i])
    ensures Split(a + d + b) == [a, b]
    ensures LookupKey(a + d + b) == a
  {
    SplitFirstWord(a, d, b);
    SplitCleanWord(b);
    assert [a] + [b] == [a, b];
  }

  /** "Adequate / Inadequate" is split into its two forms and looked up as "Adequate". */
  lemma AdequateKey()
    ensures Split("Adequate / Inadequate") == ["Adequate", "Inadequate"]
    ensures LookupKey("Adequate / Inadequate") == "Adequate"
  {
    AdequateParts();
    SplitTwoWords("Adequate", " / ", "Inadequate");
  }
}
