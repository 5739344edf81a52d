/**
 * The search effect of the vocabulary page: whenever the search term or the
 * word list changes, the displayed list is recomputed as the entries whose
 * lowercased headword starts with the lowercased term.
 */
module Search {
  import opened Text
  import opened Catalog
  import Lists

  /** The per-entry test of the search: a prefix test on the whole raw headword. */
  predicate Matches(e: WordEntry, term: string): (b: bool)
    ensures b ==> |term| <= |e.headword|
  {
    StartsWith(ToLower(e.headword), ToLower(term))
  }

  /** `words.filter(word => word.headword.toLowerCase().startsWith(term.toLowerCase()))`. */
  function FilterWords(words: seq<WordEntry>, term: string): (shown: seq<WordEntry>)
    ensures |shown| <= |words|
    ensures forall i :: 0 <= i < |shown| ==> Matches(shown[i], term)
  {
    Lists.FilterAllKept(words, e => Matches(e, term));
    Lists.Filter(words, e => Matches(e, term))
  }

  /**
   * The displayed list is exactly the matching entries in their original order:
   * its k-th element is the entry at the k-th matching position of `words`, and an
   * entry is shown precisely when it is in `words` and matches.
   */
  lemma FilterWordsSelectsMatching(words: seq<WordEntry>, term: string) returns (idx: seq<nat>)
    ensures |idx| == |FilterWords(words, term)|
    ensures forall k :: 0 <= k < |idx| ==> idx[k] < |words| && FilterWords(words, term)[k] == words[idx[k]]
    ensures forall k, l :: 0 <= k < l < |idx| ==> idx[k] < idx[l]
    ensures forall i :: 0 <= i < |words| ==> (Matches(words[i], term) <==> i in idx)
    ensures forall e :: e in FilterWords(words, term) <==> e in words && Matches(e, term)
  {
    idx := Lists.FilterSelectsKept(words, e => Matches(e, term));
    forall e | true
      ensures e in FilterWords(words, term) <==> e in words && Matches(e, term)
    {
      Lists.FilterMembership(words, e => Matches(e, term), e);
    }
  }

  /** When every entry matches, the whole list is shown, unchanged. */
  lemma FilterWordsAllMatch(words: seq<WordEntry>, term: string)
    requires forall i :: 0 <= i < |words| ==> Matches(words[i], term)
    ensures FilterWords(words, term) == words
  {
    Lists.FilterKeepsAll(words, e => Matches(e, term));
  }

  /** When no entry matches, nothing is shown. */
  lemma FilterWordsNoneMatch(words: seq<WordEntry>, term: string)
    requires forall i :: 0 <= i < |words| ==> !Matches(words[i], term)
    ensures FilterWords(words, term) == []
  {
    Lists.FilterKeepsNone(words, e => Matches(e, term));
  }

  /** When exactly the first `k` entries match, the search shows those `k`. */
  lemma FilterWordsMatchingPrefix(words: seq<WordEntry>, k: nat, term: string)
    requires k <= |words|
    requires forall i :: 0 <= i < |words| ==> (Matches(words[i], term) <==> i < k)
    ensures FilterWords(words, term) == words[..k]
  {
    Lists.FilterKeptPrefix(words, k, |words| - k, e => Matches(e, term));
    assert words[|words|..] == [];
  }

  /** An empty search term shows the whole list, unchanged. */
  lemma FilterWordsEmptyTerm(words: seq<WordEntry>)
    ensures FilterWords(words, "") == words
  {
    forall i | 0 <= i < |words|
      ensures Matches(words[i], "")
    {
    }
    FilterWordsAllMatch(words, "");
  }

  /** Whether an entry matches depends only on the first |term| characters of its headword. */
  lemma MatchesByPrefix(e: WordEntry, term: string)
    ensures Matches(e, term) <==> |term| <= |e.headword| && ToLower(e.headword[..|term|]) == ToLower(term)
  {
    var h := e.headword;
    if |term| <= |h| {
      ToLowerPrefix(h, |term|);
    }
  }

  /** An entry that matches a longer term matches every prefix of that term. */
  lemma MatchesLongerTerm(e: WordEntry, t: string, u: string)
    requires Matches(e, t + u)
    ensures Matches(e, t)
  {
    ToLowerAppend(t, u);
    StartsWithLonger(ToLower(e.headword), ToLower(t), ToLower(u));
  }

  /**
   * Typing more characters only removes entries: the result for `t + u` is the
   * result for `t` filtered again, hence a subsequence of it.
   */
  lemma FilterWordsNarrows(words: seq<WordEntry>, t: string, u: string)
    ensures FilterWords(FilterWords(words, t), t + u) == FilterWords(words, t + u)
    ensures Lists.IsSubsequence(FilterWords(words, t + u), FilterWords(words, t))
  {
    forall i | 0 <= i < |words| && Matches(words[i], t + u)
      ensures Matches(words[i], t)
    {
      MatchesLongerTerm(words[i], t, u);
    }
    Lists.FilterStrengthen(words, e => Matches(e, t), e => Matches(e, t + u));
    Lists.FilterIsSubsequence(FilterWords(words, t), e => Matches(e, t + u));
  }

  /** Recomputing the search on its own output changes nothing. */
  lemma FilterWordsIdempotent(words: seq<WordEntry>, term: string)
    ensures FilterWords(FilterWords(words, term), term) == FilterWords(words, term)
  {
    assert term + "" == term;
    FilterWordsNarrows(words, term, "");
  }

  /** A headword matches "ab" exactly when its first two letters are a/A and b/B. */
  lemma MatchesAbByInitials(e: WordEntry)
    requires |e.headword| >= 2
    ensures Matches(e, "ab") <==> LowerChar(e.headword[0]) == 'a' && LowerChar(e.headword[1]) == 'b'
  {
    var h := e.headword;
    MatchesByPrefix(e, "ab");
    ToLowerPointwise(h[..2]);
    assert ToLower("ab") == "ab";
  }

  /** Among the catalog's headwords, exactly the first three start with "ab" in either case. */
  lemma CatalogMatchesAb(i: nat)
    requires i < |WordData|
    ensures Matches(WordData[i], "ab") <==> i < 3
  {
    CatalogInitials(i);
    MatchesAbByInitials(WordData[i]);
  }

  /** Every catalog headword starts with an `a` of either case; only the first three continue with `b`. */
  lemma CatalogInitials(i: nat)
    requires i < |WordData|
    ensures |WordData[i].headword| >= 2 && LowerChar(WordData[i].headword[0]) == 'a'
    ensures LowerChar(WordData[i].headword[1]) == 'b' <==> i < 3
  {
    match i
    case 0 => case 1 => case 2 => case 3 => case 4 =>
    case 5 => case 6 => case 7 => case 8 => case 9 =>
  }

  /** On the page's catalog, searching "ab" shows Abandon, Absorb and Abuse, in that order. */
  lemma CatalogSearchAb()
    ensures FilterWords(WordData, "ab") == [AbandonEntry, AbsorbEntry, AbuseEntry]
  {
    assert FilterWords(WordData, "ab") == WordData[..3] by {
      forall i | 0 <= i < |WordData|
        ensures Matches(WordData[i], "ab") <==> i < 3
      {
        CatalogMatchesAb(i);
      }
      FilterWordsMatchingPrefix(WordData, 3, "ab");
    }
    CatalogFirstThree();
  }

  /** The first three catalog entries. */
  lemma CatalogFirstThree()
    ensures WordData[..3] == [AbandonEntry, AbsorbEntry, AbuseEntry]
  {
  }
}
