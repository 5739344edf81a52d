/**
 * `Array.prototype.filter` on immutable lists, and the facts about it that the
 * page's search relies on.
 */
module Lists {

  /** The elements of `s` for which `keep` holds, in their original order. */
  function Filter<T>(s: seq<T>, keep: T -> bool): (r: seq<T>)
    ensures |r| <= |s|
  {
    if s == [] then []
    else if keep(s[0]) then [s[0]] + Filter(s[1..], keep)
    else Filter(s[1..], keep)
  }

  /** `a` can be obtained from `b` by deleting elements, keeping the order of the rest. */
  predicate IsSubsequence<T(==)>(a: seq<T>, b: seq<T>)
    decreases |b|
  {
    if a == [] then true
    else if b == [] then false
    else (a[0] == b[0] && IsSubsequence(a[1..], b[1..])) || IsSubsequence(a, b[1..])
  }

  /**
   * `idx` lists, in increasing order, exactly the positions of `s` whose
   * elements satisfy `keep`, and `r` holds the elements at those positions.
   */
  ghost predicate SelectsKept<T>(s: seq<T>, keep: T -> bool, r: seq<T>, idx: seq<nat>)
  {
    && |idx| == |r|
    && (forall k :: 0 <= k < |idx| ==> idx[k] < |s| && r[k] == s[idx[k]])
    && (forall k, l :: 0 <= k < l < |idx| ==> idx[k] < idx[l])
    && (forall i :: 0 <= i < |s| ==> (keep(s[i]) <==> i in idx))
  }

  /** Every element of the result satisfies `keep`. */
  lemma {:induction false} FilterAllKept<T>(s: seq<T>, keep: T -> bool)
    ensures forall i :: 0 <= i < |Filter(s, keep)| ==> keep(Filter(s, keep)[i])
  {
    if s != [] {
      FilterAllKept(s[1..], keep);
    }
  }

  /** An element is kept exactly when it occurs in the list and satisfies `keep`. */
  lemma {:induction false} FilterMembership<T>(s: seq<T>, keep: T -> bool, x: T)
    ensures x in Filter(s, keep) <==> x in s && keep(x)
  {
    if s != [] {
      FilterMembership(s[1..], keep, x);
      assert x in s <==> x == s[0] || x in s[1..];
    }
  }

  /**
   * `Filter` keeps exactly the elements at the positions that satisfy `keep`,
   * in their original order: its k-th element is the one at the k-th such position.
   */
  lemma {:induction false} FilterSelectsKept<T>(s: seq<T>, keep: T -> bool) returns (idx: seq<nat>)
    ensures SelectsKept(s, keep, Filter(s, keep), idx)
    decreases |s|, 1
  {
    if s == [] {
      return [];
    }
    var r' := Filter(s[1..], keep);
    var shifted := ShiftPositions(s, keep);
    if keep(s[0]) {
      idx := [0] + shifted;
      PrependPosition(s, keep, r', shifted);
      assert Filter(s, keep) == [s[0]] + r';
    } else {
      idx := shifted;
      assert Filter(s, keep) == r';
      assert forall k :: 0 <= k < |idx| ==> idx[k] != 0;
      assert 0 !in idx;
    }
  }

  /** The positions kept from the tail of a list, moved up by one, as positions in the whole list. */
  lemma {:induction false} ShiftPositions<T>(s: seq<T>, keep: T -> bool) returns (shifted: seq<nat>)
    requires s != []
    ensures |shifted| == |Filter(s[1..], keep)|
    ensures forall k :: 0 <= k < |shifted| ==>
              0 < shifted[k] < |s| && Filter(s[1..], keep)[k] == s[shifted[k]]
    ensures forall k, l :: 0 <= k < l < |shifted| ==> shifted[k] < shifted[l]
    ensures forall i :: 1 <= i < |s| ==> (keep(s[i]) <==> i in shifted)
    decreases |s|, 0
  {
    var rest := FilterSelectsKept(s[1..], keep);
    shifted := seq(|rest|, k requires 0 <= k < |rest| => rest[k] + 1);
    ShiftedPicks(s, Filter(s[1..], keep), rest, shifted);
    ShiftedMembers(s, keep, rest, shifted);
  }

  /** Positions of picks from the tail, moved up by one, pick the same elements from the whole list. */
  lemma ShiftedPicks<T>(s: seq<T>, r: seq<T>, rest: seq<nat>, shifted: seq<nat>)
    requires s != [] && |rest| == |r| == |shifted|
    requires forall k :: 0 <= k < |rest| ==> rest[k] < |s[1..]| && r[k] == s[1..][rest[k]]
    requires forall k :: 0 <= k < |rest| ==> shifted[k] == rest[k] + 1
    ensures forall k :: 0 <= k < |shifted| ==> 0 < shifted[k] < |s| && r[k] == s[shifted[k]]
  {
  }

  /** A position of the whole list past 0 is among the shifted positions exactly when its element is kept. */
  lemma ShiftedMembers<T>(s: seq<T>, keep: T -> bool, rest: seq<nat>, shifted: seq<nat>)
    requires s != [] && |rest| == |shifted|
    requires forall i :: 0 <= i < |s[1..]| ==> (keep(s[1..][i]) <==> i in rest)
    requires forall k :: 0 <= k < |rest| ==> shifted[k] == rest[k] + 1
    ensures forall i :: 1 <= i < |s| ==> (keep(s[i]) <==> i in shifted)
  {
    forall i | 1 <= i < |s|
      ensures keep(s[i]) <==> i in shifted
    {
      assert s[i] == s[1..][i - 1];
      if i - 1 in rest {
        var k :| 0 <= k < |rest| && rest[k] == i - 1;
        assert shifted[k] == i;
      }
      if i in shifted {
        var k :| 0 <= k < |shifted| && shifted[k] == i;
        assert rest[k] == i - 1;
      }
    }
  }

  /** A kept first element is selected at position 0, ahead of the tail's positions. */
  lemma PrependPosition<T>(s: seq<T>, keep: T -> bool, r: seq<T>, shifted: seq<nat>)
    requires s != [] && keep(s[0])
    requires |shifted| == |r|
    requires forall k :: 0 <= k < |shifted| ==> 0 < shifted[k] < |s| && r[k] == s[shifted[k]]
    requires forall k, l :: 0 <= k < l < |shifted| ==> shifted[k] < shifted[l]
    requires forall i :: 1 <= i < |s| ==> (keep(s[i]) <==> i in shifted)
    ensures SelectsKept(s, keep, [s[0]] + r, [0] + shifted)
  {
    var idx, r' := [0] + shifted, [s[0]] + r;
    PrependPicks(s, r, shifted);
    PrependIncreasing(shifted);
    forall i | 1 <= i < |s|
      ensures keep(s[i]) <==> i in idx
    {
      assert i in idx <==> i in shifted;
    }
  }

  /** Position 0 followed by the tail's positions picks `s[0]` followed by the tail's picks. */
  lemma PrependPicks<T>(s: seq<T>, r: seq<T>, shifted: seq<nat>)
    requires s != [] && |shifted| == |r|
    requires forall k :: 0 <= k < |shifted| ==> 0 < shifted[k] < |s| && r[k] == s[shifted[k]]
    ensures forall k :: 0 <= k < |[0] + shifted| ==>
              ([0] + shifted)[k] < |s| && ([s[0]] + r)[k] == s[([0] + shifted)[k]]
  {
    var idx, r' := [0] + shifted, [s[0]] + r;
    forall k | 1 <= k < |idx|
      ensures idx[k] < |s| && r'[k] == s[idx[k]]
    {
      assert idx[k] == shifted[k - 1] && r'[k] == r[k - 1];
    }
  }

  /** Putting 0 in front of increasing positive positions keeps them increasing. */
  lemma PrependIncreasing(shifted: seq<nat>)
    requires forall k :: 0 <= k < |shifted| ==> 0 < shifted[k]
    requires forall k, l :: 0 <= k < l < |shifted| ==> shifted[k] < shifted[l]
    ensures forall k, l :: 0 <= k < l < |[0] + shifted| ==> ([0] + shifted)[k] < ([0] + shifted)[l]
  {
    var idx := [0] + shifted;
    forall k, l | 0 <= k < l < |idx|
      ensures idx[k] < idx[l]
    {
      assert idx[l] == shifted[l - 1];
      if k > 0 {
        assert idx[k] == shifted[k - 1];
      }
    }
  }

  /** When every element satisfies `keep`, `Filter` returns the list unchanged. */
  lemma {:induction false} FilterKeepsAll<T>(s: seq<T>, keep: T -> bool)
    requires forall i :: 0 <= i < |s| ==> keep(s[i])
    ensures Filter(s, keep) == s
  {
    if s != [] {
      FilterKeepsAll(s[1..], keep);
    }
  }

  /** When no element satisfies `keep`, `Filter` returns the empty list. */
  lemma {:induction false} FilterKeepsNone<T>(s: seq<T>, keep: T -> bool)
    requires forall i :: 0 <= i < |s| ==> !keep(s[i])
    ensures Filter(s, keep) == []
  {
    if s != [] {
      FilterKeepsNone(s[1..], keep);
    }
  }

  /** Filtering distributes over concatenation. */
  lemma {:induction false} FilterAppend<T>(a: seq<T>, b: seq<T>, keep: T -> bool)
    ensures Filter(a + b, keep) == Filter(a, keep) + Filter(b, keep)
  {
    if a == [] {
      assert a + b == b;
    } else {
      assert (a + b)[1..] == a[1..] + b;
      FilterAppend(a[1..], b, keep);
    }
  }

  /** When the first `n` elements are kept and the `m` after them dropped, the kept prefix and the filtered rest remain. */
  lemma {:induction false} FilterKeptPrefix<T>(s: seq<T>, n: nat, m: nat, keep: T -> bool)
    requires n + m <= |s|
    requires forall i :: 0 <= i < n ==> keep(s[i])
    requires forall i :: n <= i < n + m ==> !keep(s[i])
    ensures Filter(s, keep) == s[..n] + Filter(s[n + m..], keep)
    decreases n + m
  {
    if n > 0 {
      var rest := Filter(s[n + m..], keep);
      assert Filter(s, keep) == [s[0]] + Filter(s[1..], keep);
      FilterKeptPrefix(s[1..], n - 1, m, keep);
      assert s[1..][n - 1 + m..] == s[n + m..];
      assert [s[0]] + (s[1..][..n - 1] + rest) == ([s[0]] + s[1..][..n - 1]) + rest;
      assert [s[0]] + s[1..][..n - 1] == s[..n];
    } else if m > 0 {
      assert Filter(s, keep) == Filter(s[1..], keep);
      FilterKeptPrefix(s[1..], 0, m - 1, keep);
      assert s[1..][m - 1..] == s[m..];
    } else {
      assert s[..0] + Filter(s[0..], keep) == Filter(s, keep);
    }
  }

  /** Filtering by a test that implies `weaker` gives the same result after a first pass with `weaker`. */
  lemma {:induction false} FilterStrengthen<T>(s: seq<T>, weaker: T -> bool, stronger: T -> bool)
    requires forall i :: 0 <= i < |s| ==> stronger(s[i]) ==> weaker(s[i])
    ensures Filter(Filter(s, weaker), stronger) == Filter(s, stronger)
  {
    if s != [] {
      FilterStrengthen(s[1..], weaker, stronger);
    }
  }

  /** The filtered list is a subsequence of the list it filters. */
  lemma {:induction false} FilterIsSubsequence<T>(s: seq<T>, keep: T -> bool)
    ensures IsSubsequence(Filter(s, keep), s)
  {
    if s != [] {
      FilterIsSubsequence(s[1..], keep);
    }
  }
}
