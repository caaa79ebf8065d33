/**
  Order-preserving selection from a sequence (what `Array.prototype.filter`
  computes), together with an index-based description of its result.
 */
module Sequences {

  /** The elements of `s` that satisfy `p`, in their original order. */
  function Filter<T>(s: seq<T>, p: T -> bool): (r: seq<T>)
    ensures |r| <= |s|
    ensures forall x :: x in r ==> x in s && p(x)
    ensures forall i :: 0 <= i < |s| && p(s[i]) ==> s[i] in r
    decreases |s|
  {
    if |s| == 0 then []
    else
      var init := s[..|s| - 1];
      assert forall i :: 0 <= i < |init| ==> init[i] == s[i];
      Filter(init, p) + (if p(s[|s| - 1]) then [s[|s| - 1]] else [])
  }

  /** The positions of `s` whose element satisfies `p`, in increasing order. */
  function MatchPositions<T>(s: seq<T>, p: T -> bool): seq<int>
    decreases |s|
  {
    if |s| == 0 then []
    else MatchPositions(s[..|s| - 1], p) + (if p(s[|s| - 1]) then [|s| - 1] else [])
  }

  ghost predicate StrictlyIncreasing(idx: seq<int>)
  {
    forall k, l :: 0 <= k < l < |idx| ==> idx[k] < idx[l]
  }

  /**
    `r` is the subsequence of `s` picked out by the increasing positions `idx`,
    and those positions are exactly the ones where `p` holds: nothing matching
    is lost, nothing is duplicated, nothing is reordered.
   */
  ghost predicate SelectedAt<T>(r: seq<T>, s: seq<T>, p: T -> bool, idx: seq<int>)
  {
    && |idx| == |r|
    && StrictlyIncreasing(idx)
    && (forall k :: 0 <= k < |idx| ==> 0 <= idx[k] < |s| && r[k] == s[idx[k]])
    && (forall i :: 0 <= i < |s| ==> (p(s[i]) <==> i in idx))
  }

  /** `Filter` returns exactly the in-order subsequence of the matching positions. */
  lemma {:induction false} FilterSelectsMatches<T>(s: seq<T>, p: T -> bool)
    ensures SelectedAt(Filter(s, p), s, p, MatchPositions(s, p))
    decreases |s|
  {
    if |s| > 0 {
      var n := |s| - 1;
      var init := s[..n];
      FilterSelectsMatches(init, p);
      var r0, idx0 := Filter(init, p), MatchPositions(init, p);
      var tail, tailIdx := if p(s[n]) then [s[n]] else [], if p(s[n]) then [n] else [];
      assert Filter(s, p) == r0 + tail;
      assert MatchPositions(s, p) == idx0 + tailIdx;
      ExtendSelection(r0, idx0, init, s, p, tail, tailIdx);
    }
  }

  /** One step of `FilterSelectsMatches`: a selection from `s[..n]` extends to `s` by the last element's verdict. */
  lemma ExtendSelection<T>(r0: seq<T>, idx0: seq<int>, init: seq<T>, s: seq<T>, p: T -> bool,
                           tail: seq<T>, tailIdx: seq<int>)
    requires |s| > 0 && init == s[..|s| - 1]
    requires SelectedAt(r0, init, p, idx0)
    requires tail == (if p(s[|s| - 1]) then [s[|s| - 1]] else [])
    requires tailIdx == (if p(s[|s| - 1]) then [|s| - 1] else [])
    ensures SelectedAt(r0 + tail, s, p, idx0 + tailIdx)
  {
    var n := |s| - 1;
    var r, idx := r0 + tail, idx0 + tailIdx;
    assert forall k :: 0 <= k < |idx0| ==> idx0[k] < n;
    assert forall k :: 0 <= k < |idx0| ==> idx[k] == idx0[k];
    assert StrictlyIncreasing(idx);
    forall k | 0 <= k < |idx|
      ensures 0 <= idx[k] < |s| && r[k] == s[idx[k]]
    {
      if k < |idx0| {
        assert r[k] == r0[k] == init[idx0[k]];
      }
    }
    forall i | 0 <= i < |s|
      ensures p(s[i]) <==> i in idx
    {
      if i < n {
        assert init[i] == s[i];
        assert i in idx <==> i in idx0;
      } else {
        assert n !in idx0;
      }
    }
  }

  /** When every element matches, filtering changes nothing. */
  lemma {:induction false} FilterKeepsAll<T>(s: seq<T>, p: T -> bool)
    requires forall i :: 0 <= i < |s| ==> p(s[i])
    ensures Filter(s, p) == s
    decreases |s|
  {
    if |s| > 0 {
      var init := s[..|s| - 1];
      assert forall i :: 0 <= i < |init| ==> init[i] == s[i];
      FilterKeepsAll(init, p);
      assert init + [s[|s| - 1]] == s;
    }
  }

  /** When no element matches, filtering leaves nothing. */
  lemma FilterDropsAll<T>(s: seq<T>, p: T -> bool)
    requires forall i :: 0 <= i < |s| ==> !p(s[i])
    ensures Filter(s, p) == []
  {
  }
}
