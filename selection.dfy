/** Array.prototype.filter, which renderTasks and deleteTask both use, and what it means:
    the result lists exactly the elements the predicate accepts, in their original order. */
module Selection {

  /** s.filter(p): the elements of s that p accepts, in order. */
  function Keep<T>(s: seq<T>, p: T -> bool): (r: seq<T>)
    ensures |r| <= |s|
    ensures forall x :: x in r ==> x in s && p(x)
  {
    if s == [] then []
    else if p(s[0]) then [s[0]] + Keep(s[1..], p)
    else Keep(s[1..], p)
  }

  /** r is the list of the elements of s at the strictly increasing positions idx. */
  ghost predicate PicksAt<T>(s: seq<T>, r: seq<T>, idx: seq<int>) {
    && |idx| == |r|
    && (forall k :: 0 <= k < |idx| ==> 0 <= idx[k] < |s| && r[k] == s[idx[k]])
    && (forall k, l :: 0 <= k < l < |idx| ==> idx[k] < idx[l])
  }

  /** The positions from lo on at which p holds, in increasing order. */
  ghost function PositionsFrom<T>(s: seq<T>, p: T -> bool, lo: nat): (idx: seq<int>)
    requires lo <= |s|
    ensures forall k :: 0 <= k < |idx| ==> lo <= idx[k] < |s|
    ensures forall k, l :: 0 <= k < l < |idx| ==> idx[k] < idx[l]
    ensures forall i :: lo <= i < |s| ==> (i in idx <==> p(s[i]))
    decreases |s| - lo
  {
    if lo == |s| then []
    else if p(s[lo]) then [lo] + PositionsFrom(s, p, lo + 1)
    else PositionsFrom(s, p, lo + 1)
  }

  /** The positions of s at which p holds, in increasing order. */
  ghost function Positions<T>(s: seq<T>, p: T -> bool): (idx: seq<int>)
    ensures forall i :: 0 <= i < |s| ==> (i in idx <==> p(s[i]))
  {
    PositionsFrom(s, p, 0)
  }

  lemma {:induction false} KeepFromPicksPositions<T>(s: seq<T>, p: T -> bool, lo: nat)
    requires lo <= |s|
    ensures PicksAt(s, Keep(s[lo..], p), PositionsFrom(s, p, lo))
    decreases |s| - lo
  {
    if lo < |s| {
      KeepFromPicksPositions(s, p, lo + 1);
      var rest, restIdx := Keep(s[lo + 1..], p), PositionsFrom(s, p, lo + 1);
      assert s[lo..][1..] == s[lo + 1..];
      if p(s[lo]) {
        assert Keep(s[lo..], p) == [s[lo]] + rest;
        assert PositionsFrom(s, p, lo) == [lo] + restIdx;
        ConsPicksAt(s, rest, restIdx, lo);
      }
    }
  }

  /** Putting position lo in front of positions that all come after it. */
  lemma {:induction false} ConsPicksAt<T>(s: seq<T>, r: seq<T>, idx: seq<int>, lo: nat)
    requires lo < |s| && PicksAt(s, r, idx)
    requires forall k :: 0 <= k < |idx| ==> lo < idx[k]
    ensures PicksAt(s, [s[lo]] + r, [lo] + idx)
  {
    var r', idx' := [s[lo]] + r, [lo] + idx;
    forall k | 0 < k < |idx'| ensures 0 <= idx'[k] < |s| && r'[k] == s[idx'[k]] {
      assert idx'[k] == idx[k - 1] && r'[k] == r[k - 1];
    }
    forall k, l | 0 <= k < l < |idx'| ensures idx'[k] < idx'[l] {
      assert idx'[l] == idx[l - 1];
      if k > 0 {
        assert idx'[k] == idx[k - 1];
      }
    }
  }

  /** Filtering keeps exactly the elements p accepts, each once and in their original
      order: the result is s read at the positions where p holds. */
  lemma {:induction false} KeepSelectsInOrder<T>(s: seq<T>, p: T -> bool)
    ensures PicksAt(s, Keep(s, p), Positions(s, p))
  {
    KeepFromPicksPositions(s, p, 0);
    assert s[0..] == s;
  }

  /** A filter that accepts every element returns the list unchanged. */
  lemma {:induction false} KeepAll<T>(s: seq<T>, p: T -> bool)
    requires forall i :: 0 <= i < |s| ==> p(s[i])
    ensures Keep(s, p) == s
  {
    if s != [] {
      KeepAll(s[1..], p);
      assert [s[0]] + s[1..] == s;
    }
  }

  /** Filtering twice with the same predicate is filtering once. */
  lemma {:induction false} KeepIdempotent<T>(s: seq<T>, p: T -> bool)
    ensures Keep(Keep(s, p), p) == Keep(s, p)
  {
    var r := Keep(s, p);
    forall i | 0 <= i < |r| ensures p(r[i]) {
      assert r[i] in r;
    }
    KeepAll(r, p);
  }

  /** Filtering by a predicate and by its complement splits the list in two: the lengths
      add up and together the two results hold every element exactly as often as s does. */
  lemma {:induction false} KeepSplits<T>(s: seq<T>, p: T -> bool, q: T -> bool)
    requires forall x :: q(x) == !p(x)
    ensures |Keep(s, p)| + |Keep(s, q)| == |s|
    ensures multiset(Keep(s, p)) + multiset(Keep(s, q)) == multiset(s)
  {
    if s != [] {
      KeepSplits(s[1..], p, q);
      assert s == [s[0]] + s[1..];
    }
  }

  /** Appending an element appends it to the filtered list when p accepts it, and leaves
      the filtered list as it was otherwise. */
  lemma {:induction false} KeepAppend<T>(s: seq<T>, x: T, p: T -> bool)
    ensures Keep(s + [x], p) == Keep(s, p) + (if p(x) then [x] else [])
  {
    if s != [] {
      KeepAppend(s[1..], x, p);
      assert (s + [x])[1..] == s[1..] + [x];
    }
  }

  /** Filtering by p and then by q is filtering by q and then by p. */
  lemma {:induction false} KeepCommutes<T>(s: seq<T>, p: T -> bool, q: T -> bool)
    ensures Keep(Keep(s, p), q) == Keep(Keep(s, q), p)
  {
    if s != [] {
      KeepCommutes(s[1..], p, q);
    }
  }
}
