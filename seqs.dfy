/**
 * Sequence and dictionary shapes shared by the scripts: keeping the entries
 * of a list that pass a test (the `for ...: if ...: append` loops), a
 * dictionary filled by successive assignments (later keys overwrite earlier
 * ones), and sums.
 */
module Seqs {

  /** The elements of `s` that satisfy `p`, in their order in `s`. */
  function Filter<T>(s: seq<T>, p: T -> bool): (r: seq<T>)
    ensures |r| <= |s|
    decreases |s|
  {
    if |s| == 0 then []
    else Filter(s[..|s| - 1], p) + (if p(s[|s| - 1]) then [s[|s| - 1]] else [])
  }

  /** The positions in `s` of the elements that `Filter` keeps. */
  function KeptIndices<T>(s: seq<T>, p: T -> bool): seq<nat>
    decreases |s|
  {
    if |s| == 0 then []
    else KeptIndices(s[..|s| - 1], p) + (if p(s[|s| - 1]) then [|s| - 1] else [])
  }

  /** An element is kept exactly when it is in `s` and passes the test. */
  lemma {:induction false} FilterMembers<T>(s: seq<T>, p: T -> bool)
    ensures forall x :: x in Filter(s, p) ==> x in s && p(x)
    ensures forall x :: x in s && p(x) ==> x in Filter(s, p)
    decreases |s|
  {
    if |s| > 0 {
      var s' := s[..|s| - 1];
      FilterMembers(s', p);
      assert s == s' + [s[|s| - 1]];
    }
  }

  /** `Filter(s, p)` is the subsequence of `s` at the strictly increasing
      positions `KeptIndices(s, p)`, and those are all the positions whose
      element passes the test. */
  lemma {:induction false} FilterKeepsOrder<T>(s: seq<T>, p: T -> bool)
    ensures var idx, r := KeptIndices(s, p), Filter(s, p);
      && |idx| == |r|
      && (forall i, j :: 0 <= i < j < |idx| ==> idx[i] < idx[j])
      && (forall i :: 0 <= i < |idx| ==> idx[i] < |s| && s[idx[i]] == r[i])
      && (forall k :: 0 <= k < |s| && p(s[k]) ==> k in idx)
    decreases |s|
  {
    if |s| > 0 {
      var s' := s[..|s| - 1];
      FilterKeepsOrder(s', p);
      var idx', r' := KeptIndices(s', p), Filter(s', p);
      var idx, r := KeptIndices(s, p), Filter(s, p);
      forall i | 0 <= i < |idx| ensures idx[i] < |s| && s[idx[i]] == r[i] {
        if i < |idx'| {
          assert idx[i] == idx'[i] && r[i] == r'[i];
          assert s[idx[i]] == s'[idx'[i]];
        }
      }
      forall k | 0 <= k < |s| && p(s[k]) ensures k in idx {
        if k < |s| - 1 {
          assert s[k] == s'[k];
          assert k in idx';
        }
      }
    }
  }

  /** Filtering again changes nothing. */
  lemma {:induction false} FilterIdempotent<T>(s: seq<T>, p: T -> bool)
    ensures Filter(Filter(s, p), p) == Filter(s, p)
  {
    FilterMembers(s, p);
    var r := Filter(s, p);
    forall i | 0 <= i < |r| ensures p(r[i]) {
      var x := r[i];
      assert x in Filter(s, p);
    }
    FilterOfPassing(r, p);
  }

  /** A sequence whose elements all pass is its own filter. */
  lemma {:induction false} FilterOfPassing<T>(s: seq<T>, p: T -> bool)
    requires forall i :: 0 <= i < |s| ==> p(s[i])
    ensures Filter(s, p) == s
    decreases |s|
  {
    if |s| > 0 {
      var s' := s[..|s| - 1];
      assert forall i :: 0 <= i < |s'| ==> s'[i] == s[i];
      FilterOfPassing(s', p);
      assert s == s' + [s[|s| - 1]];
    }
  }

  // ---------------------------------------------------------------------
  // Dictionaries filled by `d[k] = v` in order
  // ---------------------------------------------------------------------

  /** The dictionary left by assigning each pair in turn. */
  function LastWins<K, V>(pairs: seq<(K, V)>): map<K, V>
    decreases |pairs|
  {
    if |pairs| == 0 then map[]
    else
      var last := pairs[|pairs| - 1];
      LastWins(pairs[..|pairs| - 1])[last.0 := last.1]
  }

  /** Position `i` holds the last assignment to key `k`. */
  predicate IsLastFor<K(==), V>(pairs: seq<(K, V)>, k: K, i: int)
  {
    0 <= i < |pairs| && pairs[i].0 == k &&
    forall j :: i < j < |pairs| ==> pairs[j].0 != k
  }

  /** The keys are the keys assigned, and each maps to its last value. */
  lemma {:induction false} LastWinsSpec<K, V>(pairs: seq<(K, V)>)
    ensures LastWins(pairs).Keys == set i | 0 <= i < |pairs| :: pairs[i].0
    ensures forall i :: 0 <= i < |pairs| && IsLastFor(pairs, pairs[i].0, i) ==> LastWins(pairs)[pairs[i].0] == pairs[i].1
    decreases |pairs|
  {
    if |pairs| > 0 {
      var n := |pairs| - 1;
      var ps := pairs[..n];
      LastWinsSpec(ps);
      assert (set i | 0 <= i < |pairs| :: pairs[i].0) == (set i | 0 <= i < n :: ps[i].0) + {pairs[n].0} by {
        forall i | 0 <= i < n ensures pairs[i].0 == ps[i].0 { }
      }
      forall i | 0 <= i < |pairs| && IsLastFor(pairs, pairs[i].0, i) ensures LastWins(pairs)[pairs[i].0] == pairs[i].1 {
        if i < n {
          assert IsLastFor(ps, ps[i].0, i);
        }
      }
    }
  }

  /** Assigning one more pair overwrites (or adds) its key. */
  lemma LastWinsSnoc<K, V>(pairs: seq<(K, V)>, p: (K, V))
    ensures LastWins(pairs + [p]) == LastWins(pairs)[p.0 := p.1]
  {
    assert (pairs + [p])[..|pairs|] == pairs;
  }

  // ---------------------------------------------------------------------
  // Sums
  // ---------------------------------------------------------------------

  function Sum(xs: seq<nat>): nat
    decreases |xs|
  {
    if |xs| == 0 then 0 else Sum(xs[..|xs| - 1]) + xs[|xs| - 1]
  }
}
