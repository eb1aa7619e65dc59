/** Sizes of finite sets. */
module Sets {

  lemma {:induction false} SubsetSize<T>(s: set<T>, t: set<T>)
    requires s <= t
    ensures |s| <= |t|
  {
    if s != {} {
      var x :| x in s;
      SubsetSize(s - {x}, t - {x});
    }
  }

  lemma SubsetSame<T>(s: set<T>, t: set<T>)
    requires s <= t && |s| == |t|
    ensures s == t
  {
    if t - s != {} {
      var x :| x in t - s;
      SubsetSize(s, t - {x});
      assert false;
    }
  }

  lemma DisjointSize<T>(s: set<T>, t: set<T>)
    requires s !! t
    ensures |s + t| == |s| + |t|
  {
    assert s * t == {};
  }

  lemma SplitSize<T>(s: set<T>, t: set<T>)
    requires t <= s
    ensures |s| == |s - t| + |t|
  {
    assert s == (s - t) + t;
    DisjointSize(s - t, t);
  }

  ghost predicate Distinct<T>(s: seq<T>) {
    forall i, j :: 0 <= i < j < |s| ==> s[i] != s[j]
  }

  lemma {:induction false} DistinctSize<T>(s: seq<T>)
    requires Distinct(s)
    ensures |set i | 0 <= i < |s| :: s[i]| == |s|
  {
    if s != [] {
      var m := |s| - 1;
      DistinctSize(s[..m]);
      var t := set i | 0 <= i < m :: s[..m][i];
      assert (set i | 0 <= i < |s| :: s[i]) == t + {s[m]};
    }
  }

  /** The numbers from lo up to hi. */
  ghost function Between(lo: int, hi: int): (s: set<int>)
    requires lo <= hi
    ensures forall v :: v in s <==> lo <= v < hi
    decreases hi - lo
  {
    if lo == hi then {} else Between(lo, hi - 1) + {hi - 1}
  }

  lemma {:induction false} BetweenSize(lo: int, hi: int)
    requires lo <= hi
    ensures |Between(lo, hi)| == hi - lo
    decreases hi - lo
  {
    if lo < hi {
      BetweenSize(lo, hi - 1);
    }
  }

  /** Distinct numbers below n that avoid one of them are fewer than n. */
  lemma Pigeons(s: seq<nat>, n: nat, b: nat)
    requires Distinct(s) && b < n && forall i :: 0 <= i < |s| ==> s[i] < n && s[i] != b
    ensures |s| < n
  {
    var t: set<int> := set i | 0 <= i < |s| :: s[i];
    DistinctSize<int>(s);
    BetweenSize(0, n);
    SubsetSize(t + {b}, Between(0, n));
  }
}
