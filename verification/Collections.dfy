/** Facts about sets and sequences that several modules use. */
module Collections {

  lemma Smaller<T>(a: set<T>, b: set<T>)
    requires a <= b
    ensures |a| <= |b|
    ensures |a| == |b| ==> a == b
  {
    assert b == a + (b - a);
  }

  lemma PrefixSlice<T>(v: seq<T>, v': seq<T>, lo: nat, hi: nat)
    requires v <= v' && lo <= hi <= |v|
    ensures v[lo..hi] == v'[lo..hi]
  {
  }

  /** The numbers below n. */
  function Upto(n: nat): (r: set<int>)
    ensures |r| == n && forall i :: i in r <==> 0 <= i < n
  {
    if n == 0 then {} else Upto(n - 1) + {n - 1}
  }

  /** Distinct entries: as many values as positions. */
  lemma {:induction false} DistinctCount(s: seq<int>, m: nat)
    requires m <= |s| && forall a, b :: 0 <= a < b < |s| ==> s[a] != s[b]
    ensures |set b | 0 <= b < m :: s[b]| == m
  {
    if m > 0 {
      DistinctCount(s, m - 1);
      assert (set b | 0 <= b < m :: s[b]) == (set b | 0 <= b < m - 1 :: s[b]) + {s[m - 1]};
    }
  }

  /** v with w written over it from position `at`. */
  function Patch<T>(v: seq<T>, at: nat, w: seq<T>): (r: seq<T>)
    requires at + |w| <= |v|
    ensures |r| == |v|
  {
    v[..at] + w + v[at + |w|..]
  }

  lemma PatchNothing<T>(v: seq<T>, at: nat)
    requires at <= |v|
    ensures Patch(v, at, []) == v
  {
  }

  lemma PatchMore<T>(v: seq<T>, at: nat, w: seq<T>, u: seq<T>)
    requires at + |w| + |u| <= |v|
    ensures Patch(Patch(v, at, w), at + |w|, u) == Patch(v, at, w + u)
  {
  }

  lemma PatchOne<T>(v: seq<T>, at: nat, w: seq<T>, x: T)
    requires at + |w| < |v|
    ensures Patch(v, at, w)[at + |w| := x] == Patch(v, at, w + [x])
  {
  }

  lemma PatchSet<T>(v: seq<T>, at: nat, w: seq<T>, t: nat, x: T)
    requires at + |w| <= |v| && t < |w|
    ensures Patch(v, at, w)[at + t] == w[t]
    ensures Patch(v, at, w)[at + t := x] == Patch(v, at, w[t := x])
  {
  }

  lemma PatchAll<T>(v: seq<T>, w: seq<T>)
    requires |w| == |v|
    ensures Patch(v, 0, w) == w
  {
  }

  lemma PatchElsewhere<T>(v: seq<T>, at: nat, w: seq<T>, lo: nat, hi: nat)
    requires at + |w| <= |v| && lo <= hi <= |v| && (hi <= at || at + |w| <= lo)
    ensures Patch(v, at, w)[lo..hi] == v[lo..hi]
  {
  }

  lemma PatchExtends<T>(v: seq<T>, lo: nat, at: nat, w: seq<T>)
    requires lo <= at && at + |w| <= |v|
    ensures Patch(v, at, w)[lo..at + |w|] == v[lo..at] + w
  {
  }
}
