// How often an entry is on a trail.
module TrailCount {
  import opened Terms

  /** How often e occurs in m from lo up to hi. */
  ghost function Count(m: seq<Cell>, lo: nat, hi: nat, e: Cell): nat
    requires hi <= |m|
    decreases hi
  {
    if hi <= lo then 0 else Count(m, lo, hi - 1, e) + if m[hi - 1] == e then 1 else 0
  }

  lemma {:induction false} CountFirst(m: seq<Cell>, lo: nat, hi: nat, e: Cell)
    requires lo < hi <= |m|
    ensures Count(m, lo, hi, e) == Count(m, lo + 1, hi, e) + if m[lo] == e then 1 else 0
    decreases hi
  {
    if lo + 1 < hi { CountFirst(m, lo, hi - 1, e); }
  }

  lemma {:induction false} CountSame(m: seq<Cell>, n: seq<Cell>, lo: nat, hi: nat, e: Cell)
    requires hi <= |m| && hi <= |n| && forall i :: lo <= i < hi ==> m[i] == n[i]
    ensures Count(m, lo, hi, e) == Count(n, lo, hi, e)
    decreases hi
  {
    if lo < hi { CountSame(m, n, lo, hi - 1, e); }
  }

  lemma {:induction false} CountIsMultiplicity(m: seq<Cell>, lo: nat, hi: nat, e: Cell)
    requires lo <= hi <= |m|
    ensures Count(m, lo, hi, e) == multiset(m[lo..hi])[e]
    decreases hi
  {
    if lo < hi {
      CountIsMultiplicity(m, lo, hi - 1, e);
      assert m[lo..hi] == m[lo..hi - 1] + [m[hi - 1]];
    }
  }

  lemma {:induction false} CountMember(m: seq<Cell>, lo: nat, hi: nat, i: nat)
    requires lo <= i < hi <= |m|
    ensures Count(m, lo, hi, m[i]) >= 1
    decreases hi
  {
    if i < hi - 1 { CountMember(m, lo, hi - 1, i); }
  }

  lemma {:induction false} CountSplit(m: seq<Cell>, lo: nat, mid: nat, hi: nat, e: Cell)
    requires lo <= mid <= hi <= |m|
    ensures Count(m, lo, hi, e) == Count(m, lo, mid, e) + Count(m, mid, hi, e)
    decreases hi
  {
    if mid < hi { CountSplit(m, lo, mid, hi - 1, e); }
  }

  /** No entry is in m' from behind lo' up to hi more often than in m from behind lo. */
  ghost predicate Fewer(m: seq<Cell>, m': seq<Cell>, lo: nat, lo': nat, hi: nat)
    requires hi < |m| && hi < |m'|
  {
    forall e {:trigger Count(m', lo' + 1, hi + 1, e)} :: Count(m', lo' + 1, hi + 1, e) <= Count(m, lo + 1, hi + 1, e)
  }
}
