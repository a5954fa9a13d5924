/** Sums of multisets over a range of integers. */
module RangeSums {

  ghost function SumOf<T>(f: int -> multiset<T>, lo: int, hi: int): multiset<T>
    decreases hi - lo
  {
    if hi <= lo then multiset{} else SumOf(f, lo, hi - 1) + f(hi - 1)
  }

  lemma {:induction false} SumOfSame<T>(f: int -> multiset<T>, f': int -> multiset<T>, lo: int, hi: int)
    requires forall b :: lo <= b < hi ==> f'(b) == f(b)
    ensures SumOf(f', lo, hi) == SumOf(f, lo, hi)
    decreases hi - lo
  {
    if lo < hi { SumOfSame(f, f', lo, hi - 1); }
  }

  lemma {:induction false} SumOfSplit<T>(f: int -> multiset<T>, lo: int, mid: int, hi: int)
    requires lo <= mid <= hi
    ensures SumOf(f, lo, hi) == SumOf(f, lo, mid) + SumOf(f, mid, hi)
    decreases hi - mid
  {
    if mid < hi {
      SumOfSplit(f, lo, mid, hi - 1);
      assert SumOf(f, mid, hi) == SumOf(f, mid, hi - 1) + f(hi - 1);
    }
  }

  lemma SumOfFirst<T>(f: int -> multiset<T>, lo: int, hi: int)
    requires lo < hi
    ensures SumOf(f, lo, hi) == f(lo) + SumOf(f, lo + 1, hi)
  {
    SumOfSplit(f, lo, lo + 1, hi);
    assert SumOf(f, lo, lo) == multiset{};
    assert SumOf(f, lo, lo + 1) == SumOf(f, lo, lo) + f(lo) == f(lo);
  }

  /** Changing one term changes the sum by exactly that term's change. */
  lemma {:induction false} SumOfChanged<T>(f: int -> multiset<T>, f': int -> multiset<T>, x: int, lo: int, hi: int)
    requires lo <= x < hi
    requires forall b :: lo <= b < hi && b != x ==> f'(b) == f(b)
    ensures SumOf(f', lo, hi) + f(x) == SumOf(f, lo, hi) + f'(x)
    decreases hi - lo
  {
    if x == hi - 1 {
      SumOfSame(f, f', lo, hi - 1);
    } else {
      SumOfChanged(f, f', x, lo, hi - 1);
      assert SumOf(f', lo, hi) + f(x) == (SumOf(f', lo, hi - 1) + f(x)) + f(hi - 1);
    }
  }

  lemma {:induction false} SumOfMembers<T>(f: int -> multiset<T>, lo: int, hi: int, e: T)
    ensures e in SumOf(f, lo, hi) <==> exists b :: lo <= b < hi && e in f(b)
    decreases hi - lo
  {
    if lo < hi {
      SumOfMembers(f, lo, hi - 1, e);
      assert e in SumOf(f, lo, hi) <==> e in SumOf(f, lo, hi - 1) || e in f(hi - 1);
    }
  }

  lemma {:induction false} SumOfEmpty<T>(f: int -> multiset<T>, lo: int, hi: int)
    requires forall b :: lo <= b < hi ==> f(b) == multiset{}
    ensures SumOf(f, lo, hi) == multiset{}
    decreases hi - lo
  {
    if lo < hi { SumOfEmpty(f, lo, hi - 1); }
  }

  /** Terms of size at most one: the sum has the full size exactly when no term is empty. */
  lemma {:induction false} SumOfSize<T>(f: int -> multiset<T>, lo: int, hi: int)
    requires lo <= hi && forall b :: lo <= b < hi ==> |f(b)| <= 1
    ensures |SumOf(f, lo, hi)| <= hi - lo
    ensures |SumOf(f, lo, hi)| == hi - lo <==> forall b :: lo <= b < hi ==> |f(b)| == 1
    decreases hi - lo
  {
    if lo < hi { SumOfSize(f, lo, hi - 1); }
  }
}
