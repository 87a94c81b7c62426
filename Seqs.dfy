/** Order-preserving filters over sequences: Swift's `filter` and `removeAll(where:)`. */
module Seqs {
  import opened Swift

  /** `a` is obtained from `b` by deleting elements, keeping the order of the rest. */
  predicate IsSubsequence<T(==)>(a: seq<T>, b: seq<T>)
    decreases |b|
  {
    if a == [] then true
    else if b == [] then false
    else if a[0] == b[0] then IsSubsequence(a[1..], b[1..])
    else IsSubsequence(a, b[1..])
  }

  /** `s.filter(p)`. */
  function Filter<T(==)>(p: T -> bool, s: seq<T>): (r: seq<T>)
    ensures |r| <= |s|
    ensures forall i :: 0 <= i < |r| ==> r[i] in s && p(r[i])
    ensures forall i :: 0 <= i < |s| && p(s[i]) ==> s[i] in r
    ensures forall i :: 0 <= i < |s| ==> multiset(r)[s[i]] == if p(s[i]) then multiset(s)[s[i]] else 0
    ensures IsSubsequence(r, s)
  {
    if s == [] then []
    else
      var rest := Filter(p, s[1..]);
      if p(s[0]) then
        FilterCountStep(p, s, rest, [s[0]] + rest);
        [s[0]] + rest
      else
        FilterCountStep(p, s, rest, rest);
        rest
  }

  /** The count of every element after one more step of `Filter`. */
  lemma FilterCountStep<T>(p: T -> bool, s: seq<T>, rest: seq<T>, r: seq<T>)
    requires s != []
    requires forall i :: 0 <= i < |rest| ==> rest[i] in s[1..]
    requires forall i :: 0 <= i < |s[1..]| ==>
      multiset(rest)[s[1..][i]] == if p(s[1..][i]) then multiset(s[1..])[s[1..][i]] else 0
    requires r == if p(s[0]) then [s[0]] + rest else rest
    ensures forall i :: 0 <= i < |s| ==> multiset(r)[s[i]] == if p(s[i]) then multiset(s)[s[i]] else 0
  {
    var t := s[1..];
    assert s == [s[0]] + t;
    var ms := multiset(s);
    assert ms == multiset{s[0]} + multiset(t);
    var mr := multiset(r);
    assert mr == (if p(s[0]) then multiset{s[0]} else multiset{}) + multiset(rest);
    forall i | 0 <= i < |s|
      ensures mr[s[i]] == if p(s[i]) then ms[s[i]] else 0
    {
      var x := s[i];
      if x in t {
        var j :| 0 <= j < |t| && t[j] == x;
        assert multiset(rest)[t[j]] == if p(t[j]) then multiset(t)[t[j]] else 0;
      } else {
        assert x !in multiset(rest);
      }
    }
  }

  /** `s.removeAll(where: p)` keeps exactly what `filter` with the negation keeps. */
  function RemoveWhere<T(==)>(p: T -> bool, s: seq<T>): (r: seq<T>)
    ensures forall i :: 0 <= i < |r| ==> r[i] in s && !p(r[i])
    ensures forall i :: 0 <= i < |s| && !p(s[i]) ==> s[i] in r
    ensures forall i :: 0 <= i < |s| ==> multiset(r)[s[i]] == if p(s[i]) then 0 else multiset(s)[s[i]]
    ensures IsSubsequence(r, s)
  {
    Filter(x => !p(x), s)
  }

  lemma {:induction false} IsSubsequenceRefl<T>(s: seq<T>)
    ensures IsSubsequence(s, s)
  {
    if s != [] {
      IsSubsequenceRefl(s[1..]);
    }
  }

  /** Dropping the first element of a subsequence keeps it a subsequence. */
  lemma {:induction false} IsSubsequenceDropHead<T>(a: seq<T>, b: seq<T>)
    requires a != [] && IsSubsequence(a, b)
    ensures IsSubsequence(a[1..], b)
    decreases |b|, 1
  {
    if a[0] == b[0] {
      IsSubsequenceDropHead2(a[1..], b);
    } else {
      IsSubsequenceDropHead(a, b[1..]);
      IsSubsequenceDropHead2(a[1..], b);
    }
  }

  /** A subsequence of a tail is a subsequence of the whole. */
  lemma {:induction false} IsSubsequenceDropHead2<T>(a: seq<T>, b: seq<T>)
    requires b != [] && IsSubsequence(a, b[1..])
    ensures IsSubsequence(a, b)
    decreases |b|, 0
  {
    if a != [] && a[0] == b[0] {
      IsSubsequenceDropHead(a, b[1..]);
    }
  }

  lemma {:induction false} IsSubsequenceTransitive<T>(a: seq<T>, b: seq<T>, c: seq<T>)
    requires IsSubsequence(a, b) && IsSubsequence(b, c)
    ensures IsSubsequence(a, c)
    decreases |c|
  {
    if a == [] || c == [] {
    } else if b[0] == c[0] {
      if a[0] == b[0] {
        IsSubsequenceTransitive(a[1..], b[1..], c[1..]);
      } else {
        IsSubsequenceTransitive(a, b[1..], c[1..]);
      }
    } else {
      IsSubsequenceTransitive(a, b, c[1..]);
      IsSubsequenceDropHead2(a, c);
    }
  }

  /** A filter that keeps everything changes nothing. */
  lemma {:induction false} FilterKeepsAll<T>(p: T -> bool, s: seq<T>)
    requires forall x :: x in s ==> p(x)
    ensures Filter(p, s) == s
  {
    if s != [] {
      FilterKeepsAll(p, s[1..]);
    }
  }

  /** A filter that keeps nothing leaves the empty sequence. */
  lemma {:induction false} FilterKeepsNone<T>(p: T -> bool, s: seq<T>)
    requires forall x :: x in s ==> !p(x)
    ensures Filter(p, s) == []
  {
    if s != [] {
      FilterKeepsNone(p, s[1..]);
    }
  }

  lemma {:induction false} FilterConcat<T>(p: T -> bool, a: seq<T>, b: seq<T>)
    ensures Filter(p, a + b) == Filter(p, a) + Filter(p, b)
  {
    if a != [] {
      assert (a + b)[0] == a[0] && (a + b)[1..] == a[1..] + b;
      FilterConcat(p, a[1..], b);
      if p(a[0]) {
        assert Filter(p, a + b) == [a[0]] + Filter(p, a[1..] + b);
      } else {
        assert Filter(p, a + b) == Filter(p, a[1..] + b);
      }
    } else {
      assert a + b == b;
    }
  }

  /** Filtering twice is filtering once by both conditions. */
  lemma {:induction false} FilterFilter<T>(p: T -> bool, q: T -> bool, s: seq<T>)
    ensures Filter(q, Filter(p, s)) == Filter(x => p(x) && q(x), s)
  {
    if s != [] {
      FilterFilter(p, q, s[1..]);
    }
  }

  /** What a filter keeps and what it drops add up to the whole sequence. */
  lemma {:induction false} FilterPartition<T>(p: T -> bool, q: T -> bool, s: seq<T>)
    requires forall x :: x in s ==> (q(x) <==> !p(x))
    ensures |Filter(p, s)| + |Filter(q, s)| == |s|
  {
    if s != [] {
      FilterPartition(p, q, s[1..]);
    }
  }

  /** `s.firstIndex(where: p)`: the first index whose element satisfies `p`, if any. */
  function FirstIndex<T>(p: T -> bool, s: seq<T>): (r: Option<nat>)
    ensures r.Some? ==> r.value < |s| && p(s[r.value]) && forall j :: 0 <= j < r.value ==> !p(s[j])
    ensures r.None? <==> forall j :: 0 <= j < |s| ==> !p(s[j])
  {
    if s == [] then None
    else if p(s[0]) then Some(0)
    else match FirstIndex(p, s[1..])
      case None => None
      case Some(k) => Some(k + 1)
  }

  /** How many of `lo`, `lo + 1`, ..., `hi - 1` belong to `d`. */
  function CountIn(d: set<int>, lo: int, hi: int): (r: nat)
    ensures r <= if hi <= lo then 0 else hi - lo
    decreases hi - lo
  {
    if hi <= lo then 0 else (if lo in d then 1 else 0) + CountIn(d, lo + 1, hi)
  }

  /**
    The elements of `s`, whose first element has index `base`, whose indices are not
    in `d`, in their original order.
  */
  function RemovedFrom<T>(s: seq<T>, d: set<int>, base: int): (r: seq<T>)
    ensures |r| == |s| - CountIn(d, base, base + |s|)
  {
    if s == [] then []
    else (if base in d then [] else [s[0]]) + RemovedFrom(s[1..], d, base + 1)
  }

  /** `s.remove(atOffsets: d)`. */
  function RemovedAt<T>(s: seq<T>, d: set<int>): (r: seq<T>)
    ensures |r| == |s| - CountIn(d, 0, |s|)
  {
    RemovedFrom(s, d, 0)
  }

  /** What `remove(atOffsets:)` leaves is a subsequence of what it started with. */
  lemma {:induction false} RemovedFromIsSubsequence<T>(s: seq<T>, d: set<int>, base: int)
    ensures IsSubsequence(RemovedFrom(s, d, base), s)
  {
    if s != [] {
      var rest := RemovedFrom(s[1..], d, base + 1);
      RemovedFromIsSubsequence(s[1..], d, base + 1);
      if base in d {
        assert RemovedFrom(s, d, base) == rest;
        IsSubsequenceDropHead2(rest, s);
      } else {
        assert ([s[0]] + rest)[1..] == rest;
      }
    }
  }

  /**
    Every element whose index is not removed survives, moved forward by the number of
    removed indices before it.
  */
  lemma {:induction false} RemovedFromPosition<T>(s: seq<T>, d: set<int>, base: int, i: int)
    requires base <= i < base + |s| && i !in d
    ensures 0 <= i - base - CountIn(d, base, i) < |RemovedFrom(s, d, base)|
    ensures RemovedFrom(s, d, base)[i - base - CountIn(d, base, i)] == s[i - base]
  {
    var rest := RemovedFrom(s[1..], d, base + 1);
    CountInSplit(d, base, i, base + |s|);
    if i == base {
    } else {
      RemovedFromPosition(s[1..], d, base + 1, i);
      if base in d {
        assert RemovedFrom(s, d, base) == rest;
      } else {
        assert RemovedFrom(s, d, base) == [s[0]] + rest;
      }
    }
  }

  /** Counting over `lo..hi` splits at any `mid` between them. */
  lemma {:induction false} CountInSplit(d: set<int>, lo: int, mid: int, hi: int)
    requires lo <= mid <= hi
    ensures CountIn(d, lo, hi) == CountIn(d, lo, mid) + CountIn(d, mid, hi)
    decreases mid - lo
  {
    if lo < mid {
      CountInSplit(d, lo + 1, mid, hi);
    }
  }

  /** The count only looks at `lo..hi`. */
  lemma {:induction false} CountInLocal(d: set<int>, e: set<int>, lo: int, hi: int)
    requires forall x :: lo <= x < hi ==> (x in d <==> x in e)
    ensures CountIn(d, lo, hi) == CountIn(e, lo, hi)
    decreases hi - lo
  {
    if lo < hi {
      CountInLocal(d, e, lo + 1, hi);
    }
  }

  /** When every member of `d` lies in `lo..hi`, the count is the size of `d`. */
  lemma {:induction false} CountInAll(d: set<int>, lo: int, hi: int)
    requires forall x :: x in d ==> lo <= x < hi
    ensures CountIn(d, lo, hi) == |d|
    decreases hi - lo
  {
    if hi <= lo {
      assert d == {} by {
        forall x | x in d ensures false { }
      }
    } else {
      var rest := d - {lo};
      CountInAll(rest, lo + 1, hi);
      CountInLocal(d, rest, lo + 1, hi);
      if lo in d {
        assert d == rest + {lo};
      } else {
        assert d == rest;
      }
    }
  }

  /**
    `remove(atOffsets:)` with offsets that are all valid indices: the count drops by the
    number of offsets, and exactly the elements at the other indices remain, in order.
  */
  lemma RemovedAtProperties<T>(s: seq<T>, d: set<int>)
    requires forall x :: x in d ==> 0 <= x < |s|
    ensures |RemovedAt(s, d)| == |s| - |d|
    ensures IsSubsequence(RemovedAt(s, d), s)
    ensures forall i :: 0 <= i < |s| && i !in d ==>
              0 <= i - CountIn(d, 0, i) < |RemovedAt(s, d)| && RemovedAt(s, d)[i - CountIn(d, 0, i)] == s[i]
  {
    CountInAll(d, 0, |s|);
    RemovedFromIsSubsequence(s, d, 0);
    forall i | 0 <= i < |s| && i !in d
      ensures 0 <= i - CountIn(d, 0, i) < |RemovedAt(s, d)| && RemovedAt(s, d)[i - CountIn(d, 0, i)] == s[i]
    {
      RemovedFromPosition(s, d, 0, i);
    }
  }

  /** Every element of a subsequence is an element of the whole. */
  lemma {:induction false} SubsequenceMembers<T>(a: seq<T>, b: seq<T>)
    requires IsSubsequence(a, b)
    ensures forall k :: 0 <= k < |a| ==> a[k] in b
    decreases |b|
  {
    if a != [] {
      if a[0] == b[0] {
        SubsequenceMembers(a[1..], b[1..]);
        forall k | 0 <= k < |a| ensures a[k] in b {
          if k > 0 {
            assert a[k] == a[1..][k - 1];
          }
        }
      } else {
        SubsequenceMembers(a, b[1..]);
      }
    }
  }
}
