/**
 * A stable sort by a natural-number rank: what `[...xs].sort((a, b) =>
 * rank(a) - rank(b))` computes in JavaScript, whose `Array.prototype.sort`
 * is stable.  The sort is insertion sort; it is proved sorted, a
 * permutation, and stable (each rank's elements keep their input order),
 * and, as an independent reference, equal to the concatenation of the
 * rank buckets 0, 1, ..., K.
 */
module StableSort {

  predicate SortedBy<T>(s: seq<T>, rank: T -> nat) {
    forall i, j :: 0 <= i < j < |s| ==> rank(s[i]) <= rank(s[j])
  }

  /** The elements of `s` whose rank is `k`, in input order. */
  function WithRank<T>(s: seq<T>, rank: T -> nat, k: nat): (r: seq<T>)
    ensures forall y :: y in r ==> y in s && rank(y) == k
  {
    if s == [] then []
    else (if rank(s[0]) == k then [s[0]] else []) + WithRank(s[1..], rank, k)
  }

  /** Insert `x` in front of the first element whose rank is not smaller. */
  function Insert<T>(x: T, s: seq<T>, rank: T -> nat): (r: seq<T>)
    ensures |r| == |s| + 1
    ensures multiset(r) == multiset(s) + multiset{x}
    ensures forall y :: y in r ==> y == x || y in s
    ensures SortedBy(s, rank) ==> SortedBy(r, rank)
    decreases |s|, 1
  {
    if s == [] || rank(x) <= rank(s[0]) then [x] + s
    else
      InsertBehindHead(x, s, rank);
      assert s == [s[0]] + s[1..];
      [s[0]] + Insert(x, s[1..], rank)
  }

  lemma InsertBehindHead<T>(x: T, s: seq<T>, rank: T -> nat)
    requires s != [] && rank(s[0]) < rank(x)
    ensures SortedBy(s, rank) ==> SortedBy([s[0]] + Insert(x, s[1..], rank), rank)
    decreases |s|, 0
  {
    if SortedBy(s, rank) {
      var t := Insert(x, s[1..], rank);
      forall y | y in t ensures rank(s[0]) <= rank(y) {
        if y != x {
          var j :| 0 <= j < |s[1..]| && s[1..][j] == y;
          assert s[j + 1] == y;
        }
      }
      SortedCons(s[0], t, rank);
    }
  }

  lemma SortedCons<T>(x: T, t: seq<T>, rank: T -> nat)
    requires SortedBy(t, rank)
    requires forall y :: y in t ==> rank(x) <= rank(y)
    ensures SortedBy([x] + t, rank)
  {
    var r := [x] + t;
    forall i, j | 0 <= i < j < |r| ensures rank(r[i]) <= rank(r[j]) {
      assert r[j] == t[j - 1];
      if i > 0 {
        assert r[i] == t[i - 1];
      } else {
        assert r[j] in t;
      }
    }
  }

  /** The stable sort of `s` by `rank`. */
  function Sort<T>(s: seq<T>, rank: T -> nat): (r: seq<T>)
    ensures |r| == |s|
    ensures multiset(r) == multiset(s)
    ensures SortedBy(r, rank)
  {
    if s == [] then []
    else
      assert s == [s[0]] + s[1..];
      Insert(s[0], Sort(s[1..], rank), rank)
  }

  /** The first element of the sort has the smallest rank and the last
      one the largest. */
  lemma SortEnds<T>(s: seq<T>, rank: T -> nat, x: T)
    requires x in s
    ensures rank(Sort(s, rank)[0]) <= rank(x) <= rank(Sort(s, rank)[|s| - 1])
  {
    var r := Sort(s, rank);
    assert x in r by {
      assert x in multiset(s);
    }
    var j :| 0 <= j < |r| && r[j] == x;
    assert SortedBy(r, rank);
    if 0 < j {
      assert rank(r[0]) <= rank(r[j]);
    }
    if j < |r| - 1 {
      assert rank(r[j]) <= rank(r[|r| - 1]);
    }
  }

  lemma {:induction false} WithRankOfCons<T>(x: T, s: seq<T>, rank: T -> nat, k: nat)
    ensures WithRank([x] + s, rank, k) == (if rank(x) == k then [x] else []) + WithRank(s, rank, k)
  {
    assert ([x] + s)[0] == x;
    assert ([x] + s)[1..] == s;
  }

  lemma AppendAssoc<T>(a: seq<T>, b: seq<T>, c: seq<T>)
    ensures (a + b) + c == a + (b + c)
  {
  }

  lemma {:induction false} InsertWithRank<T>(x: T, s: seq<T>, rank: T -> nat, k: nat)
    requires SortedBy(s, rank)
    ensures WithRank(Insert(x, s, rank), rank, k)
         == (if rank(x) == k then [x] else []) + WithRank(s, rank, k)
  {
    if s == [] || rank(x) <= rank(s[0]) {
      WithRankOfCons(x, s, rank, k);
    } else {
      var t := Insert(x, s[1..], rank);
      var head := if rank(s[0]) == k then [s[0]] else [];
      var mine := if rank(x) == k then [x] else [];
      assert SortedBy(s[1..], rank);
      calc {
        WithRank(Insert(x, s, rank), rank, k);
        WithRank([s[0]] + t, rank, k);
        { WithRankOfCons(s[0], t, rank, k); }
        head + WithRank(t, rank, k);
        { InsertWithRank(x, s[1..], rank, k); }
        head + (mine + WithRank(s[1..], rank, k));
        { AppendAssoc(head, mine, WithRank(s[1..], rank, k)); }
        (head + mine) + WithRank(s[1..], rank, k);
        { assert head + mine == mine + head; AppendAssoc(mine, head, WithRank(s[1..], rank, k)); }
        mine + (head + WithRank(s[1..], rank, k));
        { WithRankOfCons(s[0], s[1..], rank, k); assert [s[0]] + s[1..] == s; }
        mine + WithRank(s, rank, k);
      }
    }
  }

  /** Stability: for every rank, the sort keeps that rank's elements in
      their input order. */
  lemma {:induction false} SortIsStable<T>(s: seq<T>, rank: T -> nat, k: nat)
    ensures WithRank(Sort(s, rank), rank, k) == WithRank(s, rank, k)
  {
    if s != [] {
      SortIsStable(s[1..], rank, k);
      InsertWithRank(s[0], Sort(s[1..], rank), rank, k);
    }
  }

  /** The rank-0 elements, then the rank-1 elements, ..., then the rank-K
      elements, each group in input order. */
  function Buckets<T>(s: seq<T>, rank: T -> nat, K: nat): seq<T> {
    if K == 0 then WithRank(s, rank, 0) else Buckets(s, rank, K - 1) + WithRank(s, rank, K)
  }

  lemma {:induction false} WithRankAbsent<T>(s: seq<T>, rank: T -> nat, k: nat)
    requires forall y :: y in s ==> rank(y) != k
    ensures WithRank(s, rank, k) == []
  {
    if s != [] {
      WithRankAbsent(s[1..], rank, k);
    }
  }

  lemma {:induction false} BucketsBelow<T>(s: seq<T>, rank: T -> nat, K: nat)
    requires forall y :: y in s ==> rank(y) > K
    ensures Buckets(s, rank, K) == []
  {
    WithRankAbsent(s, rank, K);
    if K > 0 {
      BucketsBelow(s, rank, K - 1);
    }
  }

  /** The head of a list whose rank is the smallest and equals `K` opens
      the bucket of rank `K`, every lower bucket being empty. */
  lemma BucketsConsAtRank<T>(x: T, s: seq<T>, rank: T -> nat, K: nat)
    requires rank(x) == K > 0
    requires forall y :: y in s ==> K <= rank(y)
    ensures Buckets([x] + s, rank, K) == [x] + Buckets(s, rank, K)
  {
    var below := Buckets([x] + s, rank, K - 1);
    assert below == [] by {
      forall y | y in [x] + s ensures rank(y) > K - 1 {
        if y != x {
          assert y in s;
        }
      }
      BucketsBelow([x] + s, rank, K - 1);
    }
    assert Buckets(s, rank, K - 1) == [] by {
      BucketsBelow(s, rank, K - 1);
    }
    assert WithRank([x] + s, rank, K) == [x] + WithRank(s, rank, K) by {
      WithRankOfCons(x, s, rank, K);
    }
  }

  lemma {:induction false} BucketsCons<T>(x: T, s: seq<T>, rank: T -> nat, K: nat)
    requires rank(x) <= K
    requires forall y :: y in s ==> rank(x) <= rank(y)
    ensures Buckets([x] + s, rank, K) == [x] + Buckets(s, rank, K)
  {
    if K == 0 {
      WithRankOfCons(x, s, rank, K);
    } else if K == rank(x) {
      BucketsConsAtRank(x, s, rank, K);
    } else {
      var lower := Buckets(s, rank, K - 1);
      var top := WithRank(s, rank, K);
      assert Buckets([x] + s, rank, K - 1) == [x] + lower by {
        BucketsCons(x, s, rank, K - 1);
      }
      assert WithRank([x] + s, rank, K) == top by {
        WithRankOfCons(x, s, rank, K);
      }
      AppendAssoc([x], lower, top);
    }
  }

  /** A sorted sequence is already grouped into its rank buckets. */
  lemma {:induction false} SortedIsBuckets<T>(t: seq<T>, rank: T -> nat, K: nat)
    requires SortedBy(t, rank)
    requires forall y :: y in t ==> rank(y) <= K
    ensures t == Buckets(t, rank, K)
  {
    if t == [] {
      BucketsBelow(t, rank, K);
    } else {
      SortedIsBuckets(t[1..], rank, K);
      assert [t[0]] + t[1..] == t;
      forall y | y in t[1..] ensures rank(t[0]) <= rank(y) {
        var j :| 0 <= j < |t[1..]| && t[1..][j] == y;
        assert t[j + 1] == y;
      }
      BucketsCons(t[0], t[1..], rank, K);
    }
  }

  lemma {:induction false} BucketsAgree<T>(a: seq<T>, b: seq<T>, rank: T -> nat, K: nat)
    requires forall k :: 0 <= k <= K ==> WithRank(a, rank, k) == WithRank(b, rank, k)
    ensures Buckets(a, rank, K) == Buckets(b, rank, K)
  {
    if K > 0 {
      BucketsAgree(a, b, rank, K - 1);
    }
  }

  /** The reference characterisation: when every rank is at most K, the
      stable sort is exactly the concatenation of the rank buckets. */
  lemma SortIsBuckets<T>(s: seq<T>, rank: T -> nat, K: nat)
    requires forall y :: y in s ==> rank(y) <= K
    ensures Sort(s, rank) == Buckets(s, rank, K)
  {
    var t := Sort(s, rank);
    forall y | y in t ensures rank(y) <= K {
      assert y in multiset(t);
    }
    SortedIsBuckets(t, rank, K);
    forall k | 0 <= k <= K ensures WithRank(t, rank, k) == WithRank(s, rank, k) {
      SortIsStable(s, rank, k);
    }
    BucketsAgree(t, s, rank, K);
  }
}
