/**
 * `itertools.groupby` over keys computed one reading at a time: the maximal
 * runs of consecutive equal keys. A key that cannot be computed (`None`)
 * stops the grouping where it is reached.
 */
module GroupBy {
  import opened Wrappers

  /** One run: the positions `lo` up to but not including `hi` all have key `key`. */
  datatype Bucket<K> = Bucket(key: K, lo: int, hi: int)

  /**
   * Where the run that starts at position `i` with key `k` ends: the first
   * later position whose key differs from `k` or cannot be computed.
   */
  function GroupEnd<K(==)>(ks: seq<Option<K>>, i: int, k: K): (j: int)
    requires 0 <= i < |ks|
    ensures i < j <= |ks|
    ensures forall m :: i < m < j ==> ks[m] == Some(k)
    ensures j < |ks| ==> ks[j] != Some(k)
    decreases |ks| - i
  {
    if i + 1 < |ks| && ks[i + 1] == Some(k) then GroupEnd(ks, i + 1, k) else i + 1
  }

  /** The runs from the one starting at position `i` with key `k`; `None` when a later key is missing. */
  function BucketsFrom<K(==)>(ks: seq<Option<K>>, i: int, k: K): Option<seq<Bucket<K>>>
    requires 0 <= i < |ks| && ks[i] == Some(k)
    decreases |ks| - i
  {
    var j := GroupEnd(ks, i, k);
    if j == |ks| then Some([Bucket(k, i, j)])
    else
      match ks[j]
      case None => None
      case Some(k') =>
        match BucketsFrom(ks, j, k')
        case None => None
        case Some(rest) => Some([Bucket(k, i, j)] + rest)
  }

  /** The runs of a whole key sequence; `None` when some key is missing. */
  function Buckets<K(==)>(ks: seq<Option<K>>): Option<seq<Bucket<K>>> {
    if |ks| == 0 then Some([])
    else
      match ks[0]
      case None => None
      case Some(k) => BucketsFrom(ks, 0, k)
  }

  /**
   * `bs` is what groupby makes of the keys from position `i` on: non-empty
   * runs that tile them in order, each of one key, with neighbouring runs
   * of different keys.
   */
  ghost predicate IsRunsFrom<K>(ks: seq<Option<K>>, i: int, bs: seq<Bucket<K>>) {
    && (|bs| == 0 <==> i == |ks|)
    && (|bs| > 0 ==> bs[0].lo == i && bs[|bs| - 1].hi == |ks|)
    && (forall x :: 0 <= x < |bs| ==> i <= bs[x].lo < bs[x].hi <= |ks|)
    && (forall x :: 0 <= x < |bs| - 1 ==> bs[x].hi == bs[x + 1].lo)
    && (forall x, m :: 0 <= x < |bs| && bs[x].lo <= m < bs[x].hi && 0 <= m < |ks| ==> ks[m] == Some(bs[x].key))
    && (forall x :: 0 <= x < |bs| - 1 ==> bs[x].key != bs[x + 1].key)
  }

  /** The runs from `i` are the maximal runs of the keys, and exist exactly when every key from `i` on does. */
  lemma {:induction false} BucketsFromRuns<K>(ks: seq<Option<K>>, i: int, k: K)
    requires 0 <= i < |ks| && ks[i] == Some(k)
    ensures BucketsFrom(ks, i, k).Some? <==> forall m :: i <= m < |ks| ==> ks[m].Some?
    ensures BucketsFrom(ks, i, k).Some? ==> IsRunsFrom(ks, i, BucketsFrom(ks, i, k).value)
    decreases |ks| - i
  {
    var j := GroupEnd(ks, i, k);
    if j < |ks| && ks[j].Some? {
      var k' := ks[j].value;
      BucketsFromRuns(ks, j, k');
      var r := BucketsFrom(ks, j, k');
      if r.Some? {
        RunsCons(ks, Bucket(k, i, j), r.value);
      }
    }
  }

  lemma {:induction false} RunsCons<K>(ks: seq<Option<K>>, b: Bucket<K>, rest: seq<Bucket<K>>)
    requires 0 <= b.lo < b.hi < |ks| && IsRunsFrom(ks, b.hi, rest)
    requires forall m :: b.lo <= m < b.hi ==> ks[m] == Some(b.key)
    requires ks[b.hi] != Some(b.key)
    ensures IsRunsFrom(ks, b.lo, [b] + rest)
  {
    var bs := [b] + rest;
    assert bs[0] == b;
    assert rest[0].lo == b.hi;
    forall x | 1 <= x < |bs|
      ensures bs[x] == rest[x - 1]
    {
    }
    forall x | 0 <= x < |bs| - 1
      ensures bs[x].hi == bs[x + 1].lo && bs[x].key != bs[x + 1].key
    {
      if x == 0 {
        assert ks[rest[0].lo] == Some(rest[0].key);
      } else {
        assert bs[x] == rest[x - 1] && bs[x + 1] == rest[x];
      }
    }
    assert bs[|bs| - 1] == rest[|rest| - 1];
  }

  /** `Buckets` is groupby: defined exactly when every key is, and then the maximal runs from position 0. */
  lemma BucketsAreRuns<K>(ks: seq<Option<K>>)
    ensures Buckets(ks).Some? <==> forall m :: 0 <= m < |ks| ==> ks[m].Some?
    ensures Buckets(ks).Some? ==> IsRunsFrom(ks, 0, Buckets(ks).value)
  {
    if |ks| > 0 && ks[0].Some? {
      BucketsFromRuns(ks, 0, ks[0].value);
    }
  }

  /** Every position from `i` on lies in exactly one run. */
  lemma {:induction false} RunsCover<K>(ks: seq<Option<K>>, i: int, bs: seq<Bucket<K>>, m: int)
    requires IsRunsFrom(ks, i, bs) && i <= m < |ks|
    ensures exists x :: 0 <= x < |bs| && bs[x].lo <= m < bs[x].hi
    ensures forall x, y :: 0 <= x < |bs| && 0 <= y < |bs| && bs[x].lo <= m < bs[x].hi && bs[y].lo <= m < bs[y].hi ==> x == y
  {
    var x := 0;
    while bs[x].hi <= m
      invariant 0 <= x < |bs| && bs[x].lo <= m
      decreases |bs| - x
    {
      assert x < |bs| - 1;
      x := x + 1;
    }
    forall x, y | 0 <= x < |bs| && 0 <= y < |bs| && bs[x].lo <= m < bs[x].hi && bs[y].lo <= m < bs[y].hi
      ensures x == y
    {
      if x < y {
        RunsOrdered(ks, i, bs, x, y);
      } else if y < x {
        RunsOrdered(ks, i, bs, y, x);
      }
    }
  }

  /** An earlier run ends at or before a later one starts. */
  lemma {:induction false} RunsOrdered<K>(ks: seq<Option<K>>, i: int, bs: seq<Bucket<K>>, x: int, y: int)
    requires IsRunsFrom(ks, i, bs) && 0 <= x < y < |bs|
    ensures bs[x].hi <= bs[y].lo
    decreases y - x
  {
    if x + 1 < y {
      RunsOrdered(ks, i, bs, x + 1, y);
    }
  }
}
