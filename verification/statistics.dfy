/**
 * The statistics rollup of the update cycle: for one entity, the whole
 * fetched batch is grouped into runs of consecutive readings that share a
 * bucket start (`itertools.groupby` keyed by `TimeBlocs`). Every bucket
 * newer than the last stored statistic yields one hourly or daily statistic:
 * the sum of its non-null values, their mean, and a running total that is
 * reset at the start of each hour (hourly) or day (daily).
 */
module Statistics {
  import opened Wrappers
  import opened DateTimes
  import opened TimeBlocs
  import opened Readings
  import opened StateBuilder
  import opened GroupBy

  /** A recorder `StatisticData` row. */
  datatype Statistic = Statistic(start: DateTime, state: real, mean: real, sum: real, lastReset: DateTime)

  /** The groupby key of reading `d`; `None` where converting its `ts` raises. */
  function KeyOf(t: StatType, offset: int, d: Reading): (r: Option<DateTime>)
    ensures r.Some? <==> NaiveRepresentable(d.ts, offset)
    ensures r.Some? ==> r.value.Valid() && IsBucketStart(t, r.value)
  {
    BucketOf(t, d.ts, offset)
  }

  /**
   * The key of every reading of the batch. The groupby computes them lazily,
   * one reading ahead of the group it yields; the functions below inspect
   * them in that order.
   */
  function Keys(ds: seq<Reading>, t: StatType, offset: int): (ks: seq<Option<DateTime>>)
    ensures |ks| == |ds|
    ensures forall m :: 0 <= m < |ds| ==> ks[m] == KeyOf(t, offset, ds[m])
  {
    seq(|ds|, m requires 0 <= m < |ds| => KeyOf(t, offset, ds[m]))
  }

  predicate KeysValid(ks: seq<Option<DateTime>>) {
    forall m :: 0 <= m < |ks| && ks[m].Some? ==> ks[m].value.Valid()
  }

  /** The non-null values among `xs`, in order. */
  function Present(xs: seq<Option<real>>): (r: seq<real>)
    ensures |r| <= |xs|
  {
    if |xs| == 0 then []
    else (if xs[0].Some? then [xs[0].value] else []) + Present(xs[1..])
  }

  /** `Present` keeps exactly the non-null values. */
  lemma {:induction false} PresentValues(xs: seq<Option<real>>)
    ensures forall v :: v in Present(xs) <==> Some(v) in xs
  {
    if |xs| > 0 {
      PresentValues(xs[1..]);
      assert xs == [xs[0]] + xs[1..];
    }
  }

  /**
   * `[x[key] for x in rs if x[key] is not None]`: the metric's non-null values,
   * raising KeyError when a reading lacks the metric.
   */
  function Values(rs: seq<Reading>, key: string): (r: Result<seq<real>, Error>)
    ensures r.Success? <==> forall m :: 0 <= m < |rs| ==> key in rs[m].values
    ensures r.Failure? ==> r.error == KeyError(key)
    ensures r.Success? ==> r.value == Present(Raws(rs, key))
  {
    if |rs| == 0 then Success([])
    else
      var x :- Lookup(rs[0], key);
      var rest :- Values(rs[1..], key);
      assert forall m :: 1 <= m < |rs| ==> rs[m] == rs[1..][m - 1];
      assert Raws(rs, key) == [Raw(rs[0], key)] + Raws(rs[1..], key);
      Success((if x.Some? then [x.value] else []) + rest)
  }

  /** Python's `sum` over reals. */
  function Sum(xs: seq<real>): real {
    if |xs| == 0 then 0.0 else xs[0] + Sum(xs[1..])
  }

  /** `statistics.mean(values)` when there are values, else 0. */
  function Mean(xs: seq<real>): (r: real)
    ensures |xs| > 0 ==> r * (|xs| as real) == Sum(xs)
    ensures |xs| == 0 ==> r == 0.0
  {
    if |xs| == 0 then 0.0 else Sum(xs) / (|xs| as real)
  }

  /** Whether the running total restarts at bucket `k`: hour 0 for daily, minute 0 for hourly. */
  predicate Resets(t: StatType, k: DateTime) {
    (k.hour == 0 && t == Daily) || (k.minute == 0 && t == Hourly)
  }

  /** Whether bucket `k` starts after the last stored statistic, if there is one. */
  predicate IsNewer(k: DateTime, offset: int, cursor: Option<real>)
    requires k.Valid()
  {
    cursor.None? || Timestamp(k, offset) > cursor.value
  }

  /**
   * One group: nothing when it is not newer than the last statistic;
   * otherwise its statistic, and the running total after it.
   */
  function Summarize(rs: seq<Reading>, t: StatType, offset: int, key: string, cursor: Option<real>,
                     k: DateTime, acc: real): Result<(seq<Statistic>, real), Error>
    requires k.Valid()
  {
    if !IsNewer(k, offset, cursor) then Success(([], acc))
    else
      var base := if Resets(t, k) then 0.0 else acc;
      var vs :- Values(rs, key);
      var partial := Sum(vs);
      Success(([Statistic(k, partial, Mean(vs), base + partial, k)], base + partial))
  }

  /**
   * The groupby loop from the run starting at reading `i` with key `k`,
   * with running total `acc`. Computing the key that ends a run raises
   * before that run is summarized, as the lazy groupby does.
   */
  function RollupFrom(ds: seq<Reading>, ks: seq<Option<DateTime>>, t: StatType, offset: int, key: string,
                      cursor: Option<real>, i: int, k: DateTime, acc: real): Result<seq<Statistic>, Error>
    requires |ks| == |ds| && KeysValid(ks) && 0 <= i < |ks| && ks[i] == Some(k)
    decreases |ks| - i
  {
    var j := GroupEnd(ks, i, k);
    if j < |ks| && ks[j].None? then Failure(OutOfRange(ds[j].ts))
    else
      var out :- Summarize(ds[i..j], t, offset, key, cursor, k, acc);
      if j == |ks| then Success(out.0)
      else
        var rest :- RollupFrom(ds, ks, t, offset, key, cursor, j, ks[j].value, out.1);
        Success(out.0 + rest)
  }

  /**
   * The statistics of one entity for a batch: the metric `key`, the
   * period's stat type `t`, and the start of the last stored statistic,
   * if any, as `cursor`.
   */
  function Rollup(ds: seq<Reading>, t: StatType, offset: int, key: string, cursor: Option<real>)
    : Result<seq<Statistic>, Error>
  {
    RollupKeys(ds, Keys(ds, t, offset), t, offset, key, cursor)
  }

  function RollupKeys(ds: seq<Reading>, ks: seq<Option<DateTime>>, t: StatType, offset: int, key: string,
                      cursor: Option<real>): Result<seq<Statistic>, Error>
    requires |ks| == |ds| && KeysValid(ks)
  {
    if |ks| == 0 then Success([])
    else
      match ks[0]
      case None => Failure(OutOfRange(ds[0].ts))
      case Some(k) => RollupFrom(ds, ks, t, offset, key, cursor, 0, k, 0.0)
  }

  // ---------------------------------------------------------------------------
  // The reference: one statistic per newer run of equal keys

  /** The readings of bucket `b`. */
  function Members(ds: seq<Reading>, b: Bucket<DateTime>): seq<Reading> {
    if 0 <= b.lo <= b.hi <= |ds| then ds[b.lo..b.hi] else []
  }

  predicate ValidKeys(bs: seq<Bucket<DateTime>>) {
    forall x :: 0 <= x < |bs| ==> bs[x].key.Valid()
  }

  /** The buckets newer than the last stored statistic, in order. */
  function Newer(bs: seq<Bucket<DateTime>>, offset: int, cursor: Option<real>): (r: seq<Bucket<DateTime>>)
    requires ValidKeys(bs)
    ensures |r| <= |bs| && ValidKeys(r)
    ensures forall x :: 0 <= x < |r| ==> r[x] in bs && IsNewer(r[x].key, offset, cursor)
    ensures forall b :: b in bs && IsNewer(b.key, offset, cursor) ==> b in r
  {
    if |bs| == 0 then []
    else
      assert forall x :: 1 <= x < |bs| ==> bs[x] == bs[1..][x - 1];
      var rest := Newer(bs[1..], offset, cursor);
      (if IsNewer(bs[0].key, offset, cursor) then [bs[0]] else []) + rest
  }

  /** Every reading of the buckets carries the metric. */
  ghost predicate HasMetric(ds: seq<Reading>, bs: seq<Bucket<DateTime>>, key: string) {
    forall x, m :: 0 <= x < |bs| && 0 <= m < |Members(ds, bs[x])| ==> key in Members(ds, bs[x])[m].values
  }

  /**
   * `stats` are the statistics of the buckets `nb`, one each and in order:
   * the bucket start as `start` and `last_reset`, the sum and the mean of
   * the non-null values, and a running total that restarts at a reset and
   * otherwise continues from the statistic before (from `acc` for the first).
   */
  ghost predicate Summarizes(stats: seq<Statistic>, ds: seq<Reading>, nb: seq<Bucket<DateTime>>, t: StatType,
                             key: string, acc: real) {
    && |stats| == |nb|
    && forall x :: 0 <= x < |nb| ==> StatFor(stats[x], ds, nb[x], t, key, Prev(stats, acc, x))
  }

  lemma StatForShift(st: Statistic, st': Statistic, ds: seq<Reading>, b: Bucket<DateTime>, b': Bucket<DateTime>,
                     t: StatType, key: string, prev: real, prev': real)
    requires StatFor(st, ds, b, t, key, prev) && st == st' && b == b' && prev == prev'
    ensures StatFor(st', ds, b', t, key, prev')
  {
  }

  /** The running total before statistic `x`: `acc` before the first one. */
  function Prev(stats: seq<Statistic>, acc: real, x: int): real {
    if 0 < x <= |stats| then stats[x - 1].sum else acc
  }

  /**
   * `st` is the statistic of bucket `b` when the running total before it is
   * `prev`.
   */
  ghost predicate StatFor(st: Statistic, ds: seq<Reading>, b: Bucket<DateTime>, t: StatType, key: string, prev: real) {
    var vs := Present(Raws(Members(ds, b), key));
    && st.start == b.key && st.lastReset == b.key
    && st.state == Sum(vs) && st.mean == Mean(vs)
    && st.sum == (if Resets(t, b.key) then 0.0 else prev) + st.state
  }

  /** What the rollup of buckets `bs` should give: it fails exactly when a newer bucket lacks the metric. */
  ghost predicate Matches(r: Result<seq<Statistic>, Error>, ds: seq<Reading>, bs: seq<Bucket<DateTime>>, t: StatType,
                          offset: int, key: string, cursor: Option<real>, acc: real) {
    && ValidKeys(bs)
    && var nb := Newer(bs, offset, cursor);
       && (r.Success? <==> HasMetric(ds, nb, key))
       && (r.Success? ==> Summarizes(r.value, ds, nb, t, key, acc))
  }

  // ---------------------------------------------------------------------------
  // The rollup agrees with the reference

  /** The runs of valid keys start valid buckets. */
  lemma {:induction false} RunsValid(ks: seq<Option<DateTime>>, i: int, bs: seq<Bucket<DateTime>>)
    requires KeysValid(ks) && 0 <= i && IsRunsFrom(ks, i, bs)
    ensures ValidKeys(bs)
  {
    forall x | 0 <= x < |bs|
      ensures bs[x].key.Valid()
    {
      assert ks[bs[x].lo] == Some(bs[x].key);
    }
  }

  lemma {:induction false} NewerCons(bs0: seq<Bucket<DateTime>>, bs1: seq<Bucket<DateTime>>, offset: int, cursor: Option<real>)
    requires |bs0| <= 1 && ValidKeys(bs0) && ValidKeys(bs1)
    ensures ValidKeys(bs0 + bs1)
    ensures Newer(bs0 + bs1, offset, cursor) == Newer(bs0, offset, cursor) + Newer(bs1, offset, cursor)
  {
    if |bs0| == 1 {
      assert (bs0 + bs1)[1..] == bs1;
      assert bs0[1..] == [];
    } else {
      assert bs0 + bs1 == bs1;
    }
  }

  lemma {:induction false} HasMetricAppend(ds: seq<Reading>, a: seq<Bucket<DateTime>>, b: seq<Bucket<DateTime>>, key: string)
    ensures HasMetric(ds, a + b, key) <==> HasMetric(ds, a, key) && HasMetric(ds, b, key)
  {
    var ab := a + b;
    assert forall x :: 0 <= x < |a| ==> ab[x] == a[x];
    assert forall x :: |a| <= x < |ab| ==> ab[x] == b[x - |a|];
    if HasMetric(ds, a, key) && HasMetric(ds, b, key) {
      forall x, m | 0 <= x < |ab| && 0 <= m < |Members(ds, ab[x])|
        ensures key in Members(ds, ab[x])[m].values
      {
        if x >= |a| {
          assert ab[x] == b[x - |a|];
        }
      }
    }
    if HasMetric(ds, ab, key) {
      forall x, m | 0 <= x < |b| && 0 <= m < |Members(ds, b[x])|
        ensures key in Members(ds, b[x])[m].values
      {
        assert ab[x + |a|] == b[x];
      }
    }
  }

  /** A first statistic followed by the statistics of the later buckets summarizes all the buckets. */
  lemma {:induction false} SummarizesAppend(s0: seq<Statistic>, s1: seq<Statistic>, ds: seq<Reading>,
                                            nb0: seq<Bucket<DateTime>>, nb1: seq<Bucket<DateTime>>, t: StatType, key: string,
                                            acc: real, acc': real)
    requires Summarizes(s0, ds, nb0, t, key, acc) && |s0| <= 1
    requires s0 == [] ==> acc' == acc
    requires s0 != [] ==> acc' == s0[0].sum
    requires Summarizes(s1, ds, nb1, t, key, acc')
    ensures Summarizes(s0 + s1, ds, nb0 + nb1, t, key, acc)
  {
    if s0 == [] {
      assert s0 + s1 == s1 && nb0 + nb1 == nb1;
    } else {
      forall x | 0 <= x < |nb0 + nb1|
        ensures StatFor((s0 + s1)[x], ds, (nb0 + nb1)[x], t, key, Prev(s0 + s1, acc, x))
      {
        SummaryAppendAt(s0, s1, ds, nb0, nb1, t, key, acc, acc', x);
      }
    }
  }

  lemma {:induction false} SummaryAppendAt(s0: seq<Statistic>, s1: seq<Statistic>, ds: seq<Reading>,
                                           nb0: seq<Bucket<DateTime>>, nb1: seq<Bucket<DateTime>>, t: StatType,
                                           key: string, acc: real, acc': real, x: int)
    requires Summarizes(s0, ds, nb0, t, key, acc) && |s0| == 1 && acc' == s0[0].sum
    requires Summarizes(s1, ds, nb1, t, key, acc')
    requires 0 <= x < |nb0 + nb1|
    ensures StatFor((s0 + s1)[x], ds, (nb0 + nb1)[x], t, key, Prev(s0 + s1, acc, x))
  {
    var s := s0 + s1;
    var nb := nb0 + nb1;
    if x == 0 {
      StatForShift(s0[0], s[0], ds, nb0[0], nb[0], t, key, Prev(s0, acc, 0), Prev(s, acc, 0));
    } else {
      StatForShift(s1[x - 1], s[x], ds, nb1[x - 1], nb[x], t, key, Prev(s1, acc', x - 1), Prev(s, acc, x));
    }
  }

  /** One group summarized agrees with its single bucket, kept or skipped. */
  lemma {:induction false} SummarizeMatches(ds: seq<Reading>, b: Bucket<DateTime>, t: StatType, offset: int, key: string,
                                            cursor: Option<real>, acc: real)
    requires b.key.Valid()
    ensures ValidKeys([b])
    ensures var out := Summarize(Members(ds, b), t, offset, key, cursor, b.key, acc);
      var nb := Newer([b], offset, cursor);
      && (out.Success? <==> HasMetric(ds, nb, key))
      && (out.Success? ==> Summarizes(out.value.0, ds, nb, t, key, acc) && |out.value.0| <= 1)
      && (out.Success? && out.value.0 == [] ==> out.value.1 == acc)
      && (out.Success? && out.value.0 != [] ==> out.value.1 == out.value.0[0].sum)
  {
    NewerCons([b], [], offset, cursor);
    assert [b] + [] == [b];
    if IsNewer(b.key, offset, cursor) {
      KeepMatches(ds, b, t, offset, key, cursor, acc);
    }
  }

  /** A newer group: it fails exactly when a reading lacks the metric, and otherwise yields its statistic. */
  lemma {:induction false} KeepMatches(ds: seq<Reading>, b: Bucket<DateTime>, t: StatType, offset: int, key: string,
                                       cursor: Option<real>, acc: real)
    requires b.key.Valid() && IsNewer(b.key, offset, cursor)
    ensures var out := Summarize(Members(ds, b), t, offset, key, cursor, b.key, acc);
      && (out.Success? <==> HasMetric(ds, [b], key))
      && (out.Success? ==> Summarizes(out.value.0, ds, [b], t, key, acc) && |out.value.0| == 1
                           && out.value.1 == out.value.0[0].sum)
  {
    var vs := Values(Members(ds, b), key);
    assert [b][0] == b;
    if HasMetric(ds, [b], key) {
      forall m | 0 <= m < |Members(ds, b)|
        ensures key in Members(ds, b)[m].values
      {
        assert [b][0] == b;
      }
    }
    if vs.Success? {
      forall x, m | 0 <= x < 1 && 0 <= m < |Members(ds, [b][x])|
        ensures key in Members(ds, [b][x])[m].values
      {
        assert [b][x] == b;
      }
      var out := Summarize(Members(ds, b), t, offset, key, cursor, b.key, acc);
      var st := out.value.0;
      assert st == [Statistic(b.key, Sum(vs.value), Mean(vs.value),
                              (if Resets(t, b.key) then 0.0 else acc) + Sum(vs.value), b.key)];
    }
  }

  /** A group followed by the rest of the batch agrees with its bucket followed by the rest of the buckets. */
  lemma {:induction false} MatchesCons(ds: seq<Reading>, b: Bucket<DateTime>, bs: seq<Bucket<DateTime>>, t: StatType, offset: int,
                                       key: string, cursor: Option<real>, acc: real,
                                       out: Result<(seq<Statistic>, real), Error>,
                                       rest: Result<seq<Statistic>, Error>, r: Result<seq<Statistic>, Error>)
    requires b.key.Valid() && ValidKeys(bs)
    requires out == Summarize(Members(ds, b), t, offset, key, cursor, b.key, acc)
    requires out.Success? ==> Matches(rest, ds, bs, t, offset, key, cursor, out.value.1)
    requires r == (if out.Failure? then Failure(out.error)
                   else if rest.Failure? then Failure(rest.error)
                   else Success(out.value.0 + rest.value))
    ensures Matches(r, ds, [b] + bs, t, offset, key, cursor, acc)
  {
    SummarizeMatches(ds, b, t, offset, key, cursor, acc);
    NewerCons([b], bs, offset, cursor);
    HasMetricAppend(ds, Newer([b], offset, cursor), Newer(bs, offset, cursor), key);
    if out.Success? && rest.Success? {
      SummarizesAppend(out.value.0, rest.value, ds, Newer([b], offset, cursor), Newer(bs, offset, cursor),
                       t, key, acc, out.value.1);
    }
  }

  /** What the rollup should give for the runs `bo`: a failure when the runs are undefined. */
  ghost predicate AgreesWith(r: Result<seq<Statistic>, Error>, ds: seq<Reading>, bo: Option<seq<Bucket<DateTime>>>,
                             t: StatType, offset: int, key: string, cursor: Option<real>, acc: real) {
    match bo
    case None => r.Failure?
    case Some(bs) => Matches(r, ds, bs, t, offset, key, cursor, acc)
  }

  /** The runs `bo` with bucket `b` in front. */
  function ConsBucket(b: Bucket<DateTime>, bo: Option<seq<Bucket<DateTime>>>): Option<seq<Bucket<DateTime>>> {
    match bo
    case None => None
    case Some(bs) => Some([b] + bs)
  }

  /** Summarizing one group before the rest of the rollup agrees with that group's bucket before the rest of the runs. */
  lemma {:induction false} AgreesCons(ds: seq<Reading>, b: Bucket<DateTime>, bo: Option<seq<Bucket<DateTime>>>,
                                      t: StatType, offset: int, key: string, cursor: Option<real>, acc: real,
                                      out: Result<(seq<Statistic>, real), Error>,
                                      rest: Result<seq<Statistic>, Error>, r: Result<seq<Statistic>, Error>)
    requires b.key.Valid() && (bo.Some? ==> ValidKeys(bo.value))
    requires out == Summarize(Members(ds, b), t, offset, key, cursor, b.key, acc)
    requires out.Success? ==> AgreesWith(rest, ds, bo, t, offset, key, cursor, out.value.1)
    requires r == (if out.Failure? then Failure(out.error)
                   else if rest.Failure? then Failure(rest.error)
                   else Success(out.value.0 + rest.value))
    ensures AgreesWith(r, ds, ConsBucket(b, bo), t, offset, key, cursor, acc)
  {
    if bo.Some? {
      MatchesCons(ds, b, bo.value, t, offset, key, cursor, acc, out, rest, r);
    }
  }

  /** The rollup from the run at `i` agrees with the runs from `i`, and fails when those are undefined. */
  lemma {:induction false} RollupFromMatches(ds: seq<Reading>, ks: seq<Option<DateTime>>, t: StatType,
                                             offset: int, key: string, cursor: Option<real>,
                                             i: int, k: DateTime, acc: real)
    requires |ks| == |ds| && KeysValid(ks) && 0 <= i < |ks| && ks[i] == Some(k)
    ensures AgreesWith(RollupFrom(ds, ks, t, offset, key, cursor, i, k, acc), ds, BucketsFrom(ks, i, k),
                       t, offset, key, cursor, acc)
    decreases |ks| - i
  {
    var j := GroupEnd(ks, i, k);
    var b := Bucket(k, i, j);
    if j < |ks| && ks[j].None? {
      return;
    }
    assert Members(ds, b) == ds[i..j];
    var out := Summarize(ds[i..j], t, offset, key, cursor, k, acc);
    if j == |ks| {
      SummarizeMatches(ds, b, t, offset, key, cursor, acc);
      return;
    }
    var k' := ks[j].value;
    var bo := BucketsFrom(ks, j, k');
    BucketsFromRuns(ks, j, k');
    if bo.Some? {
      RunsValid(ks, j, bo.value);
    }
    var rest := if out.Success? then RollupFrom(ds, ks, t, offset, key, cursor, j, k', out.value.1) else Success([]);
    if out.Success? {
      RollupFromMatches(ds, ks, t, offset, key, cursor, j, k', out.value.1);
    }
    assert BucketsFrom(ks, i, k) == ConsBucket(b, bo);
    AgreesCons(ds, b, bo, t, offset, key, cursor, acc, out, rest, RollupFrom(ds, ks, t, offset, key, cursor, i, k, acc));
  }

  // ---------------------------------------------------------------------------
  // What the rollup of a whole batch promises

  /**
   * The rollup is the reference on the groupby runs of the batch's keys:
   * when every reading converts, the runs exist and the rollup fails exactly
   * when a newer run lacks the metric, and otherwise gives that run's
   * statistics; when some reading does not convert, the rollup fails.
   */
  lemma RollupMatchesRuns(ds: seq<Reading>, t: StatType, offset: int, key: string, cursor: Option<real>)
    ensures var ks := Keys(ds, t, offset);
      && (Buckets(ks).Some? <==> forall m :: 0 <= m < |ds| ==> NaiveRepresentable(ds[m].ts, offset))
      && (Buckets(ks).Some? ==> IsRunsFrom(ks, 0, Buckets(ks).value))
      && AgreesWith(Rollup(ds, t, offset, key, cursor), ds, Buckets(ks), t, offset, key, cursor, 0.0)
  {
    var ks := Keys(ds, t, offset);
    BucketsAreRuns(ks);
    RollupKeysMatches(ds, ks, t, offset, key, cursor);
  }

  lemma RollupKeysMatches(ds: seq<Reading>, ks: seq<Option<DateTime>>, t: StatType, offset: int, key: string,
                          cursor: Option<real>)
    requires |ks| == |ds| && KeysValid(ks)
    ensures AgreesWith(RollupKeys(ds, ks, t, offset, key, cursor), ds, Buckets(ks), t, offset, key, cursor, 0.0)
  {
    if |ks| > 0 && ks[0].Some? {
      RollupFromMatches(ds, ks, t, offset, key, cursor, 0, ks[0].value, 0.0);
    } else if |ks| == 0 {
      assert Newer([], offset, cursor) == [];
    }
  }

  /** A successful rollup: the runs of the batch and its newer runs, with the statistics those call for. */
  lemma RollupRuns(ds: seq<Reading>, t: StatType, offset: int, key: string, cursor: Option<real>)
    returns (bs: seq<Bucket<DateTime>>)
    requires Rollup(ds, t, offset, key, cursor).Success?
    ensures IsRunsFrom(Keys(ds, t, offset), 0, bs) && ValidKeys(bs)
    ensures forall m :: 0 <= m < |ds| ==> NaiveRepresentable(ds[m].ts, offset)
    ensures HasMetric(ds, Newer(bs, offset, cursor), key)
    ensures Summarizes(Rollup(ds, t, offset, key, cursor).value, ds, Newer(bs, offset, cursor), t, key, 0.0)
  {
    RollupMatchesRuns(ds, t, offset, key, cursor);
    bs := Buckets(Keys(ds, t, offset)).value;
  }

  /**
   * A reading in the first local day of the year 1, in a zone at or west of
   * UTC: its `tz=utc` conversions succeed, but the naive conversion that
   * computes its bucket key looks one day back, before the year 1, and
   * raises, so the rollup of a batch holding it fails.
   */
  lemma FirstLocalDayRaises(d: Reading, t: StatType, offset: int, key: string, cursor: Option<real>)
    requires -SecondsPerDay < offset <= 0
    requires MinLocalSecond <= d.ts + offset < MinLocalSecond + SecondsPerDay
    ensures Representable(d.ts, 0) && Representable(d.ts + SecondsPerHour, 0)
    ensures Representable(d.ts, offset)
    ensures Rollup([d], t, offset, key, cursor) == Failure(OutOfRange(d.ts))
  {
  }

  /**
   * A statistic starts at a reading's bucket exactly when that bucket is
   * newer than the last stored statistic: no newer bucket is skipped and no
   * older one is written again.
   */
  lemma EmittedIffNewer(ds: seq<Reading>, t: StatType, offset: int, key: string, cursor: Option<real>, m: int)
    requires Rollup(ds, t, offset, key, cursor).Success? && 0 <= m < |ds|
    ensures KeyOf(t, offset, ds[m]).Some?
    ensures var stats := Rollup(ds, t, offset, key, cursor).value;
      var k := KeyOf(t, offset, ds[m]).value;
      (exists x :: 0 <= x < |stats| && stats[x].start == k) <==> IsNewer(k, offset, cursor)
  {
    var bs := RollupRuns(ds, t, offset, key, cursor);
    var ks := Keys(ds, t, offset);
    assert ks[m] == KeyOf(t, offset, ds[m]);
    StartsAreNewerKeys(Rollup(ds, t, offset, key, cursor).value, ds, ks, bs, t, offset, key, cursor, m);
  }

  /** Over the runs of the keys, the statistics start exactly at the keys newer than the cursor. */
  lemma StartsAreNewerKeys(stats: seq<Statistic>, ds: seq<Reading>, ks: seq<Option<DateTime>>,
                           bs: seq<Bucket<DateTime>>, t: StatType, offset: int, key: string,
                           cursor: Option<real>, m: int)
    requires IsRunsFrom(ks, 0, bs) && ValidKeys(bs) && 0 <= m < |ks|
    requires Summarizes(stats, ds, Newer(bs, offset, cursor), t, key, 0.0)
    ensures ks[m].Some? && ks[m].value.Valid()
    ensures (exists x :: 0 <= x < |stats| && stats[x].start == ks[m].value) <==> IsNewer(ks[m].value, offset, cursor)
  {
    RunsCover(ks, 0, bs, m);
    var y :| 0 <= y < |bs| && bs[y].lo <= m < bs[y].hi;
    assert ks[m] == Some(bs[y].key);
    if IsNewer(bs[y].key, offset, cursor) {
      NewerBucketEmitted(stats, ds, bs, t, offset, key, cursor, y);
    }
    if x :| 0 <= x < |stats| && stats[x].start == bs[y].key {
      EmittedBucketNewer(stats, ds, bs, t, offset, key, cursor, x);
    }
  }

  lemma NewerBucketEmitted(stats: seq<Statistic>, ds: seq<Reading>, bs: seq<Bucket<DateTime>>, t: StatType,
                           offset: int, key: string, cursor: Option<real>, y: int)
    requires ValidKeys(bs) && 0 <= y < |bs| && IsNewer(bs[y].key, offset, cursor)
    requires Summarizes(stats, ds, Newer(bs, offset, cursor), t, key, 0.0)
    ensures exists x :: 0 <= x < |stats| && stats[x].start == bs[y].key
  {
    var nb := Newer(bs, offset, cursor);
    assert bs[y] in nb;
    var x :| 0 <= x < |nb| && nb[x] == bs[y];
    assert StatFor(stats[x], ds, nb[x], t, key, Prev(stats, 0.0, x));
  }

  lemma EmittedBucketNewer(stats: seq<Statistic>, ds: seq<Reading>, bs: seq<Bucket<DateTime>>, t: StatType,
                           offset: int, key: string, cursor: Option<real>, x: int)
    requires ValidKeys(bs) && Summarizes(stats, ds, Newer(bs, offset, cursor), t, key, 0.0) && 0 <= x < |stats|
    ensures stats[x].start.Valid() && IsNewer(stats[x].start, offset, cursor)
  {
    var nb := Newer(bs, offset, cursor);
    assert StatFor(stats[x], ds, nb[x], t, key, Prev(stats, 0.0, x));
  }

  /**
   * Hourly and daily buckets start on the hour and at midnight, so every
   * statistic resets the running total: its `sum` is its own `state`.
   */
  lemma SumIsState(ds: seq<Reading>, t: StatType, offset: int, key: string, cursor: Option<real>)
    requires t == Hourly || t == Daily
    requires Rollup(ds, t, offset, key, cursor).Success?
    ensures var stats := Rollup(ds, t, offset, key, cursor).value;
      forall x :: 0 <= x < |stats| ==> stats[x].sum == stats[x].state
  {
    var bs := RollupRuns(ds, t, offset, key, cursor);
    var ks := Keys(ds, t, offset);
    var stats := Rollup(ds, t, offset, key, cursor).value;
    var nb := Newer(bs, offset, cursor);
    forall x | 0 <= x < |stats|
      ensures stats[x].sum == stats[x].state
    {
      assert StatFor(stats[x], ds, nb[x], t, key, Prev(stats, 0.0, x));
      var y :| 0 <= y < |bs| && bs[y] == nb[x];
      assert ks[bs[y].lo] == Some(bs[y].key);
    }
  }

  // ---------------------------------------------------------------------------
  // Ascending readings give strictly increasing statistics

  /** Later keys are never earlier buckets. */
  predicate KeysMonotone(ks: seq<Option<DateTime>>) {
    forall a, b :: 0 <= a < b < |ks| && ks[a].Some? && ks[b].Some? ==> NotAfter(ks[a].value, ks[b].value)
  }

  /** Bucket starts strictly increase along `bs`. */
  predicate Increasing(bs: seq<Bucket<DateTime>>) {
    forall x, y :: 0 <= x < y < |bs| ==> Before(bs[x].key, bs[y].key)
  }

  /** The keys of ascending readings never go back. */
  lemma KeysAscending(ds: seq<Reading>, t: StatType, offset: int)
    requires Ascending(ds)
    ensures KeysMonotone(Keys(ds, t, offset))
  {
    var ks := Keys(ds, t, offset);
    forall a, b | 0 <= a < b < |ks| && ks[a].Some? && ks[b].Some?
      ensures NotAfter(ks[a].value, ks[b].value)
    {
      BucketOfMonotone(t, ds[a].ts, ds[b].ts, offset);
    }
  }

  /** Runs of monotone keys have strictly increasing keys: neighbouring runs differ. */
  lemma RunsIncrease(ks: seq<Option<DateTime>>, bs: seq<Bucket<DateTime>>)
    requires KeysMonotone(ks) && IsRunsFrom(ks, 0, bs)
    ensures Increasing(bs)
  {
    forall x, y | 0 <= x < y < |bs|
      ensures Before(bs[x].key, bs[y].key)
    {
      RunsIncreaseAt(ks, bs, x, y);
    }
  }

  lemma RunsIncreaseAt(ks: seq<Option<DateTime>>, bs: seq<Bucket<DateTime>>, x: int, y: int)
    requires KeysMonotone(ks) && IsRunsFrom(ks, 0, bs) && 0 <= x < y < |bs|
    ensures Before(bs[x].key, bs[y].key)
  {
    RunsOrdered(ks, 0, bs, x, y);
    assert ks[bs[x].lo] == Some(bs[x].key);
    assert ks[bs[x + 1].lo] == Some(bs[x + 1].key);
    assert ks[bs[y].lo] == Some(bs[y].key);
    assert NotAfter(bs[x].key, bs[x + 1].key) && bs[x].key != bs[x + 1].key;
    if x + 1 < y {
      RunsOrdered(ks, 0, bs, x + 1, y);
      assert NotAfter(bs[x + 1].key, bs[y].key);
      if bs[x + 1].key != bs[y].key {
        BeforeTransitive(bs[x].key, bs[x + 1].key, bs[y].key);
      }
    }
  }

  /** Dropping the older buckets keeps the rest in order. */
  lemma {:induction false} NewerIncreasing(bs: seq<Bucket<DateTime>>, offset: int, cursor: Option<real>)
    requires ValidKeys(bs) && Increasing(bs)
    ensures Increasing(Newer(bs, offset, cursor))
  {
    if |bs| > 0 {
      var tail := bs[1..];
      forall x, y | 0 <= x < y < |tail|
        ensures Before(tail[x].key, tail[y].key)
      {
        assert tail[x] == bs[x + 1] && tail[y] == bs[y + 1];
      }
      NewerIncreasing(tail, offset, cursor);
      NewerAfterFirst(bs, offset, cursor);
    }
  }

  /** Every newer bucket after the first comes after the first bucket. */
  lemma NewerAfterFirst(bs: seq<Bucket<DateTime>>, offset: int, cursor: Option<real>)
    requires ValidKeys(bs) && Increasing(bs) && |bs| > 0
    ensures forall y :: 0 <= y < |Newer(bs[1..], offset, cursor)| ==>
      Before(bs[0].key, Newer(bs[1..], offset, cursor)[y].key)
  {
    var tail := bs[1..];
    var rest := Newer(tail, offset, cursor);
    forall y | 0 <= y < |rest|
      ensures Before(bs[0].key, rest[y].key)
    {
      assert rest[y] in tail;
      var z :| 0 <= z < |tail| && tail[z] == rest[y];
      assert tail[z] == bs[z + 1];
    }
  }

  /** The statistics' starts are valid datetimes whose timestamps strictly increase along the list. */
  ghost predicate StartsAscend(stats: seq<Statistic>, offset: int) {
    forall x, y :: 0 <= x < y < |stats| ==>
      stats[x].start.Valid() && stats[y].start.Valid() &&
      Timestamp(stats[x].start, offset) < Timestamp(stats[y].start, offset)
  }

  /**
   * For a batch with ascending timestamps, the statistics have strictly
   * increasing start times: one statistic per bucket, in time order.
   */
  lemma StartsIncrease(ds: seq<Reading>, t: StatType, offset: int, key: string, cursor: Option<real>)
    requires Ascending(ds) && Rollup(ds, t, offset, key, cursor).Success?
    ensures StartsAscend(Rollup(ds, t, offset, key, cursor).value, offset)
  {
    var bs := RollupRuns(ds, t, offset, key, cursor);
    KeysAscending(ds, t, offset);
    RunsIncrease(Keys(ds, t, offset), bs);
    NewerIncreasing(bs, offset, cursor);
    var stats := Rollup(ds, t, offset, key, cursor).value;
    var nb := Newer(bs, offset, cursor);
    forall x, y | 0 <= x < y < |stats|
      ensures stats[x].start.Valid() && stats[y].start.Valid()
      ensures Timestamp(stats[x].start, offset) < Timestamp(stats[y].start, offset)
    {
      assert StatFor(stats[x], ds, nb[x], t, key, Prev(stats, 0.0, x));
      assert StatFor(stats[y], ds, nb[y], t, key, Prev(stats, 0.0, y));
      TimestampOrder(nb[x].key, nb[y].key, offset);
    }
  }
}
