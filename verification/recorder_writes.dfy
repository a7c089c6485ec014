/**
 * The recorder writes an update cycle makes, in order, and the exception
 * that stops it, if any. A write is never rolled back: when a period
 * raises, the writes of the periods before it stay made, and so do the
 * writes of the entities before the failing one. An entity's records are
 * saved before its statistics are built, so a rollup that raises leaves
 * them written.
 */
module RecorderWrites {
  import opened Wrappers
  import opened TimeBlocs
  import opened Readings
  import opened StateBuilder
  import opened Statistics
  import opened Coordinator

  /** `save_states` of an entity's records, or `async_import_statistics` of its statistics. */
  datatype Write =
    | SaveStates(entity: string, records: seq<StateRecord>)
    | ImportStatistics(entity: string, stats: seq<Statistic>)

  /** The writes made, in order, and the exception that ended the run, if any. */
  datatype Effects = Effects(writes: seq<Write>, error: Option<Error>)

  /** `save_states` runs only for a non-empty history. */
  function SaveOf(key: string, records: seq<StateRecord>): seq<Write> {
    if |records| > 0 then [SaveStates(key, records)] else []
  }

  /** `async_import_statistics` runs only for a non-empty list. */
  function ImportOf(key: string, stats: seq<Statistic>): seq<Write> {
    if |stats| > 0 then [ImportStatistics(key, stats)] else []
  }

  function StatsOf(stats: map<string, seq<Statistic>>, key: string): seq<Statistic> {
    if key in stats then stats[key] else []
  }

  /**
   * The writes a period's outcome calls for, entity by entity: its records,
   * then its statistics, each only when there is something to write.
   */
  function WritesOf(es: seq<Entity>, out: Outcome): seq<Write>
    decreases |es|
  {
    if |es| == 0 || !out.Saved? then []
    else
      SaveOf(es[0].key, Get(out.states, es[0].key)) + ImportOf(es[0].key, StatsOf(out.stats, es[0].key))
        + WritesOf(es[1..], out)
  }

  /** The writes of a sequence of periods' outcomes, one period after another. */
  function AllWrites(table: seq<Entity>, order: seq<StatType>, outs: seq<Outcome>): seq<Write>
    requires |outs| == |order|
    decreases |order|
  {
    if |order| == 0 then []
    else WritesOf(OfPeriod(table, order[0]), outs[0]) + AllWrites(table, order[1..], outs[1..])
  }

  /**
   * The save loop over the entities of a period: for each one, its
   * history is looked up (KeyError when the batch was empty), saved, and
   * then its statistics are built and imported.
   */
  function SaveLoop(states: States, ds: seq<Reading>, es: seq<Entity>, t: StatType, offset: int,
                    lastStats: map<string, Option<real>>): Effects
    requires forall p :: 0 <= p < |es| ==> es[p].key in lastStats
    decreases |es|
  {
    if |es| == 0 then Effects([], None)
    else
      var e := es[0];
      if e.key !in states then Effects([], Some(KeyError(e.key)))
      else
        var saved := SaveOf(e.key, states[e.key]);
        match Rollup(ds, t, offset, e.apiValueKey, lastStats[e.key])
        case Failure(err) => Effects(saved, Some(err))
        case Success(s) =>
          assert forall p :: 1 <= p < |es| ==> es[p] == es[1..][p - 1];
          var rest := SaveLoop(states, ds, es[1..], t, offset, lastStats);
          Effects(saved + ImportOf(e.key, s) + rest.writes, rest.error)
  }

  /** One period: no write when it is skipped at login or fetch or its states cannot be built. */
  function PeriodEffects(table: seq<Entity>, t: StatType, inputs: map<StatType, PeriodInput>, offset: int): Effects
    requires DistinctKeys(table) && t in inputs && Looked(OfPeriod(table, t), inputs[t])
  {
    var es := OfPeriod(table, t);
    var input := inputs[t];
    if !Succeeds(input.logins) || !Succeeds(input.fetches) then Effects([], None)
    else
      match BuildStates(input.dataset, es, input.lastStates)
      case Failure(err) => Effects([], Some(err))
      case Success(states) => SaveLoop(states, input.dataset, es, t, offset, input.lastStats)
  }

  /** The effects of the periods in `order`, each run on its own. */
  function PeriodsEffects(table: seq<Entity>, order: seq<StatType>, inputs: map<StatType, PeriodInput>, offset: int)
    : (r: seq<Effects>)
    requires Ready(table, order, inputs)
    ensures |r| == |order|
    decreases |order|
  {
    if |order| == 0 then []
    else [PeriodEffects(table, order[0], inputs, offset)] + PeriodsEffects(table, order[1..], inputs, offset)
  }

  /** Runs one after another until one raises: the writes made, and the exception that stopped them. */
  function Chain(effs: seq<Effects>): Effects
    decreases |effs|
  {
    if |effs| == 0 then Effects([], None)
    else if effs[0].error.Some? then effs[0]
    else
      var rest := Chain(effs[1..]);
      Effects(effs[0].writes + rest.writes, rest.error)
  }

  /** The cycle: period after period, until one raises. */
  function CycleEffects(table: seq<Entity>, order: seq<StatType>, inputs: map<StatType, PeriodInput>, offset: int)
    : Effects
    requires Ready(table, order, inputs)
  {
    Chain(PeriodsEffects(table, order, inputs, offset))
  }

  // ---------------------------------------------------------------------------
  // The save loop against the statistics loop

  /** The save loop raises exactly when the statistics loop does, with the same exception. */
  lemma {:induction false} SaveLoopRaises(states: States, ds: seq<Reading>, es: seq<Entity>, t: StatType,
                                          offset: int, lastStats: map<string, Option<real>>)
    requires forall p :: 0 <= p < |es| ==> es[p].key in lastStats
    ensures var r := RollupAll(states, ds, es, t, offset, lastStats);
      && (SaveLoop(states, ds, es, t, offset, lastStats).error.None? <==> r.Success?)
      && (r.Failure? ==> SaveLoop(states, ds, es, t, offset, lastStats).error == Some(r.error))
    decreases |es|
  {
    if |es| > 0 {
      var tail := es[1..];
      assert forall p :: 1 <= p < |es| ==> es[p] == tail[p - 1];
      SaveLoopRaises(states, ds, tail, t, offset, lastStats);
    }
  }

  /** Outcomes that agree on the histories and statistics of `es` call for the same writes. */
  lemma {:induction false} WritesOfFrame(es: seq<Entity>, a: Outcome, b: Outcome)
    requires a.Saved? && b.Saved?
    requires forall p :: 0 <= p < |es| ==>
      Get(a.states, es[p].key) == Get(b.states, es[p].key) && StatsOf(a.stats, es[p].key) == StatsOf(b.stats, es[p].key)
    ensures WritesOf(es, a) == WritesOf(es, b)
    decreases |es|
  {
    if |es| > 0 {
      var tail := es[1..];
      assert forall p :: 1 <= p < |es| ==> es[p] == tail[p - 1];
      WritesOfFrame(tail, a, b);
    }
  }

  /**
   * When the statistics loop completes over entities with distinct keys,
   * the save loop writes what its outcome calls for.
   */
  lemma {:induction false} SaveLoopWrites(states: States, ds: seq<Reading>, es: seq<Entity>, t: StatType,
                                          offset: int, lastStats: map<string, Option<real>>)
    requires DistinctKeys(es) && forall p :: 0 <= p < |es| ==> es[p].key in lastStats
    requires RollupAll(states, ds, es, t, offset, lastStats).Success?
    ensures SaveLoop(states, ds, es, t, offset, lastStats).writes
      == WritesOf(es, Saved(states, RollupAll(states, ds, es, t, offset, lastStats).value))
    decreases |es|
  {
    if |es| > 0 {
      var e := es[0];
      var tail := es[1..];
      assert forall p :: 1 <= p < |es| ==> es[p] == tail[p - 1];
      var s := Rollup(ds, t, offset, e.apiValueKey, lastStats[e.key]).value;
      var rest := RollupAll(states, ds, tail, t, offset, lastStats).value;
      var stats := RollupAll(states, ds, es, t, offset, lastStats).value;
      assert stats == map[e.key := s] + rest;
      SaveLoopWrites(states, ds, tail, t, offset, lastStats);
      RollupAllStores(states, ds, tail, t, offset, lastStats);
      assert e.key !in rest.Keys;
      assert StatsOf(stats, e.key) == s;
      forall p | 0 <= p < |tail|
        ensures StatsOf(stats, tail[p].key) == StatsOf(rest, tail[p].key)
      {
        assert tail[p].key in rest.Keys;
      }
      WritesOfFrame(tail, Saved(states, stats), Saved(states, rest));
    }
  }

  /**
   * When entity `n` is the first whose statistics cannot be built, the
   * entities before it have written what their outcome calls for, and
   * entity `n` has saved its records if it has a history.
   */
  lemma {:induction false} SaveLoopFailsAt(states: States, ds: seq<Reading>, es: seq<Entity>, t: StatType,
                                           offset: int, lastStats: map<string, Option<real>>, n: int)
    requires DistinctKeys(es) && forall p :: 0 <= p < |es| ==> es[p].key in lastStats
    requires 0 <= n < |es|
    requires forall q :: 0 <= q < n ==>
      es[q].key in states && Rollup(ds, t, offset, es[q].apiValueKey, lastStats[es[q].key]).Success?
    requires !(es[n].key in states && Rollup(ds, t, offset, es[n].apiValueKey, lastStats[es[n].key]).Success?)
    ensures RollupAll(states, ds, es[..n], t, offset, lastStats).Success?
    ensures var done := RollupAll(states, ds, es[..n], t, offset, lastStats).value;
      var key := es[n].key;
      SaveLoop(states, ds, es, t, offset, lastStats) ==
        if key !in states then Effects(WritesOf(es[..n], Saved(states, done)), Some(KeyError(key)))
        else Effects(WritesOf(es[..n], Saved(states, done)) + SaveOf(key, states[key]),
                     Some(Rollup(ds, t, offset, es[n].apiValueKey, lastStats[key]).error))
  {
    RollupAllSucceeds(states, ds, es[..n], t, offset, lastStats);
    SaveLoopWrites(states, ds, es[..n], t, offset, lastStats);
    SaveLoopSplit(states, ds, es, t, offset, lastStats, n);
  }

  /** The save loop up to the first failing entity, and that entity's own writes. */
  lemma {:induction false} SaveLoopSplit(states: States, ds: seq<Reading>, es: seq<Entity>, t: StatType,
                                         offset: int, lastStats: map<string, Option<real>>, n: int)
    requires forall p :: 0 <= p < |es| ==> es[p].key in lastStats
    requires 0 <= n < |es|
    requires forall q :: 0 <= q < n ==>
      es[q].key in states && Rollup(ds, t, offset, es[q].apiValueKey, lastStats[es[q].key]).Success?
    requires !(es[n].key in states && Rollup(ds, t, offset, es[n].apiValueKey, lastStats[es[n].key]).Success?)
    ensures var key := es[n].key;
      var head := SaveLoop(states, ds, es[..n], t, offset, lastStats).writes;
      SaveLoop(states, ds, es, t, offset, lastStats) ==
        if key !in states then Effects(head, Some(KeyError(key)))
        else Effects(head + SaveOf(key, states[key]), Some(Rollup(ds, t, offset, es[n].apiValueKey, lastStats[key]).error))
    decreases n
  {
    if n > 0 {
      var tail := es[1..];
      assert forall p :: 1 <= p < |es| ==> es[p] == tail[p - 1];
      assert es[..n][1..] == tail[..n - 1];
      assert es[..n][0] == es[0];
      SaveLoopSplit(states, ds, tail, t, offset, lastStats, n - 1);
    }
  }

  // ---------------------------------------------------------------------------
  // Periods and the cycle

  /**
   * A period raises exactly when its model in the cycle does, with the same
   * exception, and a completed period writes what its outcome calls for.
   */
  lemma PeriodEffectsAgree(table: seq<Entity>, t: StatType, inputs: map<StatType, PeriodInput>, offset: int)
    requires DistinctKeys(table) && t in inputs && Looked(OfPeriod(table, t), inputs[t])
    ensures var e := PeriodEffects(table, t, inputs, offset);
      var r := PeriodOf(table, t, inputs, offset);
      && (e.error.None? <==> r.Success?)
      && (r.Failure? ==> e.error == Some(r.error))
      && (r.Success? ==> e.writes == WritesOf(OfPeriod(table, t), r.value))
  {
    var es := OfPeriod(table, t);
    var input := inputs[t];
    if Succeeds(input.logins) && Succeeds(input.fetches) {
      var b := BuildStates(input.dataset, es, input.lastStates);
      if b.Success? {
        SaveLoopRaises(b.value, input.dataset, es, t, offset, input.lastStats);
        if RollupAll(b.value, input.dataset, es, t, offset, input.lastStats).Success? {
          SaveLoopWrites(b.value, input.dataset, es, t, offset, input.lastStats);
        }
      }
    }
  }

  lemma {:induction false} PeriodsEffectsAt(table: seq<Entity>, order: seq<StatType>,
                                            inputs: map<StatType, PeriodInput>, offset: int)
    requires Ready(table, order, inputs)
    ensures forall n :: 0 <= n < |order| ==>
      PeriodsEffects(table, order, inputs, offset)[n] == PeriodEffects(table, order[n], inputs, offset)
    decreases |order|
  {
    if |order| > 0 {
      var tail := order[1..];
      assert forall n :: 1 <= n < |order| ==> order[n] == tail[n - 1];
      PeriodsEffectsAt(table, tail, inputs, offset);
    }
  }

  /** The periods before `n` have the effects they have within the whole cycle. */
  lemma PeriodsEffectsPrefix(table: seq<Entity>, order: seq<StatType>, inputs: map<StatType, PeriodInput>,
                             offset: int, n: int)
    requires Ready(table, order, inputs) && 0 <= n <= |order|
    ensures Ready(table, order[..n], inputs)
    ensures PeriodsEffects(table, order[..n], inputs, offset) == PeriodsEffects(table, order, inputs, offset)[..n]
  {
    assert forall m :: 0 <= m < n ==> order[..n][m] == order[m];
    PeriodsEffectsAt(table, order, inputs, offset);
    PeriodsEffectsAt(table, order[..n], inputs, offset);
  }

  /** A chain whose run `n` is the first to raise: the runs before it, then run `n`'s own writes. */
  lemma {:induction false} ChainRaisesAt(effs: seq<Effects>, n: int)
    requires 0 <= n < |effs|
    requires forall m :: 0 <= m < n ==> effs[m].error.None?
    requires effs[n].error.Some?
    ensures Chain(effs[..n]).error.None?
    ensures Chain(effs) == Effects(Chain(effs[..n]).writes + effs[n].writes, effs[n].error)
    decreases n
  {
    if n > 0 {
      var tail := effs[1..];
      assert effs[..n][1..] == tail[..n - 1];
      assert effs[..n][0] == effs[0];
      ChainRaisesAt(tail, n - 1);
    }
  }

  /** The cycle raises exactly when its model does, with the same exception. */
  lemma {:induction false} CycleEffectsRaise(table: seq<Entity>, order: seq<StatType>,
                                             inputs: map<StatType, PeriodInput>, offset: int)
    requires Ready(table, order, inputs)
    ensures var r := Cycle(table, order, inputs, offset);
      && (CycleEffects(table, order, inputs, offset).error.None? <==> r.Success?)
      && (r.Failure? ==> CycleEffects(table, order, inputs, offset).error == Some(r.error))
    decreases |order|
  {
    if |order| > 0 {
      PeriodEffectsAgree(table, order[0], inputs, offset);
      CycleEffectsRaise(table, order[1..], inputs, offset);
    }
  }

  /** A completed cycle writes what its periods' outcomes call for, period after period. */
  lemma {:induction false} CycleWrites(table: seq<Entity>, order: seq<StatType>,
                                       inputs: map<StatType, PeriodInput>, offset: int)
    requires Ready(table, order, inputs) && Cycle(table, order, inputs, offset).Success?
    ensures CycleEffects(table, order, inputs, offset)
      == Effects(AllWrites(table, order, Cycle(table, order, inputs, offset).value), None)
    decreases |order|
  {
    if |order| > 0 {
      PeriodEffectsAgree(table, order[0], inputs, offset);
      CycleWrites(table, order[1..], inputs, offset);
    }
  }

  /**
   * When period `n` is the first to raise, the cycle has made the writes
   * of the periods before it, which on their own form a cycle that
   * completes, followed by whatever period `n` wrote before raising.
   */
  lemma CycleWritesBeforeError(table: seq<Entity>, order: seq<StatType>,
                               inputs: map<StatType, PeriodInput>, offset: int, n: int)
    requires Ready(table, order, inputs) && 0 <= n < |order|
    requires forall m :: 0 <= m < n ==> PeriodEffects(table, order[m], inputs, offset).error.None?
    requires PeriodEffects(table, order[n], inputs, offset).error.Some?
    ensures Ready(table, order[..n], inputs)
    ensures CycleEffects(table, order[..n], inputs, offset).error.None?
    ensures CycleEffects(table, order, inputs, offset) ==
      Effects(CycleEffects(table, order[..n], inputs, offset).writes + PeriodEffects(table, order[n], inputs, offset).writes,
              PeriodEffects(table, order[n], inputs, offset).error)
  {
    PeriodsEffectsAt(table, order, inputs, offset);
    PeriodsEffectsPrefix(table, order, inputs, offset, n);
    ChainRaisesAt(PeriodsEffects(table, order, inputs, offset), n);
  }
}
