/**
 * One update cycle of the coordinator, with the remote service and the
 * recorder lifted out. For every period type (hourly, daily), in the order
 * the cycle iterates over them, it logs in and fetches with up to four
 * attempts each. It skips the period when either is exhausted. Otherwise
 * it builds the period's state histories and, entity by entity, its
 * statistics. An exception in the building aborts the whole cycle.
 */
module Coordinator {
  import opened Wrappers
  import opened DateTimes
  import opened TimeBlocs
  import opened Readings
  import opened StateBuilder
  import opened Statistics

  /** The retry counter starts at 3 and the loop runs while it is not negative: four attempts. */
  const FirstRetry: int := 3
  const MaxAttempts: int := FirstRetry + 1

  /** Whether attempt number `k` (from 0) of a call succeeds; attempts past the end of `outcomes` fail. */
  predicate Attempt(outcomes: seq<bool>, k: int) {
    0 <= k < |outcomes| && outcomes[k]
  }

  /** The first of the attempts `k` up to but not including `limit` that succeeds, if any. */
  function FirstSuccess(outcomes: seq<bool>, k: nat, limit: nat): (r: Option<nat>)
    ensures r.Some? ==> k <= r.value < limit && Attempt(outcomes, r.value)
    ensures r.Some? ==> forall j :: k <= j < r.value ==> !Attempt(outcomes, j)
    ensures r.None? <==> forall j :: k <= j < limit ==> !Attempt(outcomes, j)
    decreases limit - k
  {
    if k >= limit then None
    else if Attempt(outcomes, k) then Some(k)
    else FirstSuccess(outcomes, k + 1, limit)
  }

  /** Whether a call with these attempt outcomes gets through within the retry budget. */
  predicate Succeeds(outcomes: seq<bool>) {
    FirstSuccess(outcomes, 0, MaxAttempts).Some?
  }

  /**
   * The retry loop around `login` and around `fetch`: it calls until an
   * attempt succeeds, decrementing `retry` after each failure, and gives up
   * once `retry` drops below zero. `attempts` counts the calls made.
   */
  method Retry(outcomes: seq<bool>) returns (ok: bool, attempts: nat)
    ensures 1 <= attempts <= MaxAttempts
    ensures ok <==> Succeeds(outcomes)
    ensures ok ==> attempts == FirstSuccess(outcomes, 0, MaxAttempts).value + 1
    ensures !ok ==> attempts == MaxAttempts
  {
    var retry := FirstRetry;
    attempts := 0;
    while retry >= 0
      invariant -1 <= retry <= FirstRetry && attempts == FirstRetry - retry
      invariant forall j :: 0 <= j < attempts ==> !Attempt(outcomes, j)
    {
      attempts := attempts + 1;
      if Attempt(outcomes, attempts - 1) {
        break;
      }
      retry := retry - 1;
    }
    ok := retry >= 0;
    if ok {
      assert FirstSuccess(outcomes, 0, MaxAttempts) == Some(attempts - 1) by {
        FirstSuccessIs(outcomes, 0, MaxAttempts, attempts - 1);
      }
    }
  }

  /** The first success is the attempt that succeeds after only failures. */
  lemma {:induction false} FirstSuccessIs(outcomes: seq<bool>, k: nat, limit: nat, n: nat)
    requires k <= n < limit && Attempt(outcomes, n)
    requires forall j :: k <= j < n ==> !Attempt(outcomes, j)
    ensures FirstSuccess(outcomes, k, limit) == Some(n)
    decreases n - k
  {
    if k < n {
      FirstSuccessIs(outcomes, k + 1, limit, n);
    }
  }

  /**
   * What the cycle gets from outside for one period: the outcomes of the
   * login and fetch attempts, the batch the successful fetch returns, and
   * from the recorder each entity's last state time and last statistic start.
   */
  datatype PeriodInput = PeriodInput(
    logins: seq<bool>, fetches: seq<bool>, dataset: seq<Reading>,
    lastStates: map<string, Option<int>>, lastStats: map<string, Option<real>>)

  /** What became of one period: skipped, or the records and statistics written for it. */
  datatype Outcome =
    | LoginFailed
    | FetchFailed
    | Saved(states: States, stats: map<string, seq<Statistic>>)

  /** The recorder lookups have run for every entity of the period. */
  predicate Looked(es: seq<Entity>, input: PeriodInput) {
    forall p :: 0 <= p < |es| ==> es[p].key in input.lastStates && es[p].key in input.lastStats
  }

  /**
   * The statistics loop over the entities of the period: it reads each
   * entity's history first (`states[entity.key]`, a KeyError when the batch
   * was empty), then rolls its metric up. Each entity's list replaces
   * whatever an earlier entity with the same key stored.
   */
  function RollupAll(states: States, ds: seq<Reading>, es: seq<Entity>, t: StatType, offset: int,
                     lastStats: map<string, Option<real>>): (r: Result<map<string, seq<Statistic>>, Error>)
    requires forall p :: 0 <= p < |es| ==> es[p].key in lastStats
    ensures r.Success? ==> forall p :: 0 <= p < |es| ==> es[p].key in states
    ensures |es| > 0 && es[0].key !in states ==> r == Failure(KeyError(es[0].key))
    decreases |es|
  {
    if |es| == 0 then Success(map[])
    else
      var e := es[0];
      if e.key !in states then Failure(KeyError(e.key))
      else
        var s :- Rollup(ds, t, offset, e.apiValueKey, lastStats[e.key]);
        var rest :- RollupAll(states, ds, es[1..], t, offset, lastStats);
        assert forall p :: 1 <= p < |es| ==> es[p] == es[1..][p - 1];
        Success(map[e.key := s] + rest)
  }

  /** No entity after position `p` shares its key. */
  predicate LastWithKey(es: seq<Entity>, p: int) {
    0 <= p < |es| && forall q :: p < q < |es| ==> es[q].key != es[p].key
  }

  /**
   * The period after a successful login and fetch, for its entities `es`:
   * its state histories, then its statistics.
   */
  function Process(t: StatType, es: seq<Entity>, input: PeriodInput, offset: int): (r: Result<Outcome, Error>)
    requires DistinctKeys(es) && Looked(es, input)
    ensures r.Success? ==> r.value.Saved?
  {
    var states :- BuildStates(input.dataset, es, input.lastStates);
    var stats :- RollupAll(states, input.dataset, es, t, offset, input.lastStats);
    Success(Saved(states, stats))
  }

  /** One period of the cycle. */
  function RunPeriod(t: StatType, es: seq<Entity>, input: PeriodInput, offset: int): (r: Result<Outcome, Error>)
    requires DistinctKeys(es) && Looked(es, input)
    ensures r == Success(LoginFailed) <==> !Succeeds(input.logins)
    ensures r == Success(FetchFailed) <==> Succeeds(input.logins) && !Succeeds(input.fetches)
    ensures Succeeds(input.logins) && Succeeds(input.fetches) ==> r == Process(t, es, input, offset)
  {
    if !Succeeds(input.logins) then Success(LoginFailed)
    else if !Succeeds(input.fetches) then Success(FetchFailed)
    else Process(t, es, input, offset)
  }

  /** Every period of the cycle has its inputs. */
  predicate Ready(table: seq<Entity>, order: seq<StatType>, inputs: map<StatType, PeriodInput>) {
    && DistinctKeys(table)
    && forall n :: 0 <= n < |order| ==> order[n] in inputs && Looked(OfPeriod(table, order[n]), inputs[order[n]])
  }

  /** One period of the cycle, for the entities of `table` that belong to it. */
  function PeriodOf(table: seq<Entity>, t: StatType, inputs: map<StatType, PeriodInput>, offset: int)
    : Result<Outcome, Error>
    requires DistinctKeys(table) && t in inputs && Looked(OfPeriod(table, t), inputs[t])
  {
    RunPeriod(t, OfPeriod(table, t), inputs[t], offset)
  }

  /**
   * The cycle over the periods in `order` (the iteration order of a set,
   * so any order of the period types), with the entity table `table`
   * (`ENTITIES`, in `Entities`): one outcome per period. The first
   * exception ends the cycle.
   */
  function Cycle(table: seq<Entity>, order: seq<StatType>, inputs: map<StatType, PeriodInput>, offset: int)
    : (r: Result<seq<Outcome>, Error>)
    requires Ready(table, order, inputs)
    ensures r.Success? ==> |r.value| == |order|
    decreases |order|
  {
    if |order| == 0 then Success([])
    else
      var out :- PeriodOf(table, order[0], inputs, offset);
      var rest :- Cycle(table, order[1..], inputs, offset);
      Success([out] + rest)
  }

  // ---------------------------------------------------------------------------
  // Periods are independent

  /** The cycle completes exactly when no period raises. */
  lemma {:induction false} CycleSucceeds(table: seq<Entity>, order: seq<StatType>,
                                         inputs: map<StatType, PeriodInput>, offset: int)
    requires Ready(table, order, inputs)
    ensures Cycle(table, order, inputs, offset).Success? <==>
      forall n :: 0 <= n < |order| ==> PeriodOf(table, order[n], inputs, offset).Success?
    decreases |order|
  {
    if |order| > 0 {
      var tail := order[1..];
      assert forall n :: 1 <= n < |order| ==> order[n] == tail[n - 1];
      CycleSucceeds(table, tail, inputs, offset);
    }
  }

  /**
   * A completed cycle gives every period the outcome of its own inputs: a
   * failed login or fetch skips that period alone.
   */
  lemma {:induction false} CycleIsPerPeriod(table: seq<Entity>, order: seq<StatType>,
                                            inputs: map<StatType, PeriodInput>, offset: int, n: int)
    requires Ready(table, order, inputs) && Cycle(table, order, inputs, offset).Success? && 0 <= n < |order|
    ensures PeriodOf(table, order[n], inputs, offset).Success?
    ensures Cycle(table, order, inputs, offset).value[n] == PeriodOf(table, order[n], inputs, offset).value
    decreases n
  {
    if n > 0 {
      var tail := order[1..];
      assert order[n] == tail[n - 1];
      CycleIsPerPeriod(table, tail, inputs, offset, n - 1);
    }
  }

  /** An exception ends the cycle with the error of the first period that raises. */
  lemma {:induction false} CycleFailsAtFirstError(table: seq<Entity>, order: seq<StatType>,
                                                  inputs: map<StatType, PeriodInput>, offset: int, n: int)
    requires Ready(table, order, inputs) && 0 <= n < |order|
    requires forall m :: 0 <= m < n ==> PeriodOf(table, order[m], inputs, offset).Success?
    requires PeriodOf(table, order[n], inputs, offset).Failure?
    ensures Cycle(table, order, inputs, offset) == Failure(PeriodOf(table, order[n], inputs, offset).error)
    decreases n
  {
    if n > 0 {
      var tail := order[1..];
      assert forall m :: 1 <= m < |order| ==> order[m] == tail[m - 1];
      CycleFailsAtFirstError(table, tail, inputs, offset, n - 1);
    }
  }

  /** `ENTITIES` is fit for the cycle: its keys are distinct. */
  lemma EntitiesReady(order: seq<StatType>, inputs: map<StatType, PeriodInput>)
    requires forall n :: 0 <= n < |order| ==> order[n] in inputs && Looked(OfPeriod(Entities, order[n]), inputs[order[n]])
    ensures Ready(Entities, order, inputs)
  {
    EntityTable();
  }

  /** A processed period with an empty batch raises KeyError on the first entity's history. */
  lemma ProcessEmpty(t: StatType, es: seq<Entity>, input: PeriodInput, offset: int)
    requires DistinctKeys(es) && Looked(es, input)
    requires |input.dataset| == 0 && |es| > 0
    ensures Process(t, es, input, offset) == Failure(KeyError(es[0].key))
  {
    assert Processable(input.dataset, es, input.lastStates);
  }

  /**
   * A processed period completes exactly when its batch is processable,
   * not empty, and every entity's rollup completes.
   */
  lemma ProcessSucceeds(t: StatType, es: seq<Entity>, input: PeriodInput, offset: int)
    requires DistinctKeys(es) && Looked(es, input)
    ensures Process(t, es, input, offset).Success? <==>
      && Processable(input.dataset, es, input.lastStates)
      && (|input.dataset| > 0 || |es| == 0)
      && (forall p :: 0 <= p < |es| ==>
           Rollup(input.dataset, t, offset, es[p].apiValueKey, input.lastStats[es[p].key]).Success?)
  {
    var b := BuildStates(input.dataset, es, input.lastStates);
    if b.Success? {
      RollupAllSucceeds(b.value, input.dataset, es, t, offset, input.lastStats);
      if |input.dataset| == 0 && |es| > 0 {
        assert es[0].key !in b.value;
      }
    }
  }

  /** The statistics loop completes only when every entity has a history and a rollup. */
  lemma {:induction false} RollupAllSucceeds(states: States, ds: seq<Reading>, es: seq<Entity>, t: StatType,
                                             offset: int, lastStats: map<string, Option<real>>)
    requires forall p :: 0 <= p < |es| ==> es[p].key in lastStats
    ensures RollupAll(states, ds, es, t, offset, lastStats).Success? <==>
      forall p :: 0 <= p < |es| ==>
        es[p].key in states && Rollup(ds, t, offset, es[p].apiValueKey, lastStats[es[p].key]).Success?
    decreases |es|
  {
    if |es| > 0 {
      var tail := es[1..];
      assert forall p :: 1 <= p < |es| ==> es[p] == tail[p - 1];
      RollupAllSucceeds(states, ds, tail, t, offset, lastStats);
      RollupAllUnfold(states, ds, es, t, offset, lastStats);
      assert (forall p :: 0 <= p < |es| ==> Rolls(states, ds, es[p], t, offset, lastStats)) <==>
        Rolls(states, ds, es[0], t, offset, lastStats) &&
        forall q :: 0 <= q < |tail| ==> Rolls(states, ds, tail[q], t, offset, lastStats);
    }
  }

  /** Entity `e` has a history and its rollup completes. */
  predicate Rolls(states: States, ds: seq<Reading>, e: Entity, t: StatType, offset: int,
                  lastStats: map<string, Option<real>>)
    requires e.key in lastStats
  {
    e.key in states && Rollup(ds, t, offset, e.apiValueKey, lastStats[e.key]).Success?
  }

  /** One pass of the statistics loop: the first entity, then the rest. */
  lemma RollupAllUnfold(states: States, ds: seq<Reading>, es: seq<Entity>, t: StatType,
                        offset: int, lastStats: map<string, Option<real>>)
    requires |es| > 0 && forall p :: 0 <= p < |es| ==> es[p].key in lastStats
    ensures RollupAll(states, ds, es, t, offset, lastStats).Success? <==>
      Rolls(states, ds, es[0], t, offset, lastStats) && RollupAll(states, ds, es[1..], t, offset, lastStats).Success?
  {
  }

  /**
   * When entity `n` is the first without a history or whose rollup raises,
   * the loop raises that entity's exception: KeyError on its key, or its
   * rollup's error.
   */
  lemma {:induction false} RollupAllFailsAt(states: States, ds: seq<Reading>, es: seq<Entity>, t: StatType,
                                            offset: int, lastStats: map<string, Option<real>>, n: int)
    requires forall p :: 0 <= p < |es| ==> es[p].key in lastStats
    requires 0 <= n < |es|
    requires forall q :: 0 <= q < n ==>
      es[q].key in states && Rollup(ds, t, offset, es[q].apiValueKey, lastStats[es[q].key]).Success?
    requires !(es[n].key in states && Rollup(ds, t, offset, es[n].apiValueKey, lastStats[es[n].key]).Success?)
    ensures RollupAll(states, ds, es, t, offset, lastStats) ==
      if es[n].key !in states then Failure(KeyError(es[n].key))
      else Failure(Rollup(ds, t, offset, es[n].apiValueKey, lastStats[es[n].key]).error)
    decreases n
  {
    if n > 0 {
      var tail := es[1..];
      assert forall q :: 0 <= q < |tail| ==> tail[q] == es[q + 1];
      RollupAllFailsAt(states, ds, tail, t, offset, lastStats, n - 1);
      assert es[0].key in states && Rollup(ds, t, offset, es[0].apiValueKey, lastStats[es[0].key]).Success?;
    }
  }

  // ---------------------------------------------------------------------------
  // What a completed period stores

  /**
   * The statistics loop stores one list per entity key: the rollup of the
   * last entity with that key.
   */
  lemma {:induction false} RollupAllStores(states: States, ds: seq<Reading>, es: seq<Entity>, t: StatType,
                                           offset: int, lastStats: map<string, Option<real>>)
    requires forall p :: 0 <= p < |es| ==> es[p].key in lastStats
    requires RollupAll(states, ds, es, t, offset, lastStats).Success?
    ensures var stats := RollupAll(states, ds, es, t, offset, lastStats).value;
      && stats.Keys == KeysOf(es)
      && forall p :: 0 <= p < |es| && LastWithKey(es, p) ==>
           Rollup(ds, t, offset, es[p].apiValueKey, lastStats[es[p].key]) == Success(stats[es[p].key])
    decreases |es|
  {
    if |es| > 0 {
      var e := es[0];
      var tail := es[1..];
      var s := Rollup(ds, t, offset, e.apiValueKey, lastStats[e.key]).value;
      var rest := RollupAll(states, ds, tail, t, offset, lastStats).value;
      var stats := RollupAll(states, ds, es, t, offset, lastStats).value;
      assert forall p :: 1 <= p < |es| ==> es[p] == tail[p - 1];
      RollupAllStores(states, ds, tail, t, offset, lastStats);
      assert stats == map[e.key := s] + rest;
      assert KeysOf(es) == {e.key} + KeysOf(tail) by {
        forall k | k in KeysOf(es) ensures k in {e.key} + KeysOf(tail) {
          var p :| 0 <= p < |es| && es[p].key == k;
          if p > 0 { assert tail[p - 1].key == k; }
        }
      }
      forall p | 0 <= p < |es| && LastWithKey(es, p)
        ensures Rollup(ds, t, offset, es[p].apiValueKey, lastStats[es[p].key]) == Success(stats[es[p].key])
      {
        if p == 0 {
          assert e.key !in KeysOf(tail);
        } else {
          assert LastWithKey(tail, p - 1);
          assert tail[p - 1].key in rest.Keys;
        }
      }
    }
  }

  /**
   * A completed period saves the histories the builder computed and, under
   * each entity's key, the rollup of that entity's metric.
   */
  lemma ProcessSaves(t: StatType, es: seq<Entity>, input: PeriodInput, offset: int)
    requires DistinctKeys(es) && Looked(es, input)
    requires Process(t, es, input, offset).Success?
    ensures var out := Process(t, es, input, offset).value;
      && out.Saved?
      && BuildStates(input.dataset, es, input.lastStates) == Success(out.states)
      && out.stats.Keys == KeysOf(es)
      && forall p :: 0 <= p < |es| ==>
           Rollup(input.dataset, t, offset, es[p].apiValueKey, input.lastStats[es[p].key]) == Success(out.stats[es[p].key])
  {
    var states := BuildStates(input.dataset, es, input.lastStates).value;
    RollupAllStores(states, input.dataset, es, t, offset, input.lastStats);
  }

  /** Every statistic a completed hourly or daily period saves has its `sum` equal to its `state`. */
  lemma SavedSumsAreStates(t: StatType, es: seq<Entity>, input: PeriodInput, offset: int)
    requires DistinctKeys(es) && Looked(es, input)
    requires t == Hourly || t == Daily
    requires Process(t, es, input, offset).Success?
    ensures var stats := Process(t, es, input, offset).value.stats;
      forall key, x :: key in stats && 0 <= x < |stats[key]| ==> stats[key][x].sum == stats[key][x].state
  {
    var stats: map<string, seq<Statistic>> := Process(t, es, input, offset).value.stats;
    ProcessSaves(t, es, input, offset);
    forall key | key in stats
      ensures forall x :: 0 <= x < |stats[key]| ==> stats[key][x].sum == stats[key][x].state
    {
      var p :| 0 <= p < |es| && es[p].key == key;
      SumIsState(input.dataset, t, offset, es[p].apiValueKey, input.lastStats[key]);
    }
  }

  /** Each entity's key holds that entity's rollup, and nothing else is stored. */
  ghost predicate StoresRollups(stats: map<string, seq<Statistic>>, ds: seq<Reading>, es: seq<Entity>,
                                t: StatType, offset: int, lastStats: map<string, Option<real>>)
  {
    && stats.Keys == KeysOf(es)
    && forall p :: 0 <= p < |es| ==>
         es[p].key in lastStats && Rollup(ds, t, offset, es[p].apiValueKey, lastStats[es[p].key]) == Success(stats[es[p].key])
  }

  /** For a batch with increasing `ts`, every list of statistics a completed period saves has increasing starts. */
  lemma SavedStartsIncrease(t: StatType, es: seq<Entity>, input: PeriodInput, offset: int)
    requires DistinctKeys(es) && Looked(es, input)
    requires Ascending(input.dataset)
    requires Process(t, es, input, offset).Success?
    ensures var stats := Process(t, es, input, offset).value.stats;
      forall key :: key in stats ==> StartsAscend(stats[key], offset)
  {
    ProcessSaves(t, es, input, offset);
    StoredStartsIncrease(Process(t, es, input, offset).value.stats, input.dataset, es, t, offset, input.lastStats);
  }

  lemma StoredStartsIncrease(stats: map<string, seq<Statistic>>, ds: seq<Reading>, es: seq<Entity>,
                             t: StatType, offset: int, lastStats: map<string, Option<real>>)
    requires Ascending(ds) && StoresRollups(stats, ds, es, t, offset, lastStats)
    ensures forall key :: key in stats ==> StartsAscend(stats[key], offset)
  {
    forall key | key in stats
      ensures StartsAscend(stats[key], offset)
    {
      var p :| 0 <= p < |es| && es[p].key == key;
      StartsIncrease(ds, t, offset, es[p].apiValueKey, lastStats[key]);
    }
  }
}
