/**
 * Readings as the fetch client returns them, the exceptions the update cycle
 * can raise on them, and the table of sensor entities (`ENTITIES`).
 */
module Readings {
  import opened Wrappers
  import opened TimeBlocs

  /** The Python exceptions the modelled code can raise. */
  datatype Error =
    | KeyError(key: string)  // a dict lookup of a key that is not there
    | TypeError              // `min` comparing None with another window value
    | IndexError             // `states[key][i - last_idx]` past the end of the list
    | OutOfRange(ts: int)    // `fromtimestamp` outside the years 1..9999
    | OverflowError(ts: int) // an hour added to the datetime of `ts` runs past the year 9999

  /** One row of a fetch: integer epoch seconds `ts` and metric values, any of which may be null. */
  datatype Reading = Reading(ts: int, values: map<string, Option<real>>)

  /** Timestamps strictly increase along the batch, as a fetch returns them. */
  predicate Ascending(ds: seq<Reading>) {
    forall a, b :: 0 <= a < b < |ds| ==> ds[a].ts < ds[b].ts
  }

  /** `d[key]`: the metric's value, or a KeyError when the reading lacks the key. */
  function Lookup(d: Reading, key: string): (r: Result<Option<real>, Error>)
    ensures r.Success? <==> key in d.values
    ensures r.Success? ==> r.value == d.values[key]
    ensures r.Failure? ==> r.error == KeyError(key)
  {
    if key in d.values then Success(d.values[key]) else Failure(KeyError(key))
  }

  /**
   * A sensor description: its entity key, the fetch period it belongs to and
   * the metric (`api_value_key`) that feeds it. Units, device classes and
   * display precision are presentation and are not modelled.
   */
  datatype Entity = Entity(key: string, period: StatType, apiValueKey: string)

  /** The one entity whose state is smoothed over a window rather than copied. */
  const LeakComputedKey: string := "hourly_water_leak_computed"

  const Entities: seq<Entity> := [
    Entity("hourly_water_consumption", Hourly, "gallons"),
    Entity("hourly_water_leak", Hourly, "leak_gallons"),
    Entity(LeakComputedKey, Hourly, "gallons"),
    Entity("daily_water_consumption", Daily, "consumption"),
    Entity("daily_temperature", Daily, "temperature"),
    Entity("daily_precipitation", Daily, "precipitation")
  ]

  predicate DistinctKeys(es: seq<Entity>) {
    forall p, q :: 0 <= p < q < |es| ==> es[p].key != es[q].key
  }

  function KeysOf(es: seq<Entity>): set<string> {
    set p | 0 <= p < |es| :: es[p].key
  }

  /** `[e for e in ENTITIES if e.period == entity_type]` */
  function OfPeriod(es: seq<Entity>, period: StatType): (r: seq<Entity>)
    ensures forall j :: 0 <= j < |r| ==> r[j].period == period && r[j] in es
    ensures forall e :: e in es && e.period == period ==> e in r
    ensures DistinctKeys(es) ==> DistinctKeys(r)
    ensures |r| <= |es|
  {
    if |es| == 0 then []
    else
      var rest := OfPeriod(es[1..], period);
      assert forall e :: e in es[1..] ==> e in es;
      if es[0].period == period then
        assert DistinctKeys(es) ==> es[0].key !in KeysOf(es[1..]);
        [es[0]] + rest
      else rest
  }

  /** Every entity of the table has its own key and belongs to the hourly or the daily fetch. */
  lemma EntityTable()
    ensures DistinctKeys(Entities)
    ensures forall e :: e in Entities ==> e.period == Hourly || e.period == Daily
    ensures forall e :: e in Entities && e.key == LeakComputedKey ==> e.period == Hourly
  {
  }

  /** The periods the update cycle iterates over: `set(s.period for s in ENTITIES)`. */
  function PeriodTypes(): (r: set<StatType>)
    ensures r == {Hourly, Daily}
  {
    assert Entities[0].period == Hourly && Entities[3].period == Daily;
    set e | e in Entities :: e.period
  }

  /** Selecting a period keeps table order: the selection of a concatenation is the concatenation of the selections. */
  lemma {:induction false} OfPeriodConcat(a: seq<Entity>, b: seq<Entity>, period: StatType)
    ensures OfPeriod(a + b, period) == OfPeriod(a, period) + OfPeriod(b, period)
    decreases |a|
  {
    if |a| == 0 {
      assert a + b == b;
    } else {
      assert (a + b)[0] == a[0];
      assert (a + b)[1..] == a[1..] + b;
      OfPeriodConcat(a[1..], b, period);
    }
  }

  /** A sequence wholly of one period is its own selection for that period. */
  lemma {:induction false} OfPeriodAll(es: seq<Entity>, period: StatType)
    requires forall j :: 0 <= j < |es| ==> es[j].period == period
    ensures OfPeriod(es, period) == es
    decreases |es|
  {
    if |es| > 0 {
      assert forall j :: 1 <= j < |es| ==> es[1..][j - 1] == es[j];
      OfPeriodAll(es[1..], period);
    }
  }

  /** A sequence with no entity of a period selects nothing for it. */
  lemma {:induction false} OfPeriodNone(es: seq<Entity>, period: StatType)
    requires forall j :: 0 <= j < |es| ==> es[j].period != period
    ensures OfPeriod(es, period) == []
    decreases |es|
  {
    if |es| > 0 {
      assert forall j :: 1 <= j < |es| ==> es[1..][j - 1] == es[j];
      OfPeriodNone(es[1..], period);
    }
  }

  /** The hourly entities are the first three of `ENTITIES` and the daily ones the last three, in table order. */
  lemma EntitiesByPeriod()
    ensures OfPeriod(Entities, Hourly) == Entities[..3]
    ensures OfPeriod(Entities, Daily) == Entities[3..]
  {
    var hourly, daily := Entities[..3], Entities[3..];
    assert Entities == hourly + daily;
    assert forall j :: 0 <= j < |hourly| ==> hourly[j].period == Hourly;
    assert forall j :: 0 <= j < |daily| ==> daily[j].period == Daily;
    OfPeriodAll(hourly, Hourly);
    OfPeriodNone(hourly, Daily);
    OfPeriodAll(daily, Daily);
    OfPeriodNone(daily, Hourly);
    OfPeriodConcat(hourly, daily, Hourly);
    OfPeriodConcat(hourly, daily, Daily);
  }
}
