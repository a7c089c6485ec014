/**
 * The state builder of the update cycle: for one fetched batch and the
 * entities of its period, the sensor-history records to write to the recorder.
 *
 * The loop runs over the readings in order and, for each reading, over the
 * entities. A reading no newer than an entity's last recorded state is
 * skipped for that entity, which bumps the counter `last_idx`. Otherwise the
 * entity gets a record holding the reading's metric; the computed-leak entity
 * gets the minimum of the last five raw values instead. Each record links to
 * an earlier record of the same entity by the position `i - last_idx`.
 */
module StateBuilder {
  import opened Wrappers
  import opened Readings
  import opened DateTimes

  /** How many raw values the computed-leak window keeps. */
  const WindowSize: int := 5

  /**
   * A recorder `States` row. `oldState` is the position, in the same
   * entity's list, of the record the code passes as `old_state`.
   */
  datatype StateRecord = StateRecord(
    state: Option<real>, lastChangedTs: int, lastUpdatedTs: int, oldState: Option<nat>)

  /** The loop's variables: `states`, `last_values` and `last_idx`. */
  datatype Acc = Acc(states: map<string, seq<StateRecord>>, lastValues: seq<Option<real>>, lastIdx: int)

  type States = map<string, seq<StateRecord>>

  function Get(states: States, key: string): seq<StateRecord> {
    if key in states then states[key] else []
  }

  /** Whether reading `d` is newer than the entity's last recorded `last_changed_ts`. */
  predicate IsNew(d: Reading, cursor: Option<int>) {
    cursor.None? || d.ts > cursor.value
  }

  /** `last_values[-5:]` */
  function Trim(w: seq<Option<real>>): seq<Option<real>> {
    if |w| > WindowSize then w[|w| - WindowSize..] else w
  }

  /** Python's `min`: a running minimum that raises TypeError as soon as it compares a None. */
  function MinFrom(best: Option<real>, rest: seq<Option<real>>): (r: Result<Option<real>, Error>)
    ensures r.Failure? <==> |rest| > 0 && (best.None? || exists j :: 0 <= j < |rest| && rest[j].None?)
    ensures r.Failure? ==> r.error == TypeError
    ensures r.Success? ==> r.value == best || r.value in rest
    ensures r.Success? && best.Some? ==> r.value.Some? && r.value.value <= best.value
    ensures r.Success? ==>
      forall j :: 0 <= j < |rest| && rest[j].Some? ==> r.value.Some? && r.value.value <= rest[j].value
    decreases |rest|
  {
    if |rest| == 0 then Success(best)
    else if best.None? || rest[0].None? then Failure(TypeError)
    else
      var r := MinFrom(if rest[0].value < best.value then rest[0] else best, rest[1..]);
      assert forall x :: x in rest[1..] ==> x in rest;
      assert forall j :: 1 <= j < |rest| ==> rest[j] == rest[1..][j - 1];
      r
  }

  /** `min(window)` on a non-empty window: its least value, or TypeError when a None meets another value. */
  function PyMin(w: seq<Option<real>>): (r: Result<Option<real>, Error>)
    requires |w| > 0
    ensures r.Failure? <==> |w| >= 2 && exists j :: 0 <= j < |w| && w[j].None?
    ensures r.Success? ==> r.value in w
    ensures r.Success? ==>
      forall j :: 0 <= j < |w| && w[j].Some? ==> r.value.Some? && r.value.value <= w[j].value
  {
    assert forall j :: 1 <= j < |w| ==> w[j] == w[1..][j - 1];
    assert |w| >= 2 && w[0].None? ==> exists j :: 0 <= j < |w| && w[j].None?;
    MinFrom(w[0], w[1..])
  }

  /** `states[key][i - last_idx] if i >= last_idx else None`, raising IndexError past the end. */
  function OldState(prev: seq<StateRecord>, i: int, lastIdx: int): (r: Result<Option<nat>, Error>)
    ensures r.Failure? <==> i >= lastIdx && i - lastIdx >= |prev|
    ensures i < lastIdx ==> r == Success(None)
    ensures r.Success? && i >= lastIdx ==> r.value == Some(i - lastIdx) && i - lastIdx < |prev|
  {
    if i >= lastIdx then
      if i - lastIdx < |prev| then Success(Some(i - lastIdx)) else Failure(IndexError)
    else Success(None)
  }

  /**
   * The body of the inner loop: entity `e` meets reading `d`, the `i`-th of
   * the batch. The entity's list is created on its first reading, whether
   * or not that reading is then skipped.
   */
  function Visit(acc: Acc, i: int, d: Reading, e: Entity, cursor: Option<int>): Result<Acc, Error> {
    if IsNew(d, cursor) then Emit(acc, i, d, e) else Success(Skip(acc, e))
  }

  /** A reading already recorded for the entity: nothing is appended and `last_idx` goes up. */
  function Skip(acc: Acc, e: Entity): Acc {
    acc.(states := acc.states[e.key := Get(acc.states, e.key)], lastIdx := acc.lastIdx + 1)
  }

  /**
   * The state to record for reading `d`, and `last_values` afterwards: the
   * computed-leak entity appends the raw value, trims the window and takes
   * its minimum; every other entity copies its metric.
   */
  function NextState(lastValues: seq<Option<real>>, d: Reading, e: Entity)
    : Result<(Option<real>, seq<Option<real>>), Error>
  {
    if e.key == LeakComputedKey then
      var raw :- Lookup(d, e.apiValueKey);
      var window := Trim(lastValues + [raw]);
      var state :- PyMin(window);
      Success((state, window))
    else
      var state :- Lookup(d, e.apiValueKey);
      Success((state, lastValues))
  }

  /** A fresh reading for the entity: its record is appended, linked through `i - last_idx`. */
  function Emit(acc: Acc, i: int, d: Reading, e: Entity): Result<Acc, Error> {
    var prev := Get(acc.states, e.key);
    var next :- NextState(acc.lastValues, d, e);
    var link :- OldState(prev, i, acc.lastIdx);
    Success(Acc(acc.states[e.key := prev + [StateRecord(next.0, d.ts, d.ts, link)]], next.1, acc.lastIdx))
  }

  predicate HasCursors(es: seq<Entity>, cursors: map<string, Option<int>>) {
    forall p :: 0 <= p < |es| ==> es[p].key in cursors
  }

  /** The inner loop over the entities of the period, for reading `d`. */
  function VisitAll(acc: Acc, i: int, d: Reading, es: seq<Entity>, cursors: map<string, Option<int>>)
    : Result<Acc, Error>
    requires HasCursors(es, cursors)
    decreases |es|
  {
    if |es| == 0 then Success(acc)
    else
      var a :- Visit(acc, i, d, es[0], cursors[es[0].key]);
      VisitAll(a, i, d, es[1..], cursors)
  }

  /**
   * Whether the outer loop's conversions of reading time `ts` succeed: the
   * UTC datetime `start_time`, and `end_time` one hour later, which is never
   * used but raises OverflowError in the last hour of the year 9999.
   */
  predicate Convertible(ts: int) {
    Representable(ts, 0) && Representable(ts + SecondsPerHour, 0)
  }

  /** The outer loop after its first `n` readings. */
  function Run(ds: seq<Reading>, es: seq<Entity>, cursors: map<string, Option<int>>, n: int)
    : Result<Acc, Error>
    requires 0 <= n <= |ds| && HasCursors(es, cursors)
    decreases n
  {
    if n == 0 then Success(Acc(map[], [], 1))
    else
      var acc :- Run(ds, es, cursors, n - 1);
      if !Representable(ds[n - 1].ts, 0) then Failure(OutOfRange(ds[n - 1].ts))
      else if !Representable(ds[n - 1].ts + SecondsPerHour, 0) then Failure(OverflowError(ds[n - 1].ts))
      else VisitAll(acc, n - 1, ds[n - 1], es, cursors)
  }

  // ---------------------------------------------------------------------------
  // The reference: what each entity's history should be

  /** The readings newer than `cursor`, in batch order. */
  function Fresh(ds: seq<Reading>, cursor: Option<int>): (r: seq<Reading>)
    ensures |r| <= |ds|
    ensures forall j :: 0 <= j < |r| ==> r[j] in ds && IsNew(r[j], cursor)
  {
    if |ds| == 0 then []
    else
      var init := Fresh(ds[..|ds| - 1], cursor);
      assert forall x :: x in ds[..|ds| - 1] ==> x in ds;
      init + (if IsNew(ds[|ds| - 1], cursor) then [ds[|ds| - 1]] else [])
  }

  function Raw(d: Reading, key: string): Option<real> {
    if key in d.values then d.values[key] else None
  }

  function Raws(rs: seq<Reading>, key: string): (r: seq<Option<real>>)
    ensures |r| == |rs|
    ensures forall j :: 0 <= j < |rs| ==> r[j] == Raw(rs[j], key)
  {
    seq(|rs|, j requires 0 <= j < |rs| => Raw(rs[j], key))
  }

  /** The last at most five raw values up to and including position `j`. */
  function Window(raws: seq<Option<real>>, j: int): seq<Option<real>>
    requires 0 <= j < |raws|
  {
    Trim(raws[..j + 1])
  }

  /** The state an entity's `j`-th record should carry, given its kept readings. */
  function Expected(kept: seq<Reading>, e: Entity, j: int): Result<Option<real>, Error>
    requires 0 <= j < |kept|
  {
    if e.key == LeakComputedKey then PyMin(Window(Raws(kept, e.apiValueKey), j))
    else Lookup(kept[j], e.apiValueKey)
  }

  /** `recs` is the history the kept readings call for, ignoring the `old_state` links. */
  predicate Agrees(recs: seq<StateRecord>, kept: seq<Reading>, e: Entity) {
    && |recs| == |kept|
    && (forall j :: 0 <= j < |kept| ==> e.apiValueKey in kept[j].values)
    && (forall j :: 0 <= j < |recs| ==>
          recs[j].lastChangedTs == kept[j].ts && recs[j].lastUpdatedTs == kept[j].ts)
    && (forall j :: 0 <= j < |recs| ==> Expected(kept, e, j) == Success(recs[j].state))
  }

  /** Every link points strictly backwards in its own entity's list. */
  predicate LinksBackward(states: States) {
    forall key, j :: key in states && 0 <= j < |states[key]| && states[key][j].oldState.Some? ==>
      states[key][j].oldState.value < j
  }

  /** Whether the batch can be processed without an exception. */
  predicate Processable(ds: seq<Reading>, es: seq<Entity>, cursors: map<string, Option<int>>)
    requires HasCursors(es, cursors)
  {
    && (forall j :: 0 <= j < |ds| ==> Convertible(ds[j].ts))
    && (forall p :: 0 <= p < |es| ==> Servable(Fresh(ds, cursors[es[p].key]), es[p]))
  }

  /** Every kept reading carries the entity's metric and every window minimum is defined. */
  predicate Servable(kept: seq<Reading>, e: Entity) {
    forall j :: 0 <= j < |kept| ==> e.apiValueKey in kept[j].values && Expected(kept, e, j).Success?
  }

  /**
   * The records the cycle writes for each entity of the batch's period.
   * It fails exactly when the batch is not processable, and never with
   * IndexError. On success, every entity of the period has a history only
   * if the batch is not empty. That history holds one record per kept
   * reading, in order, with the reading's `ts` and its expected state,
   * and every link points backwards.
   */
  function BuildStates(ds: seq<Reading>, es: seq<Entity>, cursors: map<string, Option<int>>)
    : (r: Result<States, Error>)
    requires DistinctKeys(es) && HasCursors(es, cursors)
    ensures r.Success? <==> Processable(ds, es, cursors)
    ensures r != Failure(IndexError)
    ensures r.Success? ==> r.value.Keys == (if |ds| == 0 then {} else KeysOf(es))
    ensures r.Success? ==> forall p :: 0 <= p < |es| ==>
      Agrees(Get(r.value, es[p].key), Fresh(ds, cursors[es[p].key]), es[p])
    ensures r.Success? ==> LinksBackward(r.value)
  {
    RunInvariant(ds, es, cursors, |ds|);
    assert ds[..|ds|] == ds;
    match Run(ds, es, cursors, |ds|)
    case Failure(err) => Failure(err)
    case Success(acc) => Success(acc.states)
  }

  // ---------------------------------------------------------------------------
  // The loop invariant

  /** How many readings entity number `p` has seen once `k` entities have visited reading `i`. */
  function Seen(i: int, p: int, k: int): int {
    if p < k then i + 1 else i
  }

  /** What the loop keeps true of one entity once it has seen the first `n` readings. */
  ghost predicate EntityInv(acc: Acc, ds: seq<Reading>, n: int, e: Entity, c: Option<int>)
    requires 0 <= n <= |ds|
  {
    var kept := Fresh(ds[..n], c);
    && Agrees(Get(acc.states, e.key), kept, e)
    && (e.key == LeakComputedKey ==> acc.lastValues == Trim(Raws(kept, e.apiValueKey)))
    && n + 1 - acc.lastIdx <= |Get(acc.states, e.key)|
  }

  ghost predicate Inv(acc: Acc, ds: seq<Reading>, i: int, es: seq<Entity>, k: int,
                      cursors: map<string, Option<int>>)
    requires 0 <= i <= |ds| && 0 <= k <= |es| && (k > 0 ==> i < |ds|) && HasCursors(es, cursors)
  {
    && (forall p :: 0 <= p < |es| ==> EntityInv(acc, ds, Seen(i, p, k), es[p], cursors[es[p].key]))
    && acc.states.Keys == KeysOf(es[..k]) + (if i > 0 then KeysOf(es) else {})
    && LinksBackward(acc.states)
  }

  /** Whether every entity can serve the first `n` readings. */
  ghost predicate ServableUpTo(ds: seq<Reading>, n: int, es: seq<Entity>, cursors: map<string, Option<int>>)
    requires 0 <= n <= |ds| && HasCursors(es, cursors)
  {
    && (forall j :: 0 <= j < n ==> Convertible(ds[j].ts))
    && (forall p :: 0 <= p < |es| ==> Servable(Fresh(ds[..n], cursors[es[p].key]), es[p]))
  }

  lemma {:induction false} FreshStep(ds: seq<Reading>, i: int, cursor: Option<int>)
    requires 0 <= i < |ds|
    ensures Fresh(ds[..i + 1], cursor) == Fresh(ds[..i], cursor) + (if IsNew(ds[i], cursor) then [ds[i]] else [])
  {
    assert ds[..i + 1][..i] == ds[..i];
  }

  lemma {:induction false} RawsAppend(rs: seq<Reading>, d: Reading, key: string)
    ensures Raws(rs + [d], key) == Raws(rs, key) + [Raw(d, key)]
  {
  }

  lemma {:induction false} TrimAppend(w: seq<Option<real>>, x: Option<real>)
    ensures Trim(Trim(w) + [x]) == Trim(w + [x])
  {
  }

  /** Appending a reading leaves the earlier expected states alone. */
  lemma {:induction false} ExpectedAppendAt(kept: seq<Reading>, d: Reading, e: Entity, j: int)
    requires 0 <= j < |kept|
    ensures Expected(kept + [d], e, j) == Expected(kept, e, j)
  {
    var key := e.apiValueKey;
    RawsAppend(kept, d, key);
    assert Raws(kept + [d], key)[..j + 1] == Raws(kept, key)[..j + 1];
    assert (kept + [d])[j] == kept[j];
  }

  /** The state the appended reading calls for: the leak window slides by one value. */
  lemma {:induction false} ExpectedAppendLast(kept: seq<Reading>, d: Reading, e: Entity)
    ensures e.key == LeakComputedKey ==>
      Expected(kept + [d], e, |kept|) == PyMin(Trim(Trim(Raws(kept, e.apiValueKey)) + [Raw(d, e.apiValueKey)]))
    ensures e.key != LeakComputedKey ==> Expected(kept + [d], e, |kept|) == Lookup(d, e.apiValueKey)
  {
    var key := e.apiValueKey;
    RawsAppend(kept, d, key);
    assert Raws(kept + [d], key)[..|kept| + 1] == Raws(kept, key) + [Raw(d, key)];
    TrimAppend(Raws(kept, key), Raw(d, key));
  }

  lemma {:induction false} ServableAppend(kept: seq<Reading>, d: Reading, e: Entity)
    ensures Servable(kept + [d], e) <==>
      Servable(kept, e) && e.apiValueKey in d.values && Expected(kept + [d], e, |kept|).Success?
  {
    if Servable(kept, e) && e.apiValueKey in d.values && Expected(kept + [d], e, |kept|).Success? {
      ServableGrow(kept, d, e);
    }
    if Servable(kept + [d], e) {
      ServableShrink(kept, d, e);
    }
  }

  lemma {:induction false} ServableGrow(kept: seq<Reading>, d: Reading, e: Entity)
    requires Servable(kept, e) && e.apiValueKey in d.values && Expected(kept + [d], e, |kept|).Success?
    ensures Servable(kept + [d], e)
  {
    var k2 := kept + [d];
    forall j | 0 <= j < |k2|
      ensures e.apiValueKey in k2[j].values && Expected(k2, e, j).Success?
    {
      if j < |kept| {
        assert k2[j] == kept[j];
        ExpectedAppendAt(kept, d, e, j);
      } else {
        assert k2[j] == d;
      }
    }
  }

  lemma {:induction false} ServableShrink(kept: seq<Reading>, d: Reading, e: Entity)
    requires Servable(kept + [d], e)
    ensures Servable(kept, e) && e.apiValueKey in d.values && Expected(kept + [d], e, |kept|).Success?
  {
    var k2 := kept + [d];
    assert k2[|kept|] == d;
    forall j | 0 <= j < |kept|
      ensures e.apiValueKey in kept[j].values && Expected(kept, e, j).Success?
    {
      assert k2[j] == kept[j];
      ExpectedAppendAt(kept, d, e, j);
    }
  }

  lemma {:induction false} AgreesAppend(recs: seq<StateRecord>, kept: seq<Reading>, e: Entity, d: Reading, rec: StateRecord)
    requires Agrees(recs, kept, e)
    requires e.apiValueKey in d.values && rec.lastChangedTs == d.ts && rec.lastUpdatedTs == d.ts
    requires Expected(kept + [d], e, |kept|) == Success(rec.state)
    ensures Agrees(recs + [rec], kept + [d], e)
  {
    var k2 := kept + [d];
    var r2 := recs + [rec];
    forall j | 0 <= j < |k2|
      ensures e.apiValueKey in k2[j].values
      ensures r2[j].lastChangedTs == k2[j].ts && r2[j].lastUpdatedTs == k2[j].ts
      ensures Expected(k2, e, j) == Success(r2[j].state)
    {
      if j < |kept| {
        assert k2[j] == kept[j] && r2[j] == recs[j];
        ExpectedAppendAt(kept, d, e, j);
      }
    }
  }

  lemma {:induction false} AgreesServable(recs: seq<StateRecord>, kept: seq<Reading>, e: Entity)
    requires Agrees(recs, kept, e)
    ensures Servable(kept, e)
  {
  }

  /** What one visit does to the loop variables, whatever the entity. */
  lemma {:induction false} VisitShape(acc: Acc, i: int, d: Reading, e: Entity, c: Option<int>)
    requires LinksBackward(acc.states)
    requires Visit(acc, i, d, e, c).Success?
    ensures var a := Visit(acc, i, d, e, c).value;
      && a.lastIdx >= acc.lastIdx
      && (e.key != LeakComputedKey ==> a.lastValues == acc.lastValues)
      && a.states.Keys == acc.states.Keys + {e.key}
      && (forall key :: key != e.key ==> Get(a.states, key) == Get(acc.states, key))
      && LinksBackward(a.states)
  {
    if IsNew(d, c) {
      EmitShape(acc, i, d, e);
    }
  }

  lemma {:induction false} EmitShape(acc: Acc, i: int, d: Reading, e: Entity)
    requires LinksBackward(acc.states)
    requires Emit(acc, i, d, e).Success?
    ensures var a := Emit(acc, i, d, e).value;
      && a.lastIdx == acc.lastIdx
      && (e.key != LeakComputedKey ==> a.lastValues == acc.lastValues)
      && a.states.Keys == acc.states.Keys + {e.key}
      && (forall key :: key != e.key ==> Get(a.states, key) == Get(acc.states, key))
      && LinksBackward(a.states)
  {
    var prev := Get(acc.states, e.key);
    var next := NextState(acc.lastValues, d, e).value;
    var link := OldState(prev, i, acc.lastIdx).value;
    var recs := prev + [StateRecord(next.0, d.ts, d.ts, link)];
    assert Emit(acc, i, d, e).value.states == acc.states[e.key := recs];
    assert e.key != LeakComputedKey ==> next.1 == acc.lastValues;
    forall j | 0 <= j < |recs| && recs[j].oldState.Some?
      ensures recs[j].oldState.value < j
    {
      if j < |prev| {
        assert recs[j] == prev[j];
      }
    }
  }

  /** Frame: a visit to another entity leaves this entity's invariant alone. */
  lemma {:induction false} EntityInvFrame(acc: Acc, a: Acc, ds: seq<Reading>, n: int, e: Entity, c: Option<int>)
    requires 0 <= n <= |ds| && EntityInv(acc, ds, n, e, c)
    requires Get(a.states, e.key) == Get(acc.states, e.key) && a.lastIdx >= acc.lastIdx
    requires e.key == LeakComputedKey ==> a.lastValues == acc.lastValues
    ensures EntityInv(a, ds, n, e, c)
  {
  }

  /** A reading no newer than the cursor: the history stays, `last_idx` grows. */
  lemma {:induction false} SkipStep(acc: Acc, ds: seq<Reading>, i: int, e: Entity, c: Option<int>)
    requires 0 <= i < |ds| && EntityInv(acc, ds, i, e, c) && !IsNew(ds[i], c)
    ensures Visit(acc, i, ds[i], e, c).Success?
    ensures EntityInv(Visit(acc, i, ds[i], e, c).value, ds, i + 1, e, c)
    ensures Servable(Fresh(ds[..i + 1], c), e)
  {
    var prev := Get(acc.states, e.key);
    var a := Skip(acc, e);
    assert Get(a.states, e.key) == prev;
    FreshStep(ds, i, c);
    assert Fresh(ds[..i + 1], c) == Fresh(ds[..i], c);
    AgreesServable(prev, Fresh(ds[..i], c), e);
    EntityInvFrameStep(acc, a, ds, i, e, c);
  }

  /** A skipped reading: the same kept readings, and one more reading seen. */
  lemma {:induction false} EntityInvFrameStep(acc: Acc, a: Acc, ds: seq<Reading>, i: int, e: Entity, c: Option<int>)
    requires 0 <= i < |ds| && EntityInv(acc, ds, i, e, c)
    requires Fresh(ds[..i + 1], c) == Fresh(ds[..i], c)
    requires Get(a.states, e.key) == Get(acc.states, e.key) && a.lastIdx == acc.lastIdx + 1
    requires a.lastValues == acc.lastValues
    ensures EntityInv(a, ds, i + 1, e, c)
  {
  }

  /** A fresh reading: the expected record is appended, or the visit raises because it cannot be served. */
  lemma {:induction false} KeepStep(acc: Acc, ds: seq<Reading>, i: int, e: Entity, c: Option<int>)
    requires 0 <= i < |ds| && EntityInv(acc, ds, i, e, c) && IsNew(ds[i], c)
    ensures var r := Visit(acc, i, ds[i], e, c);
      && r != Failure(IndexError)
      && (r.Success? <==> Servable(Fresh(ds[..i + 1], c), e))
      && (r.Success? ==> EntityInv(r.value, ds, i + 1, e, c))
  {
    var d := ds[i];
    var prev := Get(acc.states, e.key);
    var before := Fresh(ds[..i], c);
    FreshStep(ds, i, c);
    assert Fresh(ds[..i + 1], c) == before + [d];
    ExpectedAppendLast(before, d, e);
    ServableAppend(before, d, e);
    AgreesServable(prev, before, e);
    RawsAppend(before, d, e.apiValueKey);
    TrimAppend(Raws(before, e.apiValueKey), Raw(d, e.apiValueKey));
    var r := Visit(acc, i, d, e, c);
    if r.Success? {
      var a := r.value;
      var rec := a.states[e.key][|prev|];
      assert a.states[e.key] == prev + [rec];
      AgreesAppend(prev, before, e, d, rec);
    }
  }

  lemma {:induction false} KeysOfSnoc(es: seq<Entity>, k: int)
    requires 0 <= k < |es|
    ensures KeysOf(es[..k + 1]) == KeysOf(es[..k]) + {es[k].key}
  {
    assert forall p :: 0 <= p < k ==> es[..k + 1][p] == es[..k][p];
    assert es[..k + 1][k] == es[k];
  }

  lemma {:induction false} KeysOfSub(es: seq<Entity>, k: int)
    requires 0 <= k <= |es|
    ensures KeysOf(es[..k]) <= KeysOf(es)
  {
    assert forall p :: 0 <= p < k ==> es[..k][p] == es[p];
  }

  /** One entity visit keeps the invariant, and fails only when the reading cannot be served. */
  lemma {:induction false} VisitStep(acc: Acc, ds: seq<Reading>, i: int, es: seq<Entity>, k: int,
                  cursors: map<string, Option<int>>)
    requires 0 <= i < |ds| && 0 <= k < |es| && DistinctKeys(es) && HasCursors(es, cursors)
    requires Inv(acc, ds, i, es, k, cursors)
    ensures var r := Visit(acc, i, ds[i], es[k], cursors[es[k].key]);
      && r != Failure(IndexError)
      && (r.Success? <==> Servable(Fresh(ds[..i + 1], cursors[es[k].key]), es[k]))
      && (r.Success? ==> Inv(r.value, ds, i, es, k + 1, cursors))
  {
    var e := es[k];
    var c := cursors[e.key];
    assert EntityInv(acc, ds, Seen(i, k, k), e, c);
    if IsNew(ds[i], c) {
      KeepStep(acc, ds, i, e, c);
    } else {
      SkipStep(acc, ds, i, e, c);
    }
    var r := Visit(acc, i, ds[i], e, c);
    if r.Success? {
      VisitShape(acc, i, ds[i], e, c);
      InvAfterVisit(acc, r.value, ds, i, es, k, cursors);
    }
  }

  /** The invariant moves past entity `k` once that entity's own part holds and the others are framed. */
  lemma {:induction false} InvAfterVisit(acc: Acc, a: Acc, ds: seq<Reading>, i: int, es: seq<Entity>, k: int,
                                         cursors: map<string, Option<int>>)
    requires 0 <= i < |ds| && 0 <= k < |es| && DistinctKeys(es) && HasCursors(es, cursors)
    requires Inv(acc, ds, i, es, k, cursors)
    requires EntityInv(a, ds, i + 1, es[k], cursors[es[k].key])
    requires a.lastIdx >= acc.lastIdx
    requires es[k].key != LeakComputedKey ==> a.lastValues == acc.lastValues
    requires a.states.Keys == acc.states.Keys + {es[k].key}
    requires forall key :: key != es[k].key ==> Get(a.states, key) == Get(acc.states, key)
    requires LinksBackward(a.states)
    ensures Inv(a, ds, i, es, k + 1, cursors)
  {
    OthersAfterVisit(acc, a, ds, i, es, k, cursors);
    KeysOfSnoc(es, k);
    KeysOfSub(es, k + 1);
    assert es[k].key in KeysOf(es);
  }

  /** The entities other than `k` keep their part of the invariant across a visit to `k`. */
  lemma {:induction false} OthersAfterVisit(acc: Acc, a: Acc, ds: seq<Reading>, i: int, es: seq<Entity>, k: int,
                                            cursors: map<string, Option<int>>)
    requires 0 <= i < |ds| && 0 <= k < |es| && DistinctKeys(es) && HasCursors(es, cursors)
    requires forall p :: 0 <= p < |es| ==> EntityInv(acc, ds, Seen(i, p, k), es[p], cursors[es[p].key])
    requires EntityInv(a, ds, i + 1, es[k], cursors[es[k].key])
    requires a.lastIdx >= acc.lastIdx
    requires es[k].key != LeakComputedKey ==> a.lastValues == acc.lastValues
    requires forall key :: key != es[k].key ==> Get(a.states, key) == Get(acc.states, key)
    ensures forall p :: 0 <= p < |es| ==> EntityInv(a, ds, Seen(i, p, k + 1), es[p], cursors[es[p].key])
  {
    forall p | 0 <= p < |es|
      ensures EntityInv(a, ds, Seen(i, p, k + 1), es[p], cursors[es[p].key])
    {
      if p != k {
        assert es[p].key != es[k].key;
        assert Seen(i, p, k + 1) == Seen(i, p, k);
        EntityInvFrame(acc, a, ds, Seen(i, p, k), es[p], cursors[es[p].key]);
      }
    }
  }

  /** The inner loop over all entities keeps the invariant. */
  lemma {:induction false} VisitAllInv(acc: Acc, ds: seq<Reading>, i: int, es: seq<Entity>, k: int,
                                       cursors: map<string, Option<int>>)
    requires 0 <= i < |ds| && 0 <= k <= |es| && DistinctKeys(es) && HasCursors(es, cursors)
    requires Inv(acc, ds, i, es, k, cursors)
    ensures HasCursors(es[k..], cursors)
    ensures var r := VisitAll(acc, i, ds[i], es[k..], cursors);
      && r != Failure(IndexError)
      && (r.Success? <==> forall p :: k <= p < |es| ==> Servable(Fresh(ds[..i + 1], cursors[es[p].key]), es[p]))
      && (r.Success? ==> Inv(r.value, ds, i, es, |es|, cursors))
    decreases |es| - k
  {
    VisitAllUnfold(acc, i, ds[i], es, k, cursors);
    if k < |es| {
      VisitStep(acc, ds, i, es, k, cursors);
      var r := Visit(acc, i, ds[i], es[k], cursors[es[k].key]);
      if r.Success? {
        VisitAllInv(r.value, ds, i, es, k + 1, cursors);
      }
    }
  }

  /** The inner loop from entity `k` on: nothing left, or a visit to entity `k` followed by the rest. */
  lemma {:induction false} VisitAllUnfold(acc: Acc, i: int, d: Reading, es: seq<Entity>, k: int,
                                          cursors: map<string, Option<int>>)
    requires 0 <= k <= |es| && HasCursors(es, cursors)
    ensures HasCursors(es[k..], cursors)
    ensures k == |es| ==> VisitAll(acc, i, d, es[k..], cursors) == Success(acc)
    ensures k < |es| ==> HasCursors(es[k + 1..], cursors)
    ensures k < |es| ==>
      var v := Visit(acc, i, d, es[k], cursors[es[k].key]);
      VisitAll(acc, i, d, es[k..], cursors) ==
        if v.Failure? then Failure(v.error) else VisitAll(v.value, i, d, es[k + 1..], cursors)
  {
    assert forall p :: 0 <= p < |es| - k ==> es[k..][p] == es[k + p];
    if k < |es| {
      assert es[k..][0] == es[k] && es[k..][1..] == es[k + 1..];
    }
  }

  /** After the last entity of reading `i`, the invariant reads as the one before reading `i + 1`. */
  lemma {:induction false} NextReading(acc: Acc, ds: seq<Reading>, i: int, es: seq<Entity>, cursors: map<string, Option<int>>)
    requires 0 <= i < |ds| && HasCursors(es, cursors)
    requires Inv(acc, ds, i, es, |es|, cursors)
    ensures Inv(acc, ds, i + 1, es, 0, cursors)
  {
    assert es[..|es|] == es;
    assert es[..0] == [];
    assert KeysOf([]) == {};
    forall p | 0 <= p < |es|
      ensures EntityInv(acc, ds, Seen(i + 1, p, 0), es[p], cursors[es[p].key])
    {
      assert Seen(i + 1, p, 0) == Seen(i, p, |es|);
    }
  }

  /** The outer loop keeps the invariant, and fails exactly when some prefix cannot be processed. */
  lemma {:induction false} RunInvariant(ds: seq<Reading>, es: seq<Entity>, cursors: map<string, Option<int>>, n: int)
    requires 0 <= n <= |ds| && DistinctKeys(es) && HasCursors(es, cursors)
    ensures var r := Run(ds, es, cursors, n);
      && r != Failure(IndexError)
      && (r.Success? <==> ServableUpTo(ds, n, es, cursors))
      && (r.Success? ==> Inv(r.value, ds, n, es, 0, cursors))
    decreases n
  {
    if n == 0 {
      RunStart(ds, es, cursors);
    } else {
      RunInvariant(ds, es, cursors, n - 1);
      var r0 := Run(ds, es, cursors, n - 1);
      if r0.Success? && Convertible(ds[n - 1].ts) {
        RunStep(r0.value, ds, es, cursors, n);
      } else if ServableUpTo(ds, n, es, cursors) {
        ServableUpToPrefix(ds, n, es, cursors);
      }
    }
  }

  /** One more reading: the inner loop run on the state after the readings before it. */
  lemma RunUnfold(ds: seq<Reading>, es: seq<Entity>, cursors: map<string, Option<int>>, n: int)
    requires 0 < n <= |ds| && HasCursors(es, cursors)
    requires Run(ds, es, cursors, n - 1).Success? && Convertible(ds[n - 1].ts)
    ensures Run(ds, es, cursors, n) == VisitAll(Run(ds, es, cursors, n - 1).value, n - 1, ds[n - 1], es, cursors)
  {
  }

  /** One pass of the outer loop, from a state that satisfies the invariant. */
  lemma {:induction false} RunStep(acc: Acc, ds: seq<Reading>, es: seq<Entity>,
                                   cursors: map<string, Option<int>>, n: int)
    requires 0 < n <= |ds| && DistinctKeys(es) && HasCursors(es, cursors)
    requires Run(ds, es, cursors, n - 1) == Success(acc) && Convertible(ds[n - 1].ts)
    requires ServableUpTo(ds, n - 1, es, cursors) && Inv(acc, ds, n - 1, es, 0, cursors)
    ensures var r := Run(ds, es, cursors, n);
      && r != Failure(IndexError)
      && (r.Success? <==> ServableUpTo(ds, n, es, cursors))
      && (r.Success? ==> Inv(r.value, ds, n, es, 0, cursors))
  {
    VisitAllInv(acc, ds, n - 1, es, 0, cursors);
    assert es[0..] == es;
    var r := VisitAll(acc, n - 1, ds[n - 1], es, cursors);
    assert Run(ds, es, cursors, n) == r;
    if r.Success? {
      NextReading(r.value, ds, n - 1, es, cursors);
    }
    ServableUpToStep(ds, n, es, cursors);
  }

  lemma {:induction false} RunStart(ds: seq<Reading>, es: seq<Entity>, cursors: map<string, Option<int>>)
    requires HasCursors(es, cursors)
    ensures Run(ds, es, cursors, 0) == Success(Acc(map[], [], 1))
    ensures ServableUpTo(ds, 0, es, cursors)
    ensures Inv(Acc(map[], [], 1), ds, 0, es, 0, cursors)
  {
    assert ds[..0] == [];
    assert es[..0] == [];
    assert KeysOf([]) == {};
  }

  lemma {:induction false} ExpectedPrefix(kept: seq<Reading>, m: int, e: Entity, j: int)
    requires 0 <= j < m <= |kept|
    ensures Expected(kept[..m], e, j) == Expected(kept, e, j)
  {
    assert Raws(kept[..m], e.apiValueKey)[..j + 1] == Raws(kept, e.apiValueKey)[..j + 1];
  }

  lemma {:induction false} ServablePrefix(kept: seq<Reading>, m: int, e: Entity)
    requires 0 <= m <= |kept| && Servable(kept, e)
    ensures Servable(kept[..m], e)
  {
    forall j | 0 <= j < m
      ensures e.apiValueKey in kept[..m][j].values && Expected(kept[..m], e, j).Success?
    {
      ExpectedPrefix(kept, m, e, j);
    }
  }

  lemma {:induction false} ServableUpToPrefix(ds: seq<Reading>, n: int, es: seq<Entity>, cursors: map<string, Option<int>>)
    requires 0 < n <= |ds| && HasCursors(es, cursors)
    requires ServableUpTo(ds, n, es, cursors)
    ensures ServableUpTo(ds, n - 1, es, cursors)
  {
    forall p | 0 <= p < |es|
      ensures Servable(Fresh(ds[..n - 1], cursors[es[p].key]), es[p])
    {
      FreshServablePrefix(ds, n, es[p], cursors[es[p].key]);
    }
  }

  lemma {:induction false} FreshServablePrefix(ds: seq<Reading>, n: int, e: Entity, c: Option<int>)
    requires 0 < n <= |ds| && Servable(Fresh(ds[..n], c), e)
    ensures Servable(Fresh(ds[..n - 1], c), e)
  {
    FreshStep(ds, n - 1, c);
    var f := Fresh(ds[..n - 1], c);
    assert f == Fresh(ds[..n], c)[..|f|];
    ServablePrefix(Fresh(ds[..n], c), |f|, e);
  }

  lemma {:induction false} ServableUpToStep(ds: seq<Reading>, n: int, es: seq<Entity>, cursors: map<string, Option<int>>)
    requires 0 < n <= |ds| && HasCursors(es, cursors)
    ensures ServableUpTo(ds, n, es, cursors) <==>
      && ServableUpTo(ds, n - 1, es, cursors) && Convertible(ds[n - 1].ts)
      && forall p :: 0 <= p < |es| ==> Servable(Fresh(ds[..n], cursors[es[p].key]), es[p])
  {
    if ServableUpTo(ds, n, es, cursors) {
      ServableUpToPrefix(ds, n, es, cursors);
    }
  }
}
