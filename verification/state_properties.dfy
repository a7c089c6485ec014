/**
 * What the state builder promises about each entity's history: which
 * readings it keeps, what state each record carries, the smoothing window of
 * the computed-leak entity, order, and the `old_state` links of a lone entity.
 */
module StateProperties {
  import opened Wrappers
  import opened Readings
  import opened DateTimes
  import opened StateBuilder

  // ---------------------------------------------------------------------------
  // Which readings produce a record

  /** A reading is kept exactly when it is newer than the cursor. */
  lemma {:induction false} FreshExact(ds: seq<Reading>, cursor: Option<int>, d: Reading)
    ensures d in Fresh(ds, cursor) <==> d in ds && IsNew(d, cursor)
    decreases |ds|
  {
    if |ds| > 0 {
      var init := ds[..|ds| - 1];
      FreshExact(init, cursor, d);
      assert ds == init + [ds[|ds| - 1]];
    }
  }

  /** Re-fetching a batch whose readings are all at or below the cursor keeps nothing. */
  lemma {:induction false} FreshNone(ds: seq<Reading>, cursor: Option<int>)
    requires cursor.Some? && forall j :: 0 <= j < |ds| ==> ds[j].ts <= cursor.value
    ensures Fresh(ds, cursor) == []
    decreases |ds|
  {
    if |ds| > 0 {
      FreshNone(ds[..|ds| - 1], cursor);
    }
  }

  /**
   * Idempotent re-fetch: when every entity's last recorded state is at or
   * after every reading, the builder fails only on a `ts` it cannot convert and
   * otherwise writes no record at all.
   */
  lemma RefetchWritesNothing(ds: seq<Reading>, es: seq<Entity>, cursors: map<string, Option<int>>)
    requires DistinctKeys(es) && HasCursors(es, cursors)
    requires forall p :: 0 <= p < |es| ==> cursors[es[p].key].Some?
    requires forall p, j :: 0 <= p < |es| && 0 <= j < |ds| ==> ds[j].ts <= cursors[es[p].key].value
    ensures var r := BuildStates(ds, es, cursors);
      && (r.Success? <==> forall j :: 0 <= j < |ds| ==> Convertible(ds[j].ts))
      && (r.Success? ==> forall p :: 0 <= p < |es| ==> Get(r.value, es[p].key) == [])
  {
    forall p | 0 <= p < |es|
      ensures Fresh(ds, cursors[es[p].key]) == []
    {
      FreshNone(ds, cursors[es[p].key]);
    }
  }

  /**
   * A reading at 23:00 UTC on 31 December 9999 has a datetime, but the
   * unused `end_time` an hour later does not: the batch raises OverflowError.
   */
  lemma LastHourOverflows(d: Reading, es: seq<Entity>, cursors: map<string, Option<int>>)
    requires DistinctKeys(es) && HasCursors(es, cursors)
    requires d.ts == 253402297200
    ensures Representable(d.ts, 0)
    ensures BuildStates([d], es, cursors) == Failure(OverflowError(d.ts))
  {
    assert Run([d], es, cursors, 0) == Success(Acc(map[], [], 1));
  }

  // ---------------------------------------------------------------------------
  // What each record holds

  /**
   * An entity other than the computed-leak one copies its metric: the `j`-th
   * record carries the value of the `j`-th kept reading, null included, and
   * that reading's `ts` as both timestamps.
   */
  lemma CopiesMetric(ds: seq<Reading>, es: seq<Entity>, cursors: map<string, Option<int>>, p: int)
    requires DistinctKeys(es) && HasCursors(es, cursors) && 0 <= p < |es|
    requires es[p].key != LeakComputedKey
    ensures var r := BuildStates(ds, es, cursors);
      r.Success? ==>
        var recs := Get(r.value, es[p].key);
        var kept := Fresh(ds, cursors[es[p].key]);
        && |recs| == |kept|
        && forall j :: 0 <= j < |recs| ==>
             && recs[j].state == kept[j].values[es[p].apiValueKey]
             && recs[j].lastChangedTs == kept[j].ts == recs[j].lastUpdatedTs
  {
  }

  /** `last_values[-5:]` after each append: the last `min(5, j + 1)` raw values, oldest first. */
  lemma WindowShape(raws: seq<Option<real>>, j: int)
    requires 0 <= j < |raws|
    ensures var w := Window(raws, j);
      && 1 <= |w| <= WindowSize
      && |w| == (if j + 1 < WindowSize then j + 1 else WindowSize)
      && w == raws[j + 1 - |w|..j + 1]
      && w[|w| - 1] == raws[j]
  {
  }

  /**
   * The computed-leak entity: its `j`-th state is the minimum of the window
   * of the last at most five raw values ending at the `j`-th kept reading's
   * metric; it is one of those values, and when the current raw value is a
   * number the state is a number no greater than it.
   */
  lemma LeakIsWindowMinimum(ds: seq<Reading>, es: seq<Entity>, cursors: map<string, Option<int>>,
                             states: States, p: int, j: int)
    requires DistinctKeys(es) && HasCursors(es, cursors) && 0 <= p < |es|
    requires es[p].key == LeakComputedKey
    requires BuildStates(ds, es, cursors) == Success(states)
    requires 0 <= j < |Get(states, es[p].key)|
    ensures var kept := Fresh(ds, cursors[es[p].key]);
      && j < |kept|
      && Raws(kept, es[p].apiValueKey)[j] == kept[j].values[es[p].apiValueKey]
      && MinOfWindow(Raws(kept, es[p].apiValueKey), j, Get(states, es[p].key)[j].state)
  {
    LeakRecord(Get(states, es[p].key), Fresh(ds, cursors[es[p].key]), es[p], j);
  }

  /**
   * `s` against the raw values at position `j`: the window holds the last
   * at most five of them, ends with the current one, and `s` is its `min`,
   * so no greater than the current value when that is a number.
   */
  predicate MinOfWindow(raws: seq<Option<real>>, j: int, s: Option<real>)
    requires 0 <= j < |raws|
  {
    var w := Window(raws, j);
    && 1 <= |w| <= WindowSize
    && w[|w| - 1] == raws[j]
    && IsWindowMin(s, w)
    && (raws[j].Some? ==> s.Some? && s.value <= raws[j].value)
  }

  /** `s` is what `min` returns on window `w`: one of its values, and a number no greater than any number in it. */
  predicate IsWindowMin(s: Option<real>, w: seq<Option<real>>) {
    && s in w
    && forall x :: 0 <= x < |w| && w[x].Some? ==> s.Some? && s.value <= w[x].value
  }

  /** The `j`-th record of a computed-leak history that agrees with its kept readings holds its window's minimum. */
  lemma LeakRecord(recs: seq<StateRecord>, kept: seq<Reading>, e: Entity, j: int)
    requires Agrees(recs, kept, e) && e.key == LeakComputedKey && 0 <= j < |recs|
    ensures j < |kept|
    ensures Raws(kept, e.apiValueKey)[j] == kept[j].values[e.apiValueKey]
    ensures MinOfWindow(Raws(kept, e.apiValueKey), j, recs[j].state)
  {
    AgreesAt(recs, kept, e, j);
    WindowMinimum(Raws(kept, e.apiValueKey), j, recs[j].state);
  }

  /** The `j`-th record of an agreeing history carries the `j`-th expected state. */
  lemma AgreesAt(recs: seq<StateRecord>, kept: seq<Reading>, e: Entity, j: int)
    requires Agrees(recs, kept, e) && 0 <= j < |recs|
    ensures Expected(kept, e, j) == Success(recs[j].state)
    ensures e.apiValueKey in kept[j].values
  {
  }

  /** A successful `min` over the window at `j` is that window's minimum. */
  lemma WindowMinimum(raws: seq<Option<real>>, j: int, s: Option<real>)
    requires 0 <= j < |raws| && PyMin(Window(raws, j)) == Success(s)
    ensures MinOfWindow(raws, j, s)
  {
    WindowShape(raws, j);
  }

  /** With no null raw value among the kept readings, every computed-leak state is a number. */
  lemma LeakNeverNull(ds: seq<Reading>, es: seq<Entity>, cursors: map<string, Option<int>>,
                      states: States, p: int, j: int)
    requires DistinctKeys(es) && HasCursors(es, cursors) && 0 <= p < |es|
    requires es[p].key == LeakComputedKey
    requires BuildStates(ds, es, cursors) == Success(states)
    requires 0 <= j < |Get(states, es[p].key)|
    requires forall d :: d in Fresh(ds, cursors[es[p].key]) ==> d.values[es[p].apiValueKey].Some?
    ensures Get(states, es[p].key)[j].state.Some?
  {
    var kept := Fresh(ds, cursors[es[p].key]);
    assert kept[j] in kept;
    LeakIsWindowMinimum(ds, es, cursors, states, p, j);
  }

  // ---------------------------------------------------------------------------
  // Order

  lemma {:induction false} FreshAscending(ds: seq<Reading>, cursor: Option<int>)
    requires Ascending(ds)
    ensures Ascending(Fresh(ds, cursor))
    decreases |ds|
  {
    if |ds| > 0 {
      var init := ds[..|ds| - 1];
      var last := ds[|ds| - 1];
      FreshAscending(init, cursor);
      var f := Fresh(init, cursor);
      forall a | 0 <= a < |f|
        ensures f[a].ts < last.ts
      {
        var k :| 0 <= k < |init| && init[k] == f[a];
      }
    }
  }

  /** For a batch in ascending `ts`, every entity's records come out in strictly ascending `ts`. */
  lemma RecordsAscending(ds: seq<Reading>, es: seq<Entity>, cursors: map<string, Option<int>>, p: int)
    requires DistinctKeys(es) && HasCursors(es, cursors) && 0 <= p < |es|
    requires Ascending(ds)
    ensures var r := BuildStates(ds, es, cursors);
      r.Success? ==>
        var recs := Get(r.value, es[p].key);
        forall a, b :: 0 <= a < b < |recs| ==> recs[a].lastChangedTs < recs[b].lastChangedTs
  {
    FreshAscending(ds, cursors[es[p].key]);
  }

  // ---------------------------------------------------------------------------
  // The `old_state` links of a lone entity

  /** Each record but the first links to the record just before it. */
  predicate LinksToPrevious(recs: seq<StateRecord>) {
    forall j :: 0 <= j < |recs| ==> recs[j].oldState == (if j == 0 then None else Some(j - 1))
  }

  predicate SingleLinked(acc: Acc, n: int, e: Entity) {
    && n + 1 - acc.lastIdx == |Get(acc.states, e.key)|
    && LinksToPrevious(Get(acc.states, e.key))
  }

  /**
   * With one entity, `last_idx` is one more than the number of skipped
   * readings, so `i - last_idx` is one less than the number of records so far.
   */
  predicate RunLinked(ds: seq<Reading>, es: seq<Entity>, cursors: map<string, Option<int>>, n: int)
    requires 0 <= n <= |ds| && |es| == 1 && HasCursors(es, cursors)
  {
    Run(ds, es, cursors, n).Success? ==> SingleLinked(Run(ds, es, cursors, n).value, n, es[0])
  }

  lemma SingleEntityRun(ds: seq<Reading>, es: seq<Entity>, cursors: map<string, Option<int>>, n: int)
    requires 0 <= n <= |ds| && |es| == 1 && HasCursors(es, cursors)
    ensures RunLinked(ds, es, cursors, n)
  {
    var linked := k => 0 <= k <= |ds| && RunLinked(ds, es, cursors, k);
    SingleEntityStart(ds, es, cursors);
    forall k | 0 < k <= n && linked(k - 1)
      ensures linked(k)
    {
      SingleEntityStep(ds, es, cursors, k);
    }
    Induction(linked, n);
  }

  /** Induction on the prefix length. */
  lemma {:induction false} Induction(p: int -> bool, n: int)
    requires 0 <= n && p(0)
    requires forall k :: 0 < k <= n && p(k - 1) ==> p(k)
    ensures p(n)
    decreases n
  {
    if n > 0 {
      Induction(p, n - 1);
    }
  }

  lemma SingleEntityStart(ds: seq<Reading>, es: seq<Entity>, cursors: map<string, Option<int>>)
    requires |es| == 1 && HasCursors(es, cursors)
    ensures RunLinked(ds, es, cursors, 0)
  {
    assert Run(ds, es, cursors, 0) == Success(Acc(map[], [], 1));
  }

  lemma {:induction false} SingleEntityStep(ds: seq<Reading>, es: seq<Entity>, cursors: map<string, Option<int>>, n: int)
    requires 0 < n <= |ds| && |es| == 1 && HasCursors(es, cursors)
    requires RunLinked(ds, es, cursors, n - 1)
    ensures RunLinked(ds, es, cursors, n)
  {
    var r0 := Run(ds, es, cursors, n - 1);
    if r0.Success? && Convertible(ds[n - 1].ts) {
      VisitAllSingle(r0.value, n - 1, ds[n - 1], es, cursors);
      RunUnfold(ds, es, cursors, n);
      var v := Visit(r0.value, n - 1, ds[n - 1], es[0], cursors[es[0].key]);
      if v.Success? {
        VisitLinksPrevious(r0.value, n - 1, ds[n - 1], es[0], cursors[es[0].key]);
      }
    }
  }

  /** The inner loop over a single entity is one visit. */
  lemma VisitAllSingle(acc: Acc, i: int, d: Reading, es: seq<Entity>, cursors: map<string, Option<int>>)
    requires |es| == 1 && HasCursors(es, cursors)
    ensures VisitAll(acc, i, d, es, cursors) == Visit(acc, i, d, es[0], cursors[es[0].key])
  {
    assert es[1..] == [];
  }

  lemma VisitLinksPrevious(acc: Acc, i: int, d: Reading, e: Entity, c: Option<int>)
    requires SingleLinked(acc, i, e)
    requires Visit(acc, i, d, e, c).Success?
    ensures SingleLinked(Visit(acc, i, d, e, c).value, i + 1, e)
  {
    var prev := Get(acc.states, e.key);
    if IsNew(d, c) {
      var next := NextState(acc.lastValues, d, e).value;
      var link := OldState(prev, i, acc.lastIdx).value;
      var recs := prev + [StateRecord(next.0, d.ts, d.ts, link)];
      assert Emit(acc, i, d, e).value == Acc(acc.states[e.key := recs], next.1, acc.lastIdx);
      forall j | 0 <= j < |recs|
        ensures recs[j].oldState == (if j == 0 then None else Some(j - 1))
      {
        if j < |prev| {
          assert recs[j] == prev[j];
        }
      }
    } else {
      assert Get(Skip(acc, e).states, e.key) == prev;
    }
  }

  /**
   * A lone entity, whatever its skipped readings: the first record has no
   * `old_state` and every later record links to the one emitted just before.
   */
  lemma SingleEntityLinks(ds: seq<Reading>, e: Entity, cursors: map<string, Option<int>>)
    requires e.key in cursors
    ensures DistinctKeys([e]) && HasCursors([e], cursors)
    ensures var r := BuildStates(ds, [e], cursors);
      r.Success? ==> LinksToPrevious(Get(r.value, e.key))
  {
    assert HasCursors([e], cursors);
    SingleEntityRun(ds, [e], cursors, |ds|);
  }
}
