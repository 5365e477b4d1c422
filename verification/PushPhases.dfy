/** How the push and prune phases of a reconcile are built up, one store at a time. */
module PushPhases {
  import opened Common
  import opened PushSpec
  import opened PushRuns

  // ---------------------------------------------------------------- pushing

  /** The calls for one store, and the inner map they leave. */
  ghost predicate StorePush(ref: StoreRef, data: seq<PushData>, secret: SecretData,
                            calls: Log, m: map<string, PushData>, ok: bool) {
    && PushCalls({ref}, data, secret, calls, ok)
    && StoreRecords(ref, calls, m)
    && (if ok then Complete(ref, data, secret, calls) else StopsAt(ref, data, secret, calls))
    && (ok ==> m == ByRemoteKey(data) && HoldsLast(Replay(map[], calls), {ref}, data, secret))
  }

  /** The inner map holds exactly what the calls pushed to the store. */
  ghost predicate StoreRecords(ref: StoreRef, calls: Log, m: map<string, PushData>) {
    && (forall e <- m :: m[e].remoteKey == e)
    && (forall e: string :: e in m <==> PushedIn(calls, Loc(ref, e)))
  }

  lemma PushCallsWiden(stores: set<StoreRef>, data: seq<PushData>, secret: SecretData, calls: Log, ok: bool,
                       stores': set<StoreRef>, data': seq<PushData>)
    requires PushCalls(stores, data, secret, calls, ok) && stores <= stores' && data <= data'
    ensures PushCalls(stores', data', secret, calls, ok) && PushCalls(stores', data', secret, calls, false)
  {
    hide EntryOf;
    forall i | 0 <= i < |calls|
      ensures PushOf(stores', data', secret, calls[i])
    {
      if !calls[i].NoClient? {
        var j :| EntryOf(data, secret, j, calls[i]);
        EntryOfWiden(data, secret, j, calls[i], data');
      }
    }
  }

  lemma EntryOfWiden(data: seq<PushData>, secret: SecretData, i: int, e: Event, data': seq<PushData>)
    requires IsPush(e) && EntryOf(data, secret, i, e) && data <= data'
    ensures EntryOf(data', secret, i, e)
  {
  }

  lemma PushCallsConcat(stores: set<StoreRef>, data: seq<PushData>, secret: SecretData, a: Log, b: Log, ok: bool)
    requires PushCalls(stores, data, secret, a, true) && PushCalls(stores, data, secret, b, ok)
    ensures PushCalls(stores, data, secret, a + b, ok)
  {
  }

  lemma PushedInConcat(a: Log, b: Log, loc: Loc)
    ensures PushedIn(a + b, loc) <==> PushedIn(a, loc) || PushedIn(b, loc)
  {
    if PushedIn(a, loc) {
      var i :| 0 <= i < |a| && a[i].Pushed? && a[i].loc == loc;
      assert (a + b)[i] == a[i];
    }
    if PushedIn(b, loc) {
      var i :| 0 <= i < |b| && b[i].Pushed? && b[i].loc == loc;
      assert (a + b)[|a| + i] == b[i];
    }
  }

  lemma ByRemoteKeySnoc(data: seq<PushData>, d: PushData)
    ensures ByRemoteKey(data + [d]) == ByRemoteKey(data)[d.remoteKey := d]
  {
  }

  lemma StorePushStart(ref: StoreRef, secret: SecretData)
    ensures StorePush(ref, [], secret, [], map[], true)
  {
  }

  lemma ValuesReach(ref: StoreRef, data: seq<PushData>, secret: SecretData, calls: Log, data': seq<PushData>)
    requires Complete(ref, data, secret, calls) && data < data' && data'[|data|].secretKey in secret
    ensures Reached(data', secret, |data|)
  {
    assert forall j :: 0 <= j < |data| ==> data'[j] == data[j] && data[j] in data;
  }

  /** One more entry pushed to a store. */
  lemma StorePushSnoc(ref: StoreRef, data: seq<PushData>, secret: SecretData,
                      calls: Log, m: map<string, PushData>, d: PushData)
    requires StorePush(ref, data, secret, calls, m, true) && d.secretKey in secret
    ensures StorePush(ref, data + [d], secret, calls + [Pushed(Loc(ref, d.remoteKey), secret[d.secretKey])],
                      m[d.remoteKey := d], true)
  {
    hide HoldsLast, StoreRecords, ByRemoteKey;
    var data', call := data + [d], Pushed(Loc(ref, d.remoteKey), secret[d.secretKey]);
    ByRemoteKeySnoc(data, d);
    PushCallsWiden({ref}, data, secret, calls, true, {ref}, data');
    assert data'[|data|] == d;
    ValuesReach(ref, data, secret, calls, data');
    assert EntryOf(data', secret, |data|, call) && PushCalls({ref}, data', secret, [call], true);
    PushCallsConcat({ref}, data', secret, calls, [call], true);
    StoreRecordsSnoc(ref, calls, m, call, d);
    HoldsLastSnoc(ref, data, secret, Replay(map[], calls), d);
    assert (calls + [call])[..|calls + [call]| - 1] == calls;
  }

  lemma StoreRecordsSnoc(ref: StoreRef, calls: Log, m: map<string, PushData>, call: Event, d: PushData)
    requires StoreRecords(ref, calls, m)
    requires IsPush(call) && call.loc == Loc(ref, d.remoteKey)
    ensures StoreRecords(ref, calls + [call], if call.Pushed? then m[d.remoteKey := d] else m)
  {
    forall e: string
      ensures PushedIn(calls + [call], Loc(ref, e)) <==> e in m || (call.Pushed? && e == d.remoteKey)
    {
      PushedInConcat(calls, [call], Loc(ref, e));
      if call.Pushed? && e == d.remoteKey {
        assert [call][0].loc == Loc(ref, e);
      }
    }
  }

  lemma HoldsLastSnoc(ref: StoreRef, data: seq<PushData>, secret: SecretData, c: Contents, d: PushData)
    requires HoldsLast(c, {ref}, data, secret) && d.secretKey in secret
    ensures HoldsLast(c[Loc(ref, d.remoteKey) := secret[d.secretKey]], {ref}, data + [d], secret)
  {
    var data' := data + [d];
    forall i: nat | IsLast(data', i)
      ensures i < |data| ==> IsLast(data, i) && data[i].remoteKey != d.remoteKey
    {
      if i < |data| {
        assert data'[|data|].remoteKey != data'[i].remoteKey;
        forall j | i < j < |data|
          ensures data[j].remoteKey != data[i].remoteKey
        {
          assert data'[j].remoteKey != data'[i].remoteKey;
        }
      }
    }
  }

  lemma StorePushNoClient(ref: StoreRef, data: seq<PushData>, secret: SecretData)
    ensures StorePush(ref, data, secret, [NoClient(Loc(ref, ""))], map[], false)
  {
  }

  /** A failure part way through `data'`, for want of a value. */
  lemma StorePushStops(ref: StoreRef, data: seq<PushData>, secret: SecretData,
                       calls: Log, m: map<string, PushData>, data': seq<PushData>)
    requires StorePush(ref, data, secret, calls, m, true)
    requires data < data' && data'[|data|].secretKey !in secret
    ensures StorePush(ref, data', secret, calls, m, false)
  {
    hide StoreRecords, HoldsLast, Complete;
    PushCallsWiden({ref}, data, secret, calls, true, {ref}, data');
    assert data'[..|data|] == data;
    assert calls != [] ==> PushOf({ref}, data, secret, calls[|calls| - 1]);
    assert StopsAtEntry(ref, data', secret, calls, |data|);
  }

  lemma StorePushRejected(ref: StoreRef, data: seq<PushData>, secret: SecretData,
                          calls: Log, m: map<string, PushData>, data': seq<PushData>)
    requires StorePush(ref, data, secret, calls, m, true) && data < data'
    requires data'[|data|].secretKey in secret
    ensures var d := data'[|data|];
            StorePush(ref, data', secret, calls + [PushRejected(Loc(ref, d.remoteKey), secret[d.secretKey])], m, false)
  {
    hide HoldsLast, StoreRecords, ByRemoteKey;
    var d := data'[|data|];
    var call := PushRejected(Loc(ref, d.remoteKey), secret[d.secretKey]);
    PushCallsWiden({ref}, data, secret, calls, true, {ref}, data');
    ValuesReach(ref, data, secret, calls, data');
    assert EntryOf(data', secret, |data|, call) && PushCalls({ref}, data', secret, [call], false);
    PushCallsConcat({ref}, data', secret, calls, [call], false);
    StoreRecordsSnoc(ref, calls, m, call, d);
    CompleteGrows({ref}, data, secret, calls, [call]);
    assert data'[..|data|] == data;
    assert StopsAtEntry(ref, data', secret, calls + [call], |data|);
  }

  lemma PushPhaseStart(data: seq<PushData>, secret: SecretData)
    ensures PushPhase({}, data, secret, [], map[], true)
  {
  }

  /** A complete push to `done` followed by a (possibly failed) push to one more store. */
  lemma PushPhaseAddStore(done: set<StoreRef>, ref: StoreRef, data: seq<PushData>, secret: SecretData,
                          calls: Log, out: Synced, more: Log, m: map<string, PushData>, ok: bool)
    requires (forall r <- done :: ValidRef(r)) && ValidRef(ref) && ref !in done
    requires PushPhase(done, data, secret, calls, out, true)
    requires StorePush(ref, data, secret, more, m, ok)
    ensures PushPhase(done + {ref}, data, secret, calls + more, out[StoreKey(ref) := m], ok)
  {
    hide PushCalls, HoldsLast, WellKeyed, Wanted, Replay, Recorded, PushedIn;
    WellKeyedAddStore(out, ref, m);
    PushCallsWiden(done, data, secret, calls, true, done + {ref}, data);
    PushCallsWiden({ref}, data, secret, more, ok, done + {ref}, data);
    PushCallsConcat(done + {ref}, data, secret, calls, more, ok);
    forall loc: Loc | ValidRef(loc.store)
      ensures Recorded(out[StoreKey(ref) := m], loc) <==> PushedIn(calls + more, loc)
    {
      RecordsAddStore(done, ref, data, secret, calls, out, more, m, ok, loc);
    }
    CompleteGrows(done, data, secret, calls, more);
    if ok {
      WantedAddStore(done, ref, data);
      HoldsLastAddStore(done, ref, data, secret, calls, out, more, m);
      CompleteAfter(ref, data, secret, calls, more);
    } else {
      StopsAtNext(done, ref, data, secret, calls, more);
    }
  }

  lemma CompleteGrows(done: set<StoreRef>, data: seq<PushData>, secret: SecretData, calls: Log, more: Log)
    requires forall r <- done :: Complete(r, data, secret, calls)
    ensures forall r <- done :: Complete(r, data, secret, calls + more)
  {
  }

  lemma CompleteAfter(ref: StoreRef, data: seq<PushData>, secret: SecretData, calls: Log, more: Log)
    requires Complete(ref, data, secret, more)
    ensures Complete(ref, data, secret, calls + more)
  {
  }

  lemma StopsAtNext(done: set<StoreRef>, ref: StoreRef, data: seq<PushData>, secret: SecretData, calls: Log, more: Log)
    requires ref !in done && PushCalls(done, data, secret, calls, true) && StopsAt(ref, data, secret, more)
    requires forall r <- done :: Complete(r, data, secret, calls + more)
    ensures StoppedAt(done + {ref}, data, secret, calls + more, ref)
  {
    var calls' := calls + more;
    assert forall i :: 0 <= i < |calls| ==> PushOf(done, data, secret, calls[i]);
    assert more != [] ==> calls'[|calls'| - 1] == more[|more| - 1];
    assert more != [] ==> calls'[..|calls'| - 1] == calls + more[..|more| - 1];
    if !NoClientFor(more, ref) {
      var n :| StopsAtEntry(ref, data, secret, more, n);
      CompleteAfter(ref, data[..n], secret, calls, more);
      assert more == [] ==> calls' == calls;
      assert StopsAtEntry(ref, data, secret, calls', n);
    }
  }

  lemma WellKeyedAddStore(out: Synced, ref: StoreRef, m: map<string, PushData>)
    requires WellKeyed(out) && ValidRef(ref) && forall e <- m :: m[e].remoteKey == e
    ensures WellKeyed(out[StoreKey(ref) := m])
  {
  }

  lemma RecordsAddStore(done: set<StoreRef>, ref: StoreRef, data: seq<PushData>, secret: SecretData,
                        calls: Log, out: Synced, more: Log, m: map<string, PushData>, ok: bool, loc: Loc)
    requires ValidRef(ref) && ref !in done && ValidRef(loc.store)
    requires PushPhase(done, data, secret, calls, out, true)
    requires StorePush(ref, data, secret, more, m, ok)
    ensures Recorded(out[StoreKey(ref) := m], loc) <==> PushedIn(calls + more, loc)
  {
    hide StorePush, PushedIn, PushCalls, HoldsLast, Complete, Reachable, Outstanding;
    PushedInConcat(calls, more, loc);
    PushPhaseOutstanding(done, data, secret, calls, out, true, loc);
    StorePushStaysInStore(ref, data, secret, more, m, ok, loc);
    if StoreKey(loc.store) == StoreKey(ref) {
      StoreKeyInjective(loc.store, ref);
    }
  }

  lemma StorePushStaysInStore(ref: StoreRef, data: seq<PushData>, secret: SecretData,
                              calls: Log, m: map<string, PushData>, ok: bool, loc: Loc)
    requires StorePush(ref, data, secret, calls, m, ok)
    ensures OnlyPushes(calls)
    ensures PushedIn(calls, loc) <==> loc.store == ref && loc.key in m
  {
  }

  lemma WantedAddStore(done: set<StoreRef>, ref: StoreRef, data: seq<PushData>)
    ensures Wanted(done + {ref}, data) == Wanted(done, data)[StoreKey(ref) := ByRemoteKey(data)]
  {
  }

  lemma HoldsLastAddStore(done: set<StoreRef>, ref: StoreRef, data: seq<PushData>, secret: SecretData,
                          calls: Log, out: Synced, more: Log, m: map<string, PushData>)
    requires ref !in done
    requires PushPhase(done, data, secret, calls, out, true)
    requires StorePush(ref, data, secret, more, m, true)
    ensures HoldsLast(Replay(map[], calls + more), done + {ref}, data, secret)
  {
    hide PushCalls, Complete, PushedIn, Recorded, Outstanding;
    var c := Replay(map[], calls);
    ReplayConcat(map[], calls, more);
    StorePushStaysInStore(ref, data, secret, more, m, true, Loc(ref, ""));
    ReplayPushes(c, more);
    forall r <- done, i: nat | IsLast(data, i)
      ensures Loc(r, data[i].remoteKey) !in Replay(map[], more)
    {
      var loc := Loc(r, data[i].remoteKey);
      ReplayKeys(map[], more, loc);
      StorePushStaysInStore(ref, data, secret, more, m, true, loc);
      OutstandingPushes(more, loc);
    }
  }

  /** A push that failed at some of the stores is a failed push to all of them. */
  lemma PushPhaseWiden(done: set<StoreRef>, stores: set<StoreRef>, data: seq<PushData>, secret: SecretData,
                       calls: Log, out: Synced)
    requires PushPhase(done, data, secret, calls, out, false) && done <= stores
    ensures PushPhase(stores, data, secret, calls, out, false)
  {
    hide Recorded, PushedIn, Complete, StopsAt;
    var last :| StoppedAt(done, data, secret, calls, last);
    assert forall i :: 0 <= i < |calls| ==> PushOf(done, data, secret, calls[i]);
    assert StoppedAt(stores, data, secret, calls, last);
  }

  // ---------------------------------------------------------------- pruning

  /** A prune so far without a rejected call. */
  ghost predicate Pruning(prev: Synced, newMap: Synced, calls: Log, out: Synced) {
    && PruneCalls(prev, newMap, calls, false) && Covers(prev, newMap, calls, out)
    && (forall i :: 0 <= i < |calls| ==> calls[i].Deleted?)
    && forall loc: Loc | ValidRef(loc.store) && Deleted(loc) in calls :: !Recorded(out, loc)
  }

  /** A prune stops where there is no client for a store. */
  lemma PruningStops(prev: Synced, newMap: Synced, calls: Log, out: Synced, todo: set<string>, ref: StoreRef)
    requires PruneProgress(prev, newMap, calls, out, todo) && ValidRef(ref) && StoreKey(ref) in todo
    ensures PrunePhase(prev, newMap, calls + [NoClient(Loc(ref, ""))], out, false)
  {
    hide Recorded, WellKeyed, Within, Settled, Merge;
    var calls' := calls + [NoClient(Loc(ref, ""))];
    assert forall i :: 0 <= i < |calls| ==> calls'[i] == calls[i];
    assert PruneStops(prev, calls', ref);
  }

  /** Nothing stale is left for store `k`. */
  ghost predicate Settled(prev: Synced, newMap: Synced, calls: Log, out: Synced, k: string) {
    && (k in out <==> k in newMap)
    && (k in out ==> out[k].Keys == newMap[k].Keys)
    && forall loc: Loc | ValidRef(loc.store) && StoreKey(loc.store) == k
                         && Recorded(prev, loc) && !Recorded(newMap, loc) :: Deleted(loc) in calls
  }

  /** The stores of `todo` are as merged, all others are settled. */
  ghost predicate PruneProgress(prev: Synced, newMap: Synced, calls: Log, out: Synced, todo: set<string>) {
    && Pruning(prev, newMap, calls, out)
    && (forall k <- todo :: k in out && k in prev && out[k] == Merge(newMap, prev)[k])
    && (forall ref | StoreKey(ref) in todo :: Untouched(calls, ref))
    && (forall k | k !in todo :: Settled(prev, newMap, calls, out, k))
  }

  lemma PruneStarts(prev: Synced, newMap: Synced)
    requires WellKeyed(prev) && WellKeyed(newMap)
    ensures PruneProgress(prev, newMap, [], Merge(newMap, prev), prev.Keys)
  {
    hide Merge, Recorded, WellKeyed;
    MergeWellKeyed(newMap, prev);
    forall loc: Loc {
      MergeRecords(newMap, prev, loc);
    }
    MergeKeys(newMap, prev);
    forall k | k !in prev
      ensures Settled(prev, newMap, [], Merge(newMap, prev), k)
    {
      NothingRecordedFor(prev, k);
    }
  }

  lemma MergeKeys(newMap: Synced, prev: Synced)
    ensures Within(Merge(newMap, prev), Merge(newMap, prev))
    ensures forall k :: k in Merge(newMap, prev) <==> k in newMap || k in prev
    ensures forall k | k in newMap && k !in prev :: Merge(newMap, prev)[k] == newMap[k]
  {
  }

  lemma NothingRecordedFor(m: Synced, k: string)
    requires k !in m
    ensures forall loc: Loc | StoreKey(loc.store) == k :: !Recorded(m, loc)
  {
  }

  lemma PruneEnds(prev: Synced, newMap: Synced, calls: Log, out: Synced)
    requires PruneProgress(prev, newMap, calls, out, {})
    ensures PrunePhase(prev, newMap, calls, out, true)
  {
    forall k: string
      ensures (k in out <==> k in newMap) && (k in out ==> out[k].Keys == newMap[k].Keys)
    {
      assert Settled(prev, newMap, calls, out, k);
    }
    forall loc: Loc | ValidRef(loc.store) && Recorded(prev, loc) && !Recorded(newMap, loc)
      ensures Deleted(loc) in calls
    {
      assert Settled(prev, newMap, calls, out, StoreKey(loc.store));
    }
  }

  /** Calls for the stale entries of one store. */
  ghost predicate StoreDeletes(ref: StoreRef, stale: set<string>, calls: Log, ok: bool) {
    && (forall i :: 0 <= i < |calls| ==>
          && (calls[i].Deleted? || (calls[i].DeleteRejected? && !ok && i == |calls| - 1))
          && calls[i].loc.store == ref && calls[i].loc.key in stale)
    && (if ok then forall e <- stale :: Deleted(Loc(ref, e)) in calls else LastRejected(calls, ref))
  }

  /** One more call for an entry of the store. */
  lemma StoreDeletesSnoc(ref: StoreRef, done: set<string>, calls: Log, e: string, whole: set<string>)
    requires StoreDeletes(ref, done, calls, true) && done + {e} <= whole
    ensures StoreDeletes(ref, done + {e}, calls + [Deleted(Loc(ref, e))], true)
    ensures StoreDeletes(ref, whole, calls + [DeleteRejected(Loc(ref, e))], false)
    ensures DeletedKeys(ref, whole, calls + [DeleteRejected(Loc(ref, e))]) == done
  {
    AllDeleted(ref, done, calls, whole);
    assert forall d: string :: Deleted(Loc(ref, d)) in calls + [DeleteRejected(Loc(ref, e))] <==>
                               Deleted(Loc(ref, d)) in calls;
  }

  lemma AllDeleted(ref: StoreRef, done: set<string>, calls: Log, whole: set<string>)
    requires StoreDeletes(ref, done, calls, true) && done <= whole
    ensures DeletedKeys(ref, whole, calls) == done
  {
  }

  /** The stale entries of a store: recorded before and not wanted now. */
  ghost function Stale(prev: Synced, newMap: Synced, k: string): set<string>
    requires k in prev
  {
    if k in newMap then prev[k].Keys - newMap[k].Keys else prev[k].Keys
  }

  ghost function DeletedKeys(ref: StoreRef, stale: set<string>, calls: Log): set<string> {
    set e <- stale | Deleted(Loc(ref, e)) in calls
  }

  lemma DeletedInConcat(a: Log, b: Log)
    ensures forall loc: Loc :: Deleted(loc) in a + b <==> Deleted(loc) in a || Deleted(loc) in b
  {
  }

  /** Dropping from `out` only what the calls deleted keeps the coverage. */
  lemma PruneShrink(
      prev: Synced, newMap: Synced, calls: Log, out: Synced, ref: StoreRef, more: Log, out': Synced, ok: bool)
    requires ValidRef(ref) && StoreKey(ref) in prev
    requires Pruning(prev, newMap, calls, out)
    requires StoreDeletes(ref, Stale(prev, newMap, StoreKey(ref)), more, ok)
    requires WellKeyed(out')
    requires Within(out', out)
    requires forall loc: Loc | ValidRef(loc.store) && Recorded(out', loc) && Deleted(loc) in more ::
               !ok && StoreKey(ref) !in newMap
    requires forall loc: Loc | ValidRef(loc.store) && Recorded(out, loc) && !Recorded(out', loc) ::
               loc.store == ref && loc.key in Stale(prev, newMap, StoreKey(ref)) && Deleted(loc) in more
    ensures !ok ==> PrunePhase(prev, newMap, calls + more, out', false)
    ensures ok ==> Pruning(prev, newMap, calls + more, out')
  {
    hide PruneCalls, Covers, Recorded, Within, WellKeyed;
    DeletedInConcat(calls, more);
    var calls' := calls + more;
    PruneCallsGrow(prev, newMap, calls, ref, more, ok);
    CoverShrinks(prev, newMap, calls, out, ref, more, out');
    forall loc: Loc {
      WithinRecords(out', out, loc);
    }
    assert !ok ==> calls'[|calls'| - 1] == more[|more| - 1] && PruneStops(prev, calls', ref);
    assert forall loc: Loc | Deleted(loc) in more :: loc.store == ref;
  }

  lemma WithinRecords(m: Synced, of: Synced, loc: Loc)
    requires Within(m, of)
    ensures Recorded(m, loc) ==> Recorded(of, loc)
  {
  }

  lemma PruneCallsGrow(prev: Synced, newMap: Synced, calls: Log, ref: StoreRef, more: Log, ok: bool)
    requires ValidRef(ref) && StoreKey(ref) in prev && PruneCalls(prev, newMap, calls, false)
    requires forall i :: 0 <= i < |calls| ==> calls[i].Deleted?
    requires StoreDeletes(ref, Stale(prev, newMap, StoreKey(ref)), more, ok)
    ensures PruneCalls(prev, newMap, calls + more, ok)
    ensures PruneCalls(prev, newMap, calls + more, false)
  {
    var calls' := calls + more;
    forall i | 0 <= i < |calls'|
      ensures calls'[i].Deleted? || (!ok && i == |calls'| - 1)
      ensures PruneOf(prev, newMap, calls'[i])
    {
      if i >= |calls| {
        assert calls'[i] == more[i - |calls|];
      }
    }
  }

  lemma CoverShrinks(prev: Synced, newMap: Synced, calls: Log, out: Synced, ref: StoreRef, more: Log, out': Synced)
    requires StoreKey(ref) in prev && Covers(prev, newMap, calls, out) && WellKeyed(out') && Within(out', out)
    requires forall loc: Loc | ValidRef(loc.store) && Recorded(out, loc) && !Recorded(out', loc) ::
               loc.store == ref && loc.key in Stale(prev, newMap, StoreKey(ref)) && Deleted(loc) in more
    ensures Covers(prev, newMap, calls + more, out')
  {
    hide WellKeyed, Merge;
    DeletedInConcat(calls, more);
  }

  /** Settling one store leaves the others as they were. */
  lemma PruneSettles(prev: Synced, newMap: Synced, calls: Log, out: Synced, todo: set<string>,
                     ref: StoreRef, more: Log, out': Synced)
    requires ValidRef(ref) && StoreKey(ref) in todo && StoreKey(ref) in prev
    requires PruneProgress(prev, newMap, calls, out, todo)
    requires StoreDeletes(ref, Stale(prev, newMap, StoreKey(ref)), more, true)
    requires Pruning(prev, newMap, calls + more, out')
    requires forall k | k != StoreKey(ref) :: (k in out' <==> k in out) && (k in out ==> out'[k] == out[k])
    requires StoreKey(ref) in out' <==> StoreKey(ref) in newMap
    requires StoreKey(ref) in out' ==> out'[StoreKey(ref)].Keys == newMap[StoreKey(ref)].Keys
    ensures PruneProgress(prev, newMap, calls + more, out', todo - {StoreKey(ref)})
  {
    DeletedInConcat(calls, more);
    forall k | k !in todo - {StoreKey(ref)}
      ensures Settled(prev, newMap, calls + more, out', k)
    {
      if k == StoreKey(ref) {
        forall loc: Loc | ValidRef(loc.store) && StoreKey(loc.store) == k
                          && Recorded(prev, loc) && !Recorded(newMap, loc)
          ensures Deleted(loc) in calls + more
        {
          StoreKeyInjective(loc.store, ref);
          assert loc.key in Stale(prev, newMap, k);
        }
      } else {
        assert Settled(prev, newMap, calls, out, k);
      }
    }
  }

  /** The reference a store key splits back to. */
  function RefOf(k: string): StoreRef
    requires |Split(k)| >= 2
  {
    StoreRef(Split(k)[1], Split(k)[0])
  }

  lemma RefOfStoreKey(m: Synced, k: string)
    requires WellKeyed(m) && k in m
    ensures |Split(k)| >= 2 && ValidRef(RefOf(k)) && StoreKey(RefOf(k)) == k
    ensures forall e <- m[k] :: m[k][e].remoteKey == e
  {
    var ref: StoreRef :| ValidRef(ref) && k == StoreKey(ref);
    SplitStoreKey(ref.kind, ref.name);
  }

  /** A store that is no longer wanted: all its entries are deleted, then it is dropped. */
  lemma PruneWholeStore(prev: Synced, newMap: Synced, calls: Log, out: Synced, todo: set<string>,
                        ref: StoreRef, more: Log, ok: bool)
    requires ValidRef(ref) && StoreKey(ref) in todo && StoreKey(ref) in prev && StoreKey(ref) !in newMap
    requires PruneProgress(prev, newMap, calls, out, todo)
    requires StoreDeletes(ref, prev[StoreKey(ref)].Keys, more, ok)
    ensures !ok ==> PrunePhase(prev, newMap, calls + more, out, false)
    ensures ok ==> PruneProgress(prev, newMap, calls + more, out - {StoreKey(ref)}, todo - {StoreKey(ref)})
  {
    hide PrunePhase, PruneProgress;
    var k := StoreKey(ref);
    ProgressIsPruning(prev, newMap, calls, out, todo, k);
    if ok {
      PruneShrink(prev, newMap, calls, out, ref, more, out - {k}, true) by {
        forall loc: Loc | ValidRef(loc.store) && StoreKey(loc.store) == k { StoreKeyInjective(loc.store, ref); }
      }
      PruneSettles(prev, newMap, calls, out, todo, ref, more, out - {k});
    } else {
      PruneShrink(prev, newMap, calls, out, ref, more, out, false);
    }
  }

  lemma ProgressIsPruning(prev: Synced, newMap: Synced, calls: Log, out: Synced, todo: set<string>, k: string)
    requires PruneProgress(prev, newMap, calls, out, todo) && k in todo
    ensures Pruning(prev, newMap, calls, out) && WellKeyed(out)
    ensures k in out && k in prev && out[k] == Merge(newMap, prev)[k]
  {
  }

  /** Entries dropped from one store's inner map. */
  lemma StoreShrinks(out: Synced, ref: StoreRef, gone: set<string>, out': Synced)
    requires ValidRef(ref) && StoreKey(ref) in out && WellKeyed(out)
    requires out' == out[StoreKey(ref) := out[StoreKey(ref)] - gone]
    ensures WellKeyed(out') && Within(out', out)
    ensures forall loc: Loc | ValidRef(loc.store) ::
              Recorded(out', loc) <==> Recorded(out, loc) && !(loc.store == ref && loc.key in gone)
  {
    forall loc: Loc | ValidRef(loc.store) && StoreKey(loc.store) == StoreKey(ref) {
      StoreKeyInjective(loc.store, ref);
    }
  }

  /** A store that is still wanted: its stale entries are deleted one by one. */
  lemma PruneStaleEntries(prev: Synced, newMap: Synced, calls: Log, out: Synced, todo: set<string>,
                          ref: StoreRef, more: Log, ok: bool, out': Synced)
    requires ValidRef(ref) && StoreKey(ref) in todo && StoreKey(ref) in prev && StoreKey(ref) in newMap
    requires PruneProgress(prev, newMap, calls, out, todo)
    requires StoreDeletes(ref, Stale(prev, newMap, StoreKey(ref)), more, ok)
    requires StoreKey(ref) in out
    requires out' ==
             out[StoreKey(ref) := out[StoreKey(ref)] - DeletedKeys(ref, Stale(prev, newMap, StoreKey(ref)), more)]
    ensures !ok ==> PrunePhase(prev, newMap, calls + more, out', false)
    ensures ok ==> PruneProgress(prev, newMap, calls + more, out', todo - {StoreKey(ref)})
  {
    hide PrunePhase, PruneProgress, Pruning, LastRejected, WellKeyed, Within, Recorded;
    var k := StoreKey(ref);
    ProgressIsPruning(prev, newMap, calls, out, todo, k);
    StoreShrinks(out, ref, DeletedKeys(ref, Stale(prev, newMap, k), more), out');
    PruneShrink(prev, newMap, calls, out, ref, more, out', ok);
    if ok {
      PruneSettles(prev, newMap, calls, out, todo, ref, more, out');
    }
  }
}
