/**
  The PushSecret reconciler as it runs: nested Go maps are objects, provider and API
  calls may fail at any point. `Reconciler.Reconcile` refines PushSpec.ReconcileStep.
 */
module PushSecret {
  import opened Common
  import opened PushSpec
  import opened PushPhases

  // ---------------------------------------------------------------- nested maps

  /** One inner map of a SyncedPushSecretsMap; shared by whoever holds a reference to it. */
  class Entries {
    var m: map<string, PushData>

    constructor (m: map<string, PushData>)
      ensures this.m == m
    {
      this.m := m;
    }
  }

  type SyncedRefs = map<string, Entries>

  /** No two store keys share an inner map. */
  ghost predicate Separate(s: SyncedRefs) {
    forall k <- s, l <- s :: k != l ==> s[k] != s[l]
  }

  /** `out` is an object graph for the value `m`. */
  ghost predicate Holds(out: SyncedRefs, m: Synced)
    reads out.Values
  {
    && (forall k :: k in out <==> k in m)
    && (forall k <- out :: out[k].m == m[k])
    && Separate(out)
  }

  /** Reading a map from the API server: all inner maps are new. */
  method Load(m: Synced) returns (out: SyncedRefs)
    ensures Holds(out, m) && forall k <- out :: fresh(out[k])
  {
    out := map[];
    var todo := m.Keys;
    while todo != {}
      invariant todo <= m.Keys
      invariant (forall k <- out :: fresh(out[k])) && Separate(out)
      invariant out.Keys == m.Keys - todo
      invariant forall k <- out :: out[k].m == m[k]
      decreases todo
    {
      var k :| k in todo;
      todo := todo - {k};
      var e := new Entries(m[k]);
      ghost var before := out.Values;
      assert e !in before;
      assert forall l <- out :: out[l] in before;
      out := out[k := e];
      assert out.Values <= before + {e};
    }
  }

  method DeepCopy(s: SyncedRefs, ghost m: Synced) returns (out: SyncedRefs)
    requires Holds(s, m)
    ensures Holds(out, m) && forall k <- out :: fresh(out[k])
  {
    var value := map k <- s :: s[k].m;
    assert value == m;
    out := Load(value);
  }

  method MergeEntries(dst: Entries, src: Entries)
    requires dst != src
    modifies dst
    ensures dst.m == old(dst.m) + src.m
  {
    var todo := src.m.Keys;
    while todo != {}
      invariant todo <= src.m.Keys
      invariant src.m == old(src.m)
      invariant dst.m == old(dst.m) + map e <- src.m.Keys - todo :: src.m[e]
      decreases todo
    {
      var e :| e in todo;
      todo := todo - {e};
      dst.m := dst.m[e := src.m[e]];
    }
  }

  /** Adds the entries of `src` to the inner map of `k`, making one if there is none. */
  method MergeStore(out: SyncedRefs, k: string, src: Entries, ghost cur: Synced)
    returns (out': SyncedRefs, ghost cur': Synced)
    requires Holds(out, cur) && forall l <- out :: out[l] != src
    modifies if k in out then {out[k]} else {}
    ensures cur' == cur[k := (if k in cur then cur[k] else map[]) + old(src.m)]
    ensures Holds(out', cur')
    ensures forall l <- out' :: fresh(out'[l]) || (l in out && out'[l] == out[l])
  {
    out' := out;
    if k !in out {
      var e := new Entries(map[]);
      out' := out[k := e];
    }
    MergeEntries(out'[k], src);
    cur' := cur[k := out'[k].m];
  }

  /** Merging in one store now or later gives the same map. */
  lemma MergeOneStore(cur: Synced, rest: Synced, k: string)
    requires k in rest
    ensures Merge(cur[k := (if k in cur then cur[k] else map[]) + rest[k]], rest - {k}) == Merge(cur, rest)
  {
    assert map[] + rest[k] == rest[k];
  }

  lemma MergeNothing(cur: Synced)
    ensures Merge(cur, map[]) == cur
  {
  }

  /** Merges every store of `prev` into `out`, whose inner maps are not those of `prev`. */
  method MergeStores(start: SyncedRefs, prev: SyncedRefs, ghost m: Synced, ghost was: Synced)
    returns (out: SyncedRefs)
    requires Holds(start, m) && Holds(prev, was)
    requires forall k <- start, l <- prev :: start[k] != prev[l]
    modifies start.Values
    ensures Holds(out, Merge(m, was))
    ensures forall k <- out :: fresh(out[k]) || (k in start && out[k] == start[k])
  {
    out := start;
    ghost var cur, rest, goal := m, was, Merge(m, was);
    var todo := prev.Keys;
    while todo != {}
      invariant todo <= prev.Keys
      invariant forall k :: k in rest <==> k in todo
      invariant forall k <- rest :: rest[k] == old(prev[k].m)
      invariant forall k <- out :: fresh(out[k]) || (k in start && out[k] == start[k])
      invariant Holds(out, cur) && Merge(cur, rest) == goal
      decreases todo
    {
      var k :| k in todo;
      MergeOneStore(cur, rest, k);
      assert prev[k].m == rest[k];
      todo, rest := todo - {k}, rest - {k};
      out, cur := MergeStore(out, k, prev[k], cur);
    }
    assert rest == map[];
    MergeNothing(cur);
  }

  /** The merged map shares no inner map with either argument. */
  method MergeSecretState(newMap: SyncedRefs, prev: SyncedRefs, ghost m: Synced, ghost was: Synced)
    returns (out: SyncedRefs)
    requires Holds(newMap, m) && Holds(prev, was)
    ensures Holds(out, Merge(m, was)) && forall k <- out :: fresh(out[k])
  {
    out := DeepCopy(newMap, m);
    assert forall e <- out.Values :: fresh(e);
    out := MergeStores(out, prev, m, was);
  }

  // ---------------------------------------------------------------- the provider

  /** All the stores' backends. Any call may fail, and a failed call changes nothing. */
  class Provider {
    var contents: Contents
    ghost var log: Log

    constructor (contents: Contents)
      ensures this.contents == contents && log == []
    {
      this.contents, log := contents, [];
    }

    method Push(loc: Loc, value: Bytes) returns (ok: bool)
      modifies this
      ensures log == old(log) + [if ok then Pushed(loc, value) else PushRejected(loc, value)]
      ensures contents == Replay(old(contents), [if ok then Pushed(loc, value) else PushRejected(loc, value)])
    {
      ok := *;
      if ok {
        contents := contents[loc := value];
      }
      log := log + [if ok then Pushed(loc, value) else PushRejected(loc, value)];
    }

    method Delete(loc: Loc) returns (ok: bool)
      modifies this
      ensures log == old(log) + [if ok then Deleted(loc) else DeleteRejected(loc)]
      ensures contents == Replay(old(contents), [if ok then Deleted(loc) else DeleteRejected(loc)])
    {
      ok := *;
      if ok {
        contents := contents - {loc};
      }
      log := log + [if ok then Deleted(loc) else DeleteRejected(loc)];
    }

    /** mgr.Get: whether a client could be had. */
    method GetClient(ref: StoreRef) returns (ok: bool)
      modifies this`log
      ensures Grew(old(log), old(contents), if ok then [] else [NoClient(Loc(ref, ""))])
    {
      ok := *;
      log := log + if ok then [] else [NoClient(Loc(ref, ""))];
    }

    /** The log grew by `calls` since it was `log0`, and the contents with it. */
    ghost predicate Grew(log0: Log, contents0: Contents, calls: Log)
      reads this
    {
      log == log0 + calls && contents == Replay(contents0, calls)
    }
  }

  lemma Grows(log0: Log, c0: Contents, calls: Log, more: Log)
    ensures log0 + calls + more == log0 + (calls + more)
    ensures Replay(Replay(c0, calls), more) == Replay(c0, calls + more)
  {
    hide Replay;
    ReplayConcat(c0, calls, more);
  }

  // ---------------------------------------------------------------- pushing

  /** The inner loop of PushSecretToProviders: one store. */
  method PushToStore(p: Provider, ref: StoreRef, data: seq<PushData>, secret: SecretData, entries: Entries)
    returns (ok: bool, ghost calls: Log)
    requires entries.m == map[]
    modifies p, entries
    ensures p.Grew(old(p.log), old(p.contents), calls)
    ensures StorePush(ref, data, secret, calls, entries.m, ok)
  {
    hide StorePush;
    calls := [];
    StorePushStart(ref, secret);
    ok := p.GetClient(ref);
    if !ok {
      StorePushNoClient(ref, data, secret);
      return false, [NoClient(Loc(ref, ""))];
    }
    var i := 0;
    while i < |data|
      invariant 0 <= i <= |data|
      invariant p.Grew(old(p.log), old(p.contents), calls)
      invariant StorePush(ref, data[..i], secret, calls, entries.m, true)
    {
      var d := data[i];
      if d.secretKey !in secret {
        StorePushStops(ref, data[..i], secret, calls, entries.m, data);
        return false, calls;
      }
      var loc := Loc(ref, d.remoteKey);
      ok := p.Push(loc, secret[d.secretKey]);
      ghost var call := if ok then Pushed(loc, secret[d.secretKey]) else PushRejected(loc, secret[d.secretKey]);
      Grows(old(p.log), old(p.contents), calls, [call]);
      if !ok {
        StorePushRejected(ref, data[..i], secret, calls, entries.m, data);
        return false, calls + [call];
      }
      StorePushSnoc(ref, data[..i], secret, calls, entries.m, d);
      assert data[..i + 1] == data[..i] + [d];
      calls := calls + [call];
      entries.m := entries.m[d.remoteKey := d];
      i := i + 1;
    }
    assert data[..i] == data;
  }

  /** The body of the outer loop of PushSecretToProviders: a new inner map, filled by the pushes. */
  method PushToNextStore(p: Provider, ref: StoreRef, data: seq<PushData>, secret: SecretData, out: SyncedRefs,
                         ghost m: Synced)
    returns (out': SyncedRefs, ok: bool, ghost pushed: map<string, PushData>, ghost calls: Log)
    requires Holds(out, m)
    modifies p
    ensures p.Grew(old(p.log), old(p.contents), calls)
    ensures StorePush(ref, data, secret, calls, pushed, ok)
    ensures Holds(out', m[StoreKey(ref) := pushed])
    ensures forall k <- out' :: fresh(out'[k]) || (k in out && out'[k] == out[k])
  {
    hide StorePush, StoreKey;
    var entries := new Entries(map[]);
    ok, calls := PushToStore(p, ref, data, secret, entries);
    out', pushed := out[StoreKey(ref) := entries], entries.m;
  }

  method PushSecretToProviders(p: Provider, stores: set<StoreRef>, data: seq<PushData>, secret: SecretData)
    returns (out: SyncedRefs, ok: bool, ghost m: Synced, ghost calls: Log)
    requires forall ref <- stores :: ValidRef(ref)
    modifies p
    ensures p.Grew(old(p.log), old(p.contents), calls)
    ensures PushPhase(stores, data, secret, calls, m, ok)
    ensures Holds(out, m) && forall k <- out :: fresh(out[k])
  {
    hide PushPhase, StorePush, ValidRef, StoreKey;
    out, m, calls, ok := map[], map[], [], true;
    PushPhaseStart(data, secret);
    var todo := stores;
    assert stores - todo == {};
    while todo != {}
      invariant todo <= stores
      invariant p.Grew(old(p.log), old(p.contents), calls)
      invariant PushPhase(stores - todo, data, secret, calls, m, true)
      invariant Holds(out, m) && forall k <- out :: fresh(out[k])
      decreases todo
    {
      var ref :| ref in todo;
      ghost var done := stores - todo;
      todo := todo - {ref};
      assert stores - todo == done + {ref};
      ghost var more: Log, pushed: map<string, PushData>;
      out, ok, pushed, more := PushToNextStore(p, ref, data, secret, out, m);
      Grows(old(p.log), old(p.contents), calls, more);
      PushPhaseAddStore(done, ref, data, secret, calls, m, more, pushed, ok);
      m, calls := m[StoreKey(ref) := pushed], calls + more;
      if !ok {
        PushPhaseWiden(done + {ref}, stores, data, secret, calls, m);
        return;
      }
    }
    assert stores - todo == stores;
  }

  // ---------------------------------------------------------------- pruning

  method DeleteAllSecretsFromStore(p: Provider, ref: StoreRef, data: map<string, PushData>)
    returns (ok: bool, ghost calls: Log)
    requires forall e <- data :: data[e].remoteKey == e
    modifies p
    ensures p.Grew(old(p.log), old(p.contents), calls)
    ensures StoreDeletes(ref, data.Keys, calls, ok)
  {
    hide StoreDeletes, DeletedKeys;
    ok, calls := true, [];
    var todo := data.Keys;
    NoDeletes(ref);
    assert data.Keys - todo == {};
    while todo != {}
      invariant todo <= data.Keys
      invariant p.Grew(old(p.log), old(p.contents), calls)
      invariant StoreDeletes(ref, data.Keys - todo, calls, true)
      decreases todo
    {
      var e :| e in todo;
      StoreDeletesSnoc(ref, data.Keys - todo, calls, e, data.Keys);
      assert data.Keys - (todo - {e}) == data.Keys - todo + {e};
      todo := todo - {e};
      var loc := Loc(ref, data[e].remoteKey);
      ok := p.Delete(loc);
      ghost var call := if ok then Deleted(loc) else DeleteRejected(loc);
      Grows(old(p.log), old(p.contents), calls, [call]);
      calls := calls + [call];
      if !ok {
        return;
      }
    }
    assert data.Keys - todo == data.Keys;
    ok := true;
  }

  lemma NoDeletes(ref: StoreRef)
    ensures StoreDeletes(ref, {}, [], true)
  {
  }

  /** The inner loop of DeleteSecretFromProviders: `entries` loses exactly what was deleted. */
  method PruneStore(
      p: Provider, ref: StoreRef, entries: Entries, prev: map<string, PushData>, kept: map<string, PushData>)
    returns (ok: bool, ghost calls: Log)
    requires forall e <- prev :: prev[e].remoteKey == e
    modifies p, entries
    ensures p.Grew(old(p.log), old(p.contents), calls)
    ensures StoreDeletes(ref, prev.Keys - kept.Keys, calls, ok)
    ensures entries.m == old(entries.m) - DeletedKeys(ref, prev.Keys - kept.Keys, calls)
  {
    hide StoreDeletes, DeletedKeys;
    ok, calls := true, [];
    var todo := prev.Keys;
    ghost var stale, done := prev.Keys - kept.Keys, {};
    NoDeletes(ref);
    while todo != {}
      invariant todo <= prev.Keys && done == stale - todo
      invariant p.Grew(old(p.log), old(p.contents), calls)
      invariant StoreDeletes(ref, done, calls, true)
      invariant entries.m == old(entries.m) - done
      decreases todo
    {
      var e :| e in todo;
      todo := todo - {e};
      if e !in kept {
        StoreDeletesSnoc(ref, done, calls, e, stale);
        var loc := Loc(ref, prev[e].remoteKey);
        ok := p.Delete(loc);
        ghost var call := if ok then Deleted(loc) else DeleteRejected(loc);
        Grows(old(p.log), old(p.contents), calls, [call]);
        calls := calls + [call];
        if !ok {
          return;
        }
        entries.m := entries.m - {prev[e].remoteKey};
        done := done + {e};
      }
    }
    assert done == stale;
    AllDeleted(ref, done, calls, stale);
    ok := true;
  }

  /**
    Deletes what `prev` records and `newMap` does not, and returns the merged map less what was
    deleted: on every exit it covers `newMap` and everything not yet deleted.
   */
  method DeleteSecretFromProviders(
      p: Provider, prev: SyncedRefs, newMap: SyncedRefs, ghost was: Synced, ghost m: Synced)
    returns (out: SyncedRefs, ok: bool, ghost left: Synced, ghost calls: Log)
    requires Holds(prev, was) && Holds(newMap, m) && WellKeyed(was) && WellKeyed(m)
    modifies p
    ensures p.Grew(old(p.log), old(p.contents), calls)
    ensures PrunePhase(was, m, calls, left, ok)
    ensures Holds(out, left) && forall k <- out :: fresh(out[k])
  {
    hide PrunePhase, Pruning, PruneProgress, Merge, WellKeyed;
    out := MergeSecretState(newMap, prev, m, was);
    left, calls, ok := Merge(m, was), [], true;
    PruneStarts(was, m);
    var todo := prev.Keys;
    assert todo == was.Keys;
    while todo != {}
      invariant todo <= prev.Keys
      invariant p.Grew(old(p.log), old(p.contents), calls)
      invariant PruneProgress(was, m, calls, left, todo)
      invariant Holds(out, left) && forall k <- out :: fresh(out[k])
      decreases todo
    {
      var k :| k in todo;
      ghost var more: Log;
      out, ok, left, more := PruneOneStore(p, k, out, prev[k].m, newMap, was, m, left, calls, todo);
      Grows(old(p.log), old(p.contents), calls, more);
      todo, calls := todo - {k}, calls + more;
      if !ok {
        return;
      }
    }
    PruneEnds(was, m, calls, left);
  }

  /** The body of the outer loop of DeleteSecretFromProviders. */
  method PruneOneStore(p: Provider, k: string, out: SyncedRefs, prevData: map<string, PushData>, newMap: SyncedRefs,
                       ghost was: Synced, ghost m: Synced, ghost cur: Synced, ghost calls: Log, ghost todo: set<string>)
    returns (out': SyncedRefs, ok: bool, ghost cur': Synced, ghost more: Log)
    requires WellKeyed(was) && k in was && was[k] == prevData && k in todo
    requires PruneProgress(was, m, calls, cur, todo)
    requires Holds(newMap, m) && Holds(out, cur) && forall l <- out, n <- newMap :: out[l] != newMap[n]
    modifies p, out.Values
    ensures p.Grew(old(p.log), old(p.contents), more)
    ensures Holds(out', cur') && forall l <- out' :: l in out && out'[l] == out[l]
    ensures ok ==> PruneProgress(was, m, calls + more, cur', todo - {k})
    ensures !ok ==> PrunePhase(was, m, calls + more, cur', false)
  {
    hide PrunePhase, Pruning, PruneProgress, StoreDeletes, WellKeyed, ValidRef, Split, StoreKey, DeletedKeys, Merge;
    out', cur', more := out, cur, [];
    ProgressIsPruning(was, m, calls, cur, todo, k);
    RefOfStoreKey(was, k);
    var ref := RefOf(k);
    ok := p.GetClient(ref);
    if !ok {
      more := [NoClient(Loc(ref, ""))];
      PruningStops(was, m, calls, cur, todo, ref);
      return;
    }
    if k !in newMap {
      ok, more := DeleteAllSecretsFromStore(p, ref, prevData);
      PruneWholeStore(was, m, calls, cur, todo, ref, more, ok);
      if ok {
        out', cur' := out - {k}, cur - {k};
      }
    } else {
      assert out[k] in out.Values;
      ok, more := PruneStore(p, ref, out[k], prevData, newMap[k].m);
      cur' := cur[k := out[k].m];
      PruneStaleEntries(was, m, calls, cur, todo, ref, more, ok, cur');
    }
  }

  // ---------------------------------------------------------------- the reconciler

  /** The PushSecret as the API server holds it, with what its spec resolves to. */
  class Resource {
    var alive: bool
    var deleting: bool
    var finalizer: bool
    var foreignFinalizer: bool
    var spec: Spec
    var status: Synced

    constructor (spec: Spec, foreignFinalizer: bool)
      ensures alive && !deleting && !finalizer && status == map[]
      ensures this.spec == spec && this.foreignFinalizer == foreignFinalizer
    {
      alive, deleting, finalizer, status := true, false, false, map[];
      this.spec, this.foreignFinalizer := spec, foreignFinalizer;
    }
  }

  ghost function StateOf(ps: Resource, p: Provider): State
    reads ps, p
  {
    State(ps.alive, ps.deleting, ps.finalizer, ps.foreignFinalizer, ps.spec, ps.status, p.contents, p.log)
  }

  method Snapshot(s: SyncedRefs, ghost m: Synced) returns (value: Synced)
    requires Holds(s, m)
    ensures value == m
  {
    value := map k <- s :: s[k].m;
  }

  /** `readable` says whether the Secret and the stores can be read, `updatable` whether the object can be updated. */
  method Reconcile(ps: Resource, p: Provider, readable: bool, updatable: bool) returns (outcome: Outcome)
    requires ValidSpec(ps.spec) && WellKeyed(ps.status)
    modifies ps, p
    ensures ReconcileStep(old(StateOf(ps, p)), StateOf(ps, p), outcome)
    ensures ApiAnswered(outcome, readable, updatable)
  {
    if !ps.alive {
      return NotFound;
    }
    if ps.spec.policy.Delete? {
      if !ps.deleting {
        if !ps.finalizer {
          if !updatable {
            return FinalizerUpdateFailed;
          }
          ps.finalizer := true;
          return FinalizerAdded;
        }
      } else if ps.finalizer {
        outcome := Cleanup(ps, p, updatable);
        return;
      }
    }
    outcome := PushAndPrune(ps, p, readable);
  }

  /** Which outcomes the API server's answers allow. */
  predicate ApiAnswered(outcome: Outcome, readable: bool, updatable: bool) {
    && (outcome.ReadFailed? ==> !readable)
    && (outcome.PushFailed? || outcome.PruneFailed? || outcome.SyncDone? ==> readable)
    && (outcome.FinalizerUpdateFailed? ==> !updatable)
    && (outcome.FinalizerAdded? || outcome.CleanupDone? ==> updatable)
  }

  /** The branch for an object being deleted: prune everything, then let go of the object. */
  method Cleanup(ps: Resource, p: Provider, updatable: bool) returns (outcome: Outcome)
    requires ValidSpec(ps.spec) && WellKeyed(ps.status)
    requires ps.alive && CleansUp(StateOf(ps, p))
    modifies ps, p
    ensures ReconcileStep(old(StateOf(ps, p)), StateOf(ps, p), outcome)
    ensures outcome.CleanupFailed? || outcome == if updatable then CleanupDone else FinalizerUpdateFailed
  {
    hide PrunePhase, WellKeyed, Replay;
    var status := Load(ps.status);
    var left, ok; ghost var m, calls;
    EmptyWellKeyed();
    left, ok, m, calls := DeleteSecretFromProviders(p, status, map[], ps.status, map[]);
    assert p.log[|old(p.log)|..] == calls;
    if !ok {
      ps.status := Snapshot(left, m);
      return CleanupFailed;
    }
    if !updatable {
      return FinalizerUpdateFailed;
    }
    ps.finalizer := false;
    ps.alive := ps.foreignFinalizer;
    return CleanupDone;
  }

  lemma EmptyWellKeyed()
    ensures WellKeyed(map[])
  {
  }

  lemma ReadFailedStep(s: State)
    requires s.alive && Pushes(s)
    ensures ReconcileStep(s, s, ReadFailed)
  {
  }

  lemma PushFailedStep(s: State, s': State, calls: Log, synced: Synced)
    requires s.alive && Pushes(s) && PushFailedThen(s, s', calls, synced)
    ensures ReconcileStep(s, s', PushFailed)
  {
  }

  lemma PruneFailedStep(s: State, s': State, pushes: Log, prunes: Log)
    requires s.alive && Pushes(s) && s.spec.policy.Delete? && PruneThen(s, s', pushes, prunes, s'.status, false)
    ensures ReconcileStep(s, s', PruneFailed)
  {
  }

  lemma SyncDoneStep(s: State, s': State, pushes: Log, prunes: Log, out: Synced)
    requires s.alive && Pushes(s) && PruneThen(s, s', pushes, prunes, out, true)
    requires s.spec.policy.Keep? ==> prunes == []
    requires s'.status == Wanted(s.spec.stores, s.spec.data)
    ensures ReconcileStep(s, s', SyncDone)
  {
  }

  /** The branch that pushes, and under policy Delete prunes what is no longer wanted. */
  method PushAndPrune(ps: Resource, p: Provider, readable: bool) returns (outcome: Outcome)
    requires ValidSpec(ps.spec) && WellKeyed(ps.status)
    requires ps.alive && Pushes(StateOf(ps, p))
    modifies ps, p
    ensures ReconcileStep(old(StateOf(ps, p)), StateOf(ps, p), outcome)
    ensures if readable then outcome in {PushFailed, PruneFailed, SyncDone} else outcome == ReadFailed
  {
    hide PrunePhase, PushPhase, WellKeyed, Replay, Wanted, Merge, ReconcileStep;
    ghost var s := StateOf(ps, p);
    if !readable {
      ReadFailedStep(s);
      return ReadFailed;
    }
    var synced, ok; ghost var m, pushes;
    synced, ok, m, pushes := PushSecretToProviders(p, ps.spec.stores, ps.spec.data, ps.spec.secret);
    if !ok {
      var status := Load(ps.status);
      var total := MergeSecretState(synced, status, m, ps.status);
      ps.status := Snapshot(total, Merge(m, ps.status));
      PushFailedStep(s, StateOf(ps, p), pushes, m);
      return PushFailed;
    }
    PushedIsWanted(ps.spec, pushes, m);
    if ps.spec.policy.Delete? {
      var status := Load(ps.status);
      var left; ghost var l, prunes;
      left, ok, l, prunes := DeleteSecretFromProviders(p, status, synced, ps.status, m);
      Grows(s.log, s.contents, pushes, prunes);
      if !ok {
        ps.status := Snapshot(left, l);
        PruneFailedStep(s, StateOf(ps, p), pushes, prunes);
        return PruneFailed;
      }
      ps.status := Snapshot(synced, m);
      SyncDoneStep(s, StateOf(ps, p), pushes, prunes, l);
      return SyncDone;
    }
    ps.status := Snapshot(synced, m);
    assert pushes + [] == pushes;
    SyncDoneStep(s, StateOf(ps, p), pushes, [], m);
    return SyncDone;
  }

  lemma PushedIsWanted(spec: Spec, calls: Log, m: Synced)
    requires PushPhase(spec.stores, spec.data, spec.secret, calls, m, true)
    ensures m == Wanted(spec.stores, spec.data) && WellKeyed(m)
  {
  }
}
