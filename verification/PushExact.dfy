/** Exactly when a reconcile can lose the finalizer's protection, or a lost status patch orphans an entry. */
module PushExact {
  import opened Common
  import opened PushSpec
  import opened PushRuns
  import opened PushPhases

  /** The calls that push the first `n` entries to a store. */
  lemma {:induction false} PushPrefix(ref: StoreRef, data: seq<PushData>, secret: SecretData, n: nat)
    returns (calls: Log, m: map<string, PushData>)
    requires n <= |data| && forall j :: 0 <= j < n ==> data[j].secretKey in secret
    ensures StorePush(ref, data[..n], secret, calls, m, true)
  {
    hide StorePush;
    if n == 0 {
      calls, m := [], map[];
      StorePushStart(ref, secret);
    } else {
      calls, m := PushPrefix(ref, data, secret, n - 1);
      var d := data[n - 1];
      StorePushSnoc(ref, data[..n - 1], secret, calls, m, d);
      assert data[..n] == data[..n - 1] + [d];
      calls, m := calls + [Pushed(Loc(ref, d.remoteKey), secret[d.secretKey])], m[d.remoteKey := d];
    }
  }

  lemma PrefixPushed(ref: StoreRef, data: seq<PushData>, secret: SecretData, calls: Log,
                     m: map<string, PushData>, i: nat)
    requires i < |data| && StorePush(ref, data[..i + 1], secret, calls, m, true)
    ensures PushedIn(calls, Loc(ref, data[i].remoteKey))
  {
    ByRemoteKeyNames(data[..i + 1], data[i].remoteKey);
    assert data[..i + 1][i] == data[i];
  }

  /**
    Pushing entry `i` to a store, and then stopping at the next entry: its push is rejected, or it
    has no value. If there is no next entry the store is done.
   */
  lemma PushUpTo(ref: StoreRef, data: seq<PushData>, secret: SecretData, i: nat)
    returns (calls: Log, m: map<string, PushData>, ok: bool)
    requires Reached(data, secret, i)
    ensures StorePush(ref, data, secret, calls, m, ok) && PushedIn(calls, Loc(ref, data[i].remoteKey))
    ensures OnlyPushes(calls)
  {
    hide StorePush, PushedIn;
    var n := i + 1;
    var loc := Loc(ref, data[i].remoteKey);
    calls, m := PushPrefix(ref, data, secret, n);
    PrefixPushed(ref, data, secret, calls, m, i);
    if n == |data| {
      ok := true;
      assert data[..n] == data;
    } else {
      ok := false;
      var next := data[n];
      if next.secretKey in secret {
        StorePushRejected(ref, data[..n], secret, calls, m, data);
        var call := PushRejected(Loc(ref, next.remoteKey), secret[next.secretKey]);
        PushedInConcat(calls, [call], loc);
        calls := calls + [call];
      } else {
        assert next in data;
        StorePushStops(ref, data[..n], secret, calls, m, data);
      }
    }
    StorePushStaysInStore(ref, data, secret, calls, m, ok, loc);
  }

  /** The push phase that reaches entry `i` at store `ref` first; it is done if there is nothing else to push. */
  lemma ReachFirst(spec: Spec, ref: StoreRef, i: nat) returns (calls: Log, out: Synced, ok: bool)
    requires ValidSpec(spec) && ref in spec.stores && Reached(spec.data, spec.secret, i)
    ensures PushPhase(spec.stores, spec.data, spec.secret, calls, out, ok)
    ensures PushedIn(calls, Loc(ref, spec.data[i].remoteKey)) && OnlyPushes(calls)
  {
    hide PushPhase, StorePush, PushedIn;
    var m;
    calls, m, ok := PushUpTo(ref, spec.data, spec.secret, i);
    PushPhaseStart(spec.data, spec.secret);
    PushPhaseAddStore({}, ref, spec.data, spec.secret, [], map[], calls, m, ok);
    out := map[StoreKey(ref) := m];
    assert [] + calls == calls && {} + {ref} == {ref};
    if !ok {
      PushPhaseWiden({ref}, spec.stores, spec.data, spec.secret, calls, out);
    } else if other :| other in spec.stores && other != ref {
      ok := false;
      var none := [NoClient(Loc(other, ""))];
      StorePushNoClient(other, spec.data, spec.secret);
      PushPhaseAddStore({ref}, other, spec.data, spec.secret, calls, out, none, map[], false);
      PushedInConcat(calls, none, Loc(ref, spec.data[i].remoteKey));
      calls, out := calls + none, out[StoreKey(other) := map[]];
      PushPhaseWiden({ref} + {other}, spec.stores, spec.data, spec.secret, calls, out);
    } else {
      assert spec.stores == {ref};
    }
  }

  /** A prune that fails at once, for want of a client. */
  lemma NoPruneClient(prev: Synced, newMap: Synced) returns (calls: Log)
    requires WellKeyed(prev) && WellKeyed(newMap) && prev != map[]
    ensures PrunePhase(prev, newMap, calls, Merge(newMap, prev), false)
    ensures forall i :: 0 <= i < |calls| ==> calls[i].NoClient?
  {
    hide PrunePhase, PruneProgress, Split;
    var k :| k in prev;
    RefOfStoreKey(prev, k);
    PruneStarts(prev, newMap);
    PruningStops(prev, newMap, [], Merge(newMap, prev), prev.Keys, RefOf(k));
    calls := [] + [NoClient(Loc(RefOf(k), ""))];
  }

  lemma {:induction false} ReplayNothing(c: Contents, log: Log)
    requires forall i :: 0 <= i < |log| ==> log[i].NoClient?
    ensures Replay(c, log) == c
  {
    if log != [] {
      ReplayNothing(c, log[..|log| - 1]);
    }
  }

  /** From a state that pushes, some reconcile pushes any reachable target and leaves it there. */
  lemma ReachStep(s: State, loc: Loc) returns (s': State, outcome: Outcome)
    requires ValidSpec(s.spec) && s.spec.policy.Delete? && WellKeyed(s.status) && Asked(s, loc)
    ensures ReconcileStep(s, s', outcome) && Outstanding(s'.log, loc) && s'.finalizer == s.finalizer
  {
    hide PushPhase, PrunePhase, PushedIn, Outstanding, Wanted, Merge, WellKeyed, ValidRef;
    var spec := s.spec;
    var i :| Reached(spec.data, spec.secret, i) && spec.data[i].remoteKey == loc.key;
    var calls, out, ok := ReachFirst(spec, loc.store, i);
    OutstandingPushes(calls, loc);
    OutstandingConcat(s.log, calls, loc);
    s' := s.(log := s.log + calls, contents := Replay(s.contents, calls));
    if !ok {
      outcome := PushFailed;
      s' := s'.(status := Merge(out, s.status));
      assert PushFailedThen(s, s', calls, out);
    } else {
      PhaseIsWanted(spec, calls, out);
      assert calls + [] == calls;
      if s.status == map[] {
        outcome := SyncDone;
        s' := s'.(status := out);
        NothingStale(s.status, out);
        assert PruneThen(s, s', calls, [], out, true);
      } else {
        outcome := PruneFailed;
        s' := s'.(status := Merge(out, s.status));
        var prunes := NoPruneClient(s.status, out);
        ReplayNothing(s'.contents, prunes);
        ReplayConcat(s.contents, calls, prunes);
        OutstandingConcat(s'.log, prunes, loc);
        s' := s'.(log := s.log + (calls + prunes));
        assert s.log + calls + prunes == s.log + (calls + prunes);
        assert PruneThen(s, s', calls, prunes, s'.status, false);
      }
    }
  }

  lemma PhaseIsWanted(spec: Spec, calls: Log, out: Synced)
    requires PushPhase(spec.stores, spec.data, spec.secret, calls, out, true)
    ensures out == Wanted(spec.stores, spec.data) && WellKeyed(out)
  {
  }

  // ---------------------------------------------------------------- the exact conditions

  ghost predicate FirstHasValue(data: seq<PushData>, secret: SecretData) {
    data != [] && data[0].secretKey in secret
  }

  ghost predicate AlwaysProtected(s: State) {
    forall s', outcome | ReconcileStep(s, s', outcome) :: Protected(s')
  }

  /** Over all outcomes: a protected state stays so unless it is unguarded and a first push can be made. */
  lemma ProtectionLostExactly(s: State)
    requires NoOrphan(s) && ValidSpec(s.spec) && s.spec.policy.Delete? && Protected(s)
    ensures AlwaysProtected(s) <==>
            !Unguarded(s) || s.spec.stores == {} || !FirstHasValue(s.spec.data, s.spec.secret)
  {
    hide ReconcileStep, Outstanding;
    if !Unguarded(s) || s.spec.stores == {} || !FirstHasValue(s.spec.data, s.spec.secret) {
      forall s', outcome | ReconcileStep(s, s', outcome)
        ensures Protected(s')
      {
        StaysProtected(s, s', outcome);
      }
    } else {
      var ref :| ref in s.spec.stores;
      var loc := Loc(ref, s.spec.data[0].remoteKey);
      assert Reached(s.spec.data, s.spec.secret, 0);
      var s', outcome := ReachStep(s, loc);
    }
  }

  lemma StaysProtected(s: State, s': State, outcome: Outcome)
    requires NoOrphan(s) && ValidSpec(s.spec) && s.spec.policy.Delete? && Protected(s)
    requires ReconcileStep(s, s', outcome)
    requires !Unguarded(s) || s.spec.stores == {} || !FirstHasValue(s.spec.data, s.spec.secret)
    ensures Protected(s')
  {
    hide ReconcileStep, Outstanding;
    if !Unguarded(s) {
      ReconcileKeepsProtection(s, s', outcome);
    } else {
      forall loc: Loc
        ensures !Outstanding(s'.log, loc)
      {
        if Outstanding(s'.log, loc) {
          OutstandingIsAsked(s, s', outcome, loc);
        }
      }
    }
  }

  ghost predicate LossIsHarmless(s: State) {
    forall s', outcome | ReconcileStep(s, s', outcome) :: NoOrphan(s'.(status := s.status))
  }

  /** Over all outcomes: a lost status patch never orphans anything exactly if all that may be pushed is recorded. */
  lemma LostPatchNeverOrphansExactly(s: State)
    requires NoOrphan(s) && ValidSpec(s.spec) && s.spec.policy.Delete?
    ensures LossIsHarmless(s) <==> AskedRecorded(s)
  {
    hide ReconcileStep, Outstanding, Recorded, Asked;
    if AskedRecorded(s) {
      forall s', outcome | ReconcileStep(s, s', outcome)
        ensures NoOrphan(s'.(status := s.status))
      {
        LostPatchHarmless(s, s', outcome);
      }
    } else {
      var loc :| Asked(s, loc) && !Recorded(s.status, loc);
      var s', outcome := ReachStep(s, loc);
    }
  }
}
