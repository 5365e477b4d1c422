/** Safety of the PushSecret protocol over whole runs, and what a successful reconcile converges to. */
module PushRuns {
  import opened Common
  import opened PushSpec

  /** Everything pushed and not yet deleted is recorded in the status map. */
  ghost predicate NoOrphan(s: State) {
    && WellKeyed(s.status)
    && forall loc: Loc | Outstanding(s.log, loc) :: ValidRef(loc.store) && Recorded(s.status, loc)
  }

  ghost predicate NothingLeft(log: Log) {
    forall loc: Loc :: !Outstanding(log, loc)
  }

  /** Without the finalizer, nothing is left at a provider. */
  ghost predicate Protected(s: State) {
    s.finalizer || NothingLeft(s.log)
  }

  // ---------------------------------------------------------------- one reconcile

  lemma PushPhaseOutstanding(stores: set<StoreRef>, data: seq<PushData>, secret: SecretData,
                             calls: Log, out: Synced, ok: bool, loc: Loc)
    requires PushPhase(stores, data, secret, calls, out, ok)
    ensures OnlyPushes(calls)
    ensures Outstanding(calls, loc) <==> PushedIn(calls, loc)
    ensures PushedIn(calls, loc) ==> Target(stores, data, loc) && Reachable(stores, data, secret, loc)
    ensures Deleted(loc) !in calls
  {
  }

  lemma PrunePhaseOutstanding(prev: Synced, newMap: Synced, calls: Log, out: Synced, ok: bool, loc: Loc)
    requires PrunePhase(prev, newMap, calls, out, ok)
    ensures OnlyDeletes(calls)
    ensures !Outstanding(calls, loc)
  {
  }

  /** A wanted map records exactly the targets. */
  lemma WantedRecords(stores: set<StoreRef>, data: seq<PushData>, loc: Loc)
    requires forall ref <- stores :: ValidRef(ref)
    requires ValidRef(loc.store)
    ensures Recorded(Wanted(stores, data), loc) <==> Target(stores, data, loc)
  {
    ByRemoteKeyNames(data, loc.key);
    if StoreKey(loc.store) in StoreKeys(stores) {
      var ref :| ref in stores && StoreKey(ref) == StoreKey(loc.store);
      StoreKeyInjective(ref, loc.store);
    }
  }

  lemma MergeRecords(newMap: Synced, prev: Synced, loc: Loc)
    ensures Recorded(Merge(newMap, prev), loc) <==> Recorded(newMap, loc) || Recorded(prev, loc)
  {
  }

  lemma MergeWellKeyed(newMap: Synced, prev: Synced)
    requires WellKeyed(newMap) && WellKeyed(prev)
    ensures WellKeyed(Merge(newMap, prev))
  {
  }

  lemma CleanupKeeps(s: State, s': State, ok: bool)
    requires NoOrphan(s) && CleanupThen(s, s', s'.status, s'.finalizer, ok)
    requires ok ==> s'.status == s.status
    ensures NoOrphan(s')
    ensures ok ==> NothingLeft(s'.log)
  {
    var calls := s'.log[|s.log|..];
    var out: Synced :| PrunePhase(s.status, map[], calls, out, ok) && (ok || s'.status == out);
    forall loc: Loc
      ensures Outstanding(s'.log, loc) ==> ValidRef(loc.store) && Recorded(s'.status, loc)
      ensures ok ==> !Outstanding(s'.log, loc)
    {
      OutstandingConcat(s.log, calls, loc);
      PrunePhaseOutstanding(s.status, map[], calls, out, ok, loc);
    }
  }

  lemma PushFailureKeeps(s: State, s': State, calls: Log, synced: Synced)
    requires NoOrphan(s) && ValidSpec(s.spec) && PushFailedThen(s, s', calls, synced)
    ensures NoOrphan(s')
  {
    MergeWellKeyed(synced, s.status);
    forall loc: Loc | Outstanding(s'.log, loc)
      ensures ValidRef(loc.store) && Recorded(s'.status, loc)
    {
      OutstandingConcat(s.log, calls, loc);
      PushPhaseOutstanding(s.spec.stores, s.spec.data, s.spec.secret, calls, synced, false, loc);
      MergeRecords(synced, s.status, loc);
    }
  }

  /** After a complete push and a (possibly partial) prune, the returned map still covers everything. */
  lemma PruneCovers(s: State, s': State, pushes: Log, prunes: Log, out: Synced, ok: bool, loc: Loc)
    requires NoOrphan(s) && ValidSpec(s.spec) && s.spec.policy.Delete?
    requires PruneThen(s, s', pushes, prunes, out, ok)
    ensures Outstanding(s'.log, loc) ==> ValidRef(loc.store) && Recorded(out, loc)
    ensures ok ==> (Outstanding(s'.log, loc) <==> Target(s.spec.stores, s.spec.data, loc))
  {
    var spec := s.spec;
    var wanted := Wanted(spec.stores, spec.data);
    assert s'.log == s.log + (pushes + prunes);
    OutstandingConcat(s.log, pushes + prunes, loc);
    OutstandingConcat(pushes, prunes, loc);
    PushPhaseOutstanding(spec.stores, spec.data, spec.secret, pushes, wanted, true, loc);
    PrunePhaseOutstanding(s.status, wanted, prunes, out, ok, loc);
    if ValidRef(loc.store) {
      WantedRecords(spec.stores, spec.data, loc);
    }
  }

  lemma WantedWellKeyed(stores: set<StoreRef>, data: seq<PushData>)
    requires forall ref <- stores :: ValidRef(ref)
    ensures WellKeyed(Wanted(stores, data))
  {
    forall e <- ByRemoteKey(data)
      ensures ByRemoteKey(data)[e].remoteKey == e
    {
      ByRemoteKeyNames(data, e);
    }
  }

  /** No orphan, one reconcile: whichever calls fail, under policy Delete. */
  lemma ReconcileKeepsRecords(s: State, s': State, outcome: Outcome)
    requires NoOrphan(s) && ValidSpec(s.spec) && s.spec.policy.Delete?
    requires ReconcileStep(s, s', outcome)
    ensures NoOrphan(s')
  {
    match outcome
    case CleanupFailed => CleanupKeeps(s, s', false);
    case CleanupDone => CleanupKeeps(s, s', true);
    case FinalizerUpdateFailed =>
      if s' != s { CleanupKeeps(s, s', true); }
    case PushFailed =>
      var calls: Log, synced: Synced :| PushFailedThen(s, s', calls, synced);
      PushFailureKeeps(s, s', calls, synced);
    case PruneFailed =>
      var pushes: Log, prunes: Log :| PruneThen(s, s', pushes, prunes, s'.status, false);
      forall loc: Loc { PruneCovers(s, s', pushes, prunes, s'.status, false, loc); }
    case SyncDone =>
      SyncOutstanding(s, s');
      WantedWellKeyed(s.spec.stores, s.spec.data);
      forall loc: Loc | Outstanding(s'.log, loc)
        ensures ValidRef(loc.store) && Recorded(s'.status, loc)
      {
        WantedRecords(s.spec.stores, s.spec.data, loc);
      }
    case _ =>
  }

  /** A successful reconcile leaves exactly the targets outstanding. */
  lemma SyncOutstanding(s: State, s': State)
    requires NoOrphan(s) && ValidSpec(s.spec) && s.spec.policy.Delete?
    requires ReconcileStep(s, s', SyncDone)
    ensures forall loc: Loc :: Outstanding(s'.log, loc) <==> Target(s.spec.stores, s.spec.data, loc)
  {
    var pushes: Log, prunes: Log, out: Synced :| PruneThen(s, s', pushes, prunes, out, true);
    forall loc: Loc
      ensures Outstanding(s'.log, loc) <==> Target(s.spec.stores, s.spec.data, loc)
    {
      PruneCovers(s, s', pushes, prunes, out, true, loc);
    }
  }

  // ---------------------------------------------------------------- convergence

  /** A target that a reconcile of this state may push. */
  ghost predicate Asked(s: State, loc: Loc) {
    s.alive && Pushes(s) && Reachable(s.spec.stores, s.spec.data, s.spec.secret, loc)
  }

  /** A reconcile leaves outstanding only what already was and what the state asks for. */
  lemma OutstandingIsAsked(s: State, s': State, outcome: Outcome, loc: Loc)
    requires ReconcileStep(s, s', outcome) && s.spec.policy.Delete? && Outstanding(s'.log, loc)
    ensures Outstanding(s.log, loc) || Asked(s, loc)
  {
    hide PushPhase, PrunePhase, Outstanding, Recorded, Reachable;
    if outcome.CleanupFailed? || outcome.CleanupDone? || (outcome.FinalizerUpdateFailed? && s' != s) {
      var calls := s'.log[|s.log|..];
      OutstandingConcat(s.log, calls, loc);
      var ok := !outcome.CleanupFailed?;
      var out: Synced :| PrunePhase(s.status, map[], calls, out, ok);
      PrunePhaseOutstanding(s.status, map[], calls, out, ok, loc);
    } else if outcome.PushFailed? {
      var calls: Log, synced: Synced :| PushFailedThen(s, s', calls, synced);
      OutstandingConcat(s.log, calls, loc);
      PushPhaseOutstanding(s.spec.stores, s.spec.data, s.spec.secret, calls, synced, false, loc);
    } else if outcome.PruneFailed? {
      var pushes: Log, prunes: Log :| PruneThen(s, s', pushes, prunes, s'.status, false);
      PrunedIsAsked(s, s', pushes, prunes, s'.status, false, loc);
    } else if outcome.SyncDone? {
      var pushes: Log, prunes: Log, out: Synced :| PruneThen(s, s', pushes, prunes, out, true);
      PrunedIsAsked(s, s', pushes, prunes, out, true, loc);
    }
  }

  lemma PrunedIsAsked(s: State, s': State, pushes: Log, prunes: Log, out: Synced, ok: bool, loc: Loc)
    requires PruneThen(s, s', pushes, prunes, out, ok) && s.spec.policy.Delete? && Outstanding(s'.log, loc)
    ensures Outstanding(s.log, loc) || Reachable(s.spec.stores, s.spec.data, s.spec.secret, loc)
  {
    hide PushPhase, PrunePhase, Outstanding, Reachable;
    var wanted := Wanted(s.spec.stores, s.spec.data);
    OutstandingConcat(s.log, pushes + prunes, loc);
    OutstandingConcat(pushes, prunes, loc);
    PushPhaseOutstanding(s.spec.stores, s.spec.data, s.spec.secret, pushes, wanted, true, loc);
    PrunePhaseOutstanding(s.status, wanted, prunes, out, ok, loc);
  }

  ghost predicate TargetsRecorded(s: State) {
    forall loc: Loc | Target(s.spec.stores, s.spec.data, loc) :: Recorded(s.status, loc)
  }

  ghost predicate AskedRecorded(s: State) {
    forall loc: Loc | Asked(s, loc) :: Recorded(s.status, loc)
  }

  /** A lost status patch orphans nothing when the old status already recorded all that may be pushed. */
  lemma LostPatchHarmless(s: State, s': State, outcome: Outcome)
    requires NoOrphan(s) && ValidSpec(s.spec) && s.spec.policy.Delete?
    requires ReconcileStep(s, s', outcome) && AskedRecorded(s)
    ensures NoOrphan(s'.(status := s.status))
  {
    hide ReconcileStep, Outstanding, Recorded;
    forall loc: Loc | Outstanding(s'.log, loc)
      ensures ValidRef(loc.store) && Recorded(s.status, loc)
    {
      OutstandingIsAsked(s, s', outcome, loc);
    }
  }

  /** When the status patch of a success is lost, nothing is orphaned exactly if every target was recorded. */
  lemma LostPatchExactly(s: State, s': State)
    requires NoOrphan(s) && ValidSpec(s.spec) && s.spec.policy.Delete?
    requires ReconcileStep(s, s', SyncDone)
    ensures NoOrphan(s'.(status := s.status)) <==> TargetsRecorded(s)
  {
    SyncOutstanding(s, s');
  }

  lemma {:induction false} ReplayPushes(c: Contents, log: Log)
    requires OnlyPushes(log)
    ensures Replay(c, log) == c + Replay(map[], log)
  {
    if log != [] {
      ReplayPushes(c, log[..|log| - 1]);
      assert !IsDelete(log[|log| - 1]);
    }
  }

  lemma {:induction false} ReplayUntouched(c: Contents, log: Log, loc: Loc)
    requires forall i :: 0 <= i < |log| ==> log[i].NoClient? || log[i].loc != loc
    ensures loc in Replay(c, log) <==> loc in c
    ensures loc in c ==> Replay(c, log)[loc] == c[loc]
  {
    if log != [] {
      ReplayUntouched(c, log[..|log| - 1], loc);
      assert log[|log| - 1].NoClient? || log[|log| - 1].loc != loc;
    }
  }

  /** Places that are neither a target nor recorded hold what they held. */
  ghost predicate OthersUntouched(s: State, s': State) {
    forall loc: Loc | !Target(s.spec.stores, s.spec.data, loc) && !Recorded(s.status, loc) ::
      SameAt(s.contents, s'.contents, loc)
  }

  ghost predicate SameAt(c: Contents, c': Contents, loc: Loc) {
    (loc in c' <==> loc in c) && (loc in c ==> c'[loc] == c[loc])
  }

  /** The map records the targets and nothing else, each with the last entry naming its key. */
  ghost predicate RecordsExactly(m: Synced, stores: set<StoreRef>, data: seq<PushData>) {
    && (forall loc: Loc | ValidRef(loc.store) :: Recorded(m, loc) <==> Target(stores, data, loc))
    && (forall ref <- stores, i: nat | IsLast(data, i) ::
          && Recorded(m, Loc(ref, data[i].remoteKey))
          && m[StoreKey(ref)][data[i].remoteKey] == data[i])
  }

  /** What the providers hold after a successful reconcile. */
  lemma SyncContents(s: State, s': State)
    requires ValidSpec(s.spec) && s.spec.policy.Delete?
    requires ReconcileStep(s, s', SyncDone)
    ensures HoldsLast(s'.contents, s.spec.stores, s.spec.data, s.spec.secret)
    ensures OthersUntouched(s, s')
  {
    hide PushPhase, PrunePhase, HoldsLast, OthersUntouched;
    var pushes: Log, prunes: Log, out: Synced :| PruneThen(s, s', pushes, prunes, out, true);
    SyncHoldsLast(s, s', pushes, prunes, out);
    SyncLeavesOthers(s, s', pushes, prunes, out);
  }

  lemma SyncHoldsLast(s: State, s': State, pushes: Log, prunes: Log, out: Synced)
    requires ValidSpec(s.spec) && s.spec.policy.Delete? && PruneThen(s, s', pushes, prunes, out, true)
    ensures HoldsLast(s'.contents, s.spec.stores, s.spec.data, s.spec.secret)
  {
    hide PushPhase, PrunePhase, Wanted, Recorded;
    var spec := s.spec;
    var wanted := Wanted(spec.stores, spec.data);
    var mid := Replay(s.contents, pushes);
    ReplayConcat(s.contents, pushes, prunes);
    PhaseHoldsLast(spec, pushes, wanted);
    ReplayPushes(s.contents, pushes);
    forall ref <- spec.stores, i: nat | IsLast(spec.data, i)
      ensures spec.data[i].secretKey in spec.secret
      ensures Loc(ref, spec.data[i].remoteKey) in s'.contents
      ensures s'.contents[Loc(ref, spec.data[i].remoteKey)] == spec.secret[spec.data[i].secretKey]
    {
      var loc := Loc(ref, spec.data[i].remoteKey);
      assert Target(spec.stores, spec.data, loc);
      WantedRecords(spec.stores, spec.data, loc);
      PruneAvoids(s.status, wanted, prunes, out, loc);
      ReplayUntouched(mid, prunes, loc);
    }
  }

  lemma SyncLeavesOthers(s: State, s': State, pushes: Log, prunes: Log, out: Synced)
    requires s.spec.policy.Delete? && PruneThen(s, s', pushes, prunes, out, true)
    ensures OthersUntouched(s, s')
  {
    hide PushPhase, PrunePhase, Wanted, Recorded;
    var spec := s.spec;
    var wanted := Wanted(spec.stores, spec.data);
    ReplayConcat(s.contents, pushes, prunes);
    forall loc: Loc | !Target(spec.stores, spec.data, loc) && !Recorded(s.status, loc)
      ensures SameAt(s.contents, s'.contents, loc)
    {
      PushAvoids(spec, pushes, wanted, loc);
      PruneAvoids(s.status, wanted, prunes, out, loc);
      ReplayUntouched(s.contents, pushes, loc);
      ReplayUntouched(Replay(s.contents, pushes), prunes, loc);
    }
  }

  lemma PhaseHoldsLast(spec: Spec, pushes: Log, out: Synced)
    requires PushPhase(spec.stores, spec.data, spec.secret, pushes, out, true)
    ensures HoldsLast(Replay(map[], pushes), spec.stores, spec.data, spec.secret) && OnlyPushes(pushes)
  {
    assert forall i :: 0 <= i < |pushes| ==> PushOf(spec.stores, spec.data, spec.secret, pushes[i]);
  }

  lemma PushAvoids(spec: Spec, pushes: Log, out: Synced, loc: Loc)
    requires PushPhase(spec.stores, spec.data, spec.secret, pushes, out, true)
    requires !Target(spec.stores, spec.data, loc)
    ensures forall i :: 0 <= i < |pushes| ==> pushes[i].NoClient? || pushes[i].loc != loc
  {
    assert forall i :: 0 <= i < |pushes| ==> PushOf(spec.stores, spec.data, spec.secret, pushes[i]);
  }

  lemma PruneAvoids(prev: Synced, newMap: Synced, prunes: Log, out: Synced, loc: Loc)
    requires PrunePhase(prev, newMap, prunes, out, true)
    requires !Recorded(prev, loc) || Recorded(newMap, loc)
    ensures forall i :: 0 <= i < |prunes| ==> prunes[i].NoClient? || prunes[i].loc != loc
  {
  }

  /** Recorded entries that are no longer targets are gone. */
  ghost predicate StaleGone(s: State, s': State) {
    forall loc: Loc | ValidRef(loc.store) && Recorded(s.status, loc) && !Target(s.spec.stores, s.spec.data, loc) ::
      loc !in s'.contents
  }

  lemma SyncRemovesStale(s: State, s': State)
    requires ValidSpec(s.spec) && s.spec.policy.Delete?
    requires ReconcileStep(s, s', SyncDone)
    ensures StaleGone(s, s')
  {
    hide PushPhase, Outstanding, Recorded, Wanted;
    var wanted := Wanted(s.spec.stores, s.spec.data);
    var pushes: Log, prunes: Log, out: Synced :| PruneThen(s, s', pushes, prunes, out, true);
    ReplayConcat(s.contents, pushes, prunes);
    forall loc: Loc | ValidRef(loc.store) && Recorded(s.status, loc) && !Target(s.spec.stores, s.spec.data, loc)
      ensures loc !in s'.contents
    {
      WantedRecords(s.spec.stores, s.spec.data, loc);
      PrunePhaseOutstanding(s.status, wanted, prunes, out, true, loc);
      ReplayKeys(Replay(s.contents, pushes), prunes, loc);
    }
  }

  /**
    Convergence: a successful reconcile under policy Delete leaves outstanding exactly the
    resolved stores x remote keys of the spec, each holding the last entry's value, records
    exactly those, holds nothing else that was recorded, and touches nothing else.
   */
  lemma Convergence(s: State, s': State)
    requires NoOrphan(s) && ValidSpec(s.spec) && s.spec.policy.Delete?
    requires ReconcileStep(s, s', SyncDone)
    ensures forall loc: Loc :: Outstanding(s'.log, loc) <==> Target(s.spec.stores, s.spec.data, loc)
    ensures RecordsExactly(s'.status, s.spec.stores, s.spec.data)
    ensures HoldsLast(s'.contents, s.spec.stores, s.spec.data, s.spec.secret)
    ensures StaleGone(s, s')
    ensures OthersUntouched(s, s')
  {
    SyncOutstanding(s, s');
    SyncContents(s, s');
    SyncRemovesStale(s, s');
    SyncRecords(s.spec.stores, s.spec.data);
  }

  lemma SyncRecords(stores: set<StoreRef>, data: seq<PushData>)
    requires forall ref <- stores :: ValidRef(ref)
    ensures RecordsExactly(Wanted(stores, data), stores, data)
  {
    forall loc: Loc | ValidRef(loc.store)
      ensures Recorded(Wanted(stores, data), loc) <==> Target(stores, data, loc)
    {
      WantedRecords(stores, data, loc);
    }
    forall i: nat | IsLast(data, i)
      ensures data[i].remoteKey in ByRemoteKey(data) && ByRemoteKey(data)[data[i].remoteKey] == data[i]
    {
      ByRemoteKeyLast(data, i);
    }
  }

  /** Fixpoint: an unchanged second reconcile deletes nothing, however it ends. */
  lemma SecondReconcileDeletesNothing(s: State, s': State, outcome: Outcome)
    requires ValidSpec(s.spec) && s.spec.policy.Delete? && !s.deleting
    requires s.status == Wanted(s.spec.stores, s.spec.data)
    requires ReconcileStep(s, s', outcome)
    ensures s.log <= s'.log && OnlyPushes(s'.log[|s.log|..])
  {
    hide PushPhase, PrunePhase, Wanted, Replay;
    match outcome
    case PushFailed =>
      var calls: Log, synced: Synced :| PushFailedThen(s, s', calls, synced);
      PushPhaseOutstanding(s.spec.stores, s.spec.data, s.spec.secret, calls, synced, false, Loc(StoreRef("", ""), ""));
      assert s'.log[|s.log|..] == calls;
    case PruneFailed =>
      var pushes: Log, prunes: Log :| PruneThen(s, s', pushes, prunes, s'.status, false);
      QuietPrune(s, s', pushes, prunes, s'.status, false);
    case SyncDone =>
      var pushes: Log, prunes: Log, out: Synced :| PruneThen(s, s', pushes, prunes, out, true);
      QuietPrune(s, s', pushes, prunes, out, true);
    case _ =>
  }

  lemma QuietPrune(s: State, s': State, pushes: Log, prunes: Log, out: Synced, ok: bool)
    requires s.spec.policy.Delete? && s.status == Wanted(s.spec.stores, s.spec.data)
    requires PruneThen(s, s', pushes, prunes, out, ok)
    ensures s'.log[|s.log|..] == pushes + prunes && OnlyPushes(pushes) && OnlyPushes(pushes + prunes)
    ensures ok ==> s'.contents == Replay(s.contents, pushes)
  {
    var wanted := Wanted(s.spec.stores, s.spec.data);
    forall i | 0 <= i < |prunes|
      ensures prunes[i].NoClient? && !ok
    {
      assert PruneOf(s.status, wanted, prunes[i]);
    }
    assert ok ==> pushes + prunes == pushes;
    PushPhaseOutstanding(s.spec.stores, s.spec.data, s.spec.secret, pushes, wanted, true, Loc(StoreRef("", ""), ""));
  }

  /** Fixpoint: a second success with nothing changed leaves status and providers as they are. */
  lemma SecondSuccessChangesNothing(s: State, s': State)
    requires ValidSpec(s.spec) && s.spec.policy.Delete?
    requires s.status == Wanted(s.spec.stores, s.spec.data)
    requires HoldsLast(s.contents, s.spec.stores, s.spec.data, s.spec.secret)
    requires ReconcileStep(s, s', SyncDone)
    ensures s'.status == s.status && s'.contents == s.contents
  {
    hide PushPhase, PrunePhase, HoldsLast, Wanted, Replay;
    var pushes: Log, prunes: Log, out: Synced :| PruneThen(s, s', pushes, prunes, out, true);
    QuietPrune(s, s', pushes, prunes, out, true);
    ReplayPushes(s.contents, pushes);
    forall loc <- Replay(map[], pushes)
      ensures loc in s.contents && s.contents[loc] == Replay(map[], pushes)[loc]
    {
      RewritesSame(s.spec, s.contents, s.status, pushes, loc);
    }
  }

  lemma RewritesSame(spec: Spec, c: Contents, wanted: Synced, pushes: Log, loc: Loc)
    requires PushPhase(spec.stores, spec.data, spec.secret, pushes, wanted, true)
    requires HoldsLast(c, spec.stores, spec.data, spec.secret)
    requires loc in Replay(map[], pushes)
    ensures loc in c && c[loc] == Replay(map[], pushes)[loc]
  {
    ReplayKeys(map[], pushes, loc);
    PushPhaseOutstanding(spec.stores, spec.data, spec.secret, pushes, wanted, true, loc);
    var i := LastFor(spec.data, loc.key);
    assert loc == Loc(loc.store, spec.data[i].remoteKey);
  }

  // ---------------------------------------------------------------- runs

  /** Anything but this controller: spec edits, a delete request, other finalizers coming and going. */
  ghost predicate EnvStep(s: State, s': State) {
    && s'.log == s.log && s'.contents == s.contents && s'.status == s.status && s'.finalizer == s.finalizer
    && (s.deleting ==> s'.deleting)
    && (s.deleting && !s.foreignFinalizer ==> !s'.foreignFinalizer)
    && s'.alive == (s.alive && (s'.deleting ==> s'.finalizer || s'.foreignFinalizer))
  }

  ghost predicate Step(s: State, s': State) {
    EnvStep(s, s') || exists outcome: Outcome :: ReconcileStep(s, s', outcome)
  }

  ghost predicate Init(s: State) {
    s.alive && !s.deleting && !s.finalizer && s.status == map[] && s.log == []
  }

  /** A run with policy Delete throughout. */
  ghost predicate Run(run: seq<State>) {
    && |run| > 0
    && Init(run[0])
    && (forall i :: 0 <= i < |run| ==> ValidSpec(run[i].spec) && run[i].spec.policy.Delete?)
    && (forall i :: 0 < i < |run| ==> Step(run[i - 1], run[i]))
  }

  /** No orphan: every state of every run records everything still at a provider. */
  lemma {:induction false} NoOrphanAlongRuns(run: seq<State>, n: nat)
    requires Run(run) && n < |run|
    ensures NoOrphan(run[n])
    ensures run[n].contents == Replay(run[0].contents, run[n].log)
  {
    if n > 0 {
      NoOrphanAlongRuns(run, n - 1);
      assert Step(run[n - 1], run[n]);
      StepKeepsRecords(run[0].contents, run[n - 1], run[n]);
    }
  }

  lemma StepKeepsRecords(c: Contents, s: State, s': State)
    requires ValidSpec(s.spec) && s.spec.policy.Delete?
    requires Step(s, s')
    requires NoOrphan(s) && s.contents == Replay(c, s.log)
    ensures NoOrphan(s') && s'.contents == Replay(c, s'.log)
  {
    if !EnvStep(s, s') {
      var outcome :| ReconcileStep(s, s', outcome);
      ReconcileKeepsRecords(s, s', outcome);
      var calls := StepExtends(s, s', outcome);
      ReplayConcat(c, s.log, calls);
    }
  }

  /** Every reconcile only extends the log, and the provider changes only through it. */
  lemma StepExtends(s: State, s': State, outcome: Outcome) returns (calls: Log)
    requires ReconcileStep(s, s', outcome)
    ensures s'.log == s.log + calls && s'.contents == Replay(s.contents, calls)
  {
    match outcome
    case CleanupFailed => calls := s'.log[|s.log|..];
    case CleanupDone => calls := s'.log[|s.log|..];
    case FinalizerUpdateFailed =>
      if s' == s { calls := []; } else { calls := s'.log[|s.log|..]; }
    case PushFailed =>
      var synced: Synced;
      calls, synced :| PushFailedThen(s, s', calls, synced);
    case PruneFailed =>
      var pushes: Log, prunes: Log :| PruneThen(s, s', pushes, prunes, s'.status, false);
      calls := pushes + prunes;
    case SyncDone =>
      var pushes: Log, prunes: Log, out: Synced :| PruneThen(s, s', pushes, prunes, out, true);
      calls := pushes + prunes;
    case _ =>
      calls := [];
  }

  /**
    What a failed cleanup still records although it deleted it: only entries of the one store it
    was dropping when a delete was rejected.
   */
  lemma FailedCleanupForgets(s: State, s': State, loc: Loc)
    requires ReconcileStep(s, s', CleanupFailed) && ValidRef(loc.store) && Deleted(loc) in s'.log[|s.log|..]
    ensures Recorded(s'.status, loc) ==> DroppingFailed(map[], s'.log[|s.log|..], loc.store)
  {
  }

  /** The same of a failed prune, which never drops a store that is still wanted. */
  lemma FailedPruneForgets(s: State, s': State, loc: Loc)
    requires ReconcileStep(s, s', PruneFailed) && ValidRef(loc.store)
    requires Deleted(loc) in s'.log[|s.log|..] && Recorded(s'.status, loc)
    ensures DroppingFailed(Wanted(s.spec.stores, s.spec.data), s'.log[|s.log|..], loc.store)
  {
    hide PushPhase, PruneCalls, Covers, Wanted, Recorded, Replay;
    var wanted := Wanted(s.spec.stores, s.spec.data);
    var pushes: Log, prunes: Log :| PruneThen(s, s', pushes, prunes, s'.status, false);
    var calls := s'.log[|s.log|..];
    assert calls == pushes + prunes;
    PushPhaseOutstanding(s.spec.stores, s.spec.data, s.spec.secret, pushes, wanted, true, loc);
    assert Deleted(loc) in prunes;
    assert calls[|calls| - 1] == prunes[|prunes| - 1];
  }

  lemma PruneCallsRecorded(prev: Synced, newMap: Synced, calls: Log, out: Synced, ok: bool, i: nat)
    requires PrunePhase(prev, newMap, calls, out, ok) && i < |calls|
    ensures PruneOf(prev, newMap, calls[i])
  {
  }

  /** Along runs, a cleanup retried after a failure makes no call for what completed stores had deleted. */
  lemma RetrySkipsDeleted(run: seq<State>, n: nat, outcome: Outcome, loc: Loc, i: nat)
    requires Run(run) && n + 2 < |run| && ValidRef(loc.store)
    requires ReconcileStep(run[n], run[n + 1], CleanupFailed) && ReconcileStep(run[n + 1], run[n + 2], outcome)
    requires Deleted(loc) in run[n + 1].log[|run[n].log|..]
    requires !DroppingFailed(map[], run[n + 1].log[|run[n].log|..], loc.store)
    requires outcome.CleanupFailed? || outcome.CleanupDone?
    requires |run[n + 1].log| <= i < |run[n + 2].log|
    ensures run[n + 2].log[i].NoClient? || run[n + 2].log[i].loc != loc
  {
    hide Run, PruneCalls, Covers, DroppingFailed;
    var s, s' := run[n + 1], run[n + 2];
    var calls := s'.log[|s.log|..];
    FailedCleanupForgets(run[n], s, loc);
    var out: Synced :| PrunePhase(s.status, map[], calls, out, outcome.CleanupDone?);
    assert calls[i - |s.log|] == s'.log[i];
    PruneCallsRecorded(s.status, map[], calls, out, outcome.CleanupDone?, i - |s.log|);
  }

  /** Nothing pushed during the run is still at a provider. */
  ghost predicate Clean(s: State) {
    NothingLeft(s.log) && forall loc: Loc | PushedIn(s.log, loc) :: loc !in s.contents
  }

  /** After a success, of all that was ever pushed in the run the providers hold exactly the targets. */
  lemma ConvergenceAlongRuns(run: seq<State>, n: nat, loc: Loc)
    requires Run(run) && n + 1 < |run| && ReconcileStep(run[n], run[n + 1], SyncDone)
    requires PushedIn(run[n + 1].log, loc)
    ensures loc in run[n + 1].contents <==> Target(run[n].spec.stores, run[n].spec.data, loc)
  {
    NoOrphanAlongRuns(run, n);
    NoOrphanAlongRuns(run, n + 1);
    SyncOutstanding(run[n], run[n + 1]);
    ReplayKeys(run[0].contents, run[n + 1].log, loc);
    if !Outstanding(run[n + 1].log, loc) {
      PushedAndGone(run[n + 1].log, loc);
    }
  }

  lemma PushedAndGone(log: Log, loc: Loc)
    requires PushedIn(log, loc) && !Outstanding(log, loc)
    ensures Deleted(loc) in log
  {
    var i :| 0 <= i < |log| && log[i].Pushed? && log[i].loc == loc;
    assert Deleted(loc) in log[i + 1..];
  }

  lemma NothingLeftIsClean(c: Contents, s: State)
    requires s.contents == Replay(c, s.log) && NothingLeft(s.log)
    ensures Clean(s)
  {
    forall loc: Loc | PushedIn(s.log, loc)
      ensures loc !in s.contents
    {
      ReplayKeys(c, s.log, loc);
      PushedAndGone(s.log, loc);
    }
  }

  /** Finalizer safety: the finalizer goes only when nothing pushed remains at any provider. */
  lemma FinalizerSafety(run: seq<State>, n: nat)
    requires Run(run) && n + 1 < |run|
    requires run[n].finalizer && !run[n + 1].finalizer
    ensures Clean(run[n + 1])
  {
    NoOrphanAlongRuns(run, n);
    NoOrphanAlongRuns(run, n + 1);
    assert Step(run[n + 1 - 1], run[n + 1]);
    FinalizerGoesWhenClean(run[n], run[n + 1]);
    NothingLeftIsClean(run[0].contents, run[n + 1]);
  }

  lemma FinalizerGoesWhenClean(s: State, s': State)
    requires Step(s, s') && NoOrphan(s) && s.finalizer && !s'.finalizer
    ensures NothingLeft(s'.log)
  {
    var outcome :| ReconcileStep(s, s', outcome);
    match outcome
    case CleanupDone => CleanupKeeps(s, s', true);
    case _ =>
  }

  /** A reconcile that starts here pushes without the protection of the finalizer. */
  ghost predicate Unguarded(s: State) {
    s.alive && s.deleting && !s.finalizer
  }

  lemma ReconcileKeepsProtection(s: State, s': State, outcome: Outcome)
    requires NoOrphan(s) && ValidSpec(s.spec) && s.spec.policy.Delete? && Protected(s)
    requires ReconcileStep(s, s', outcome) && !Unguarded(s)
    ensures Protected(s')
  {
  }

  lemma {:induction false} ProtectedAlongRuns(run: seq<State>, n: nat)
    requires Run(run) && n < |run|
    requires forall i :: 0 <= i < |run| ==> !run[i].foreignFinalizer
    ensures Protected(run[n])
    ensures !Unguarded(run[n])
  {
    if n > 0 {
      var s, s' := run[n - 1], run[n];
      ProtectedAlongRuns(run, n - 1);
      NoOrphanAlongRuns(run, n - 1);
      assert Step(s, s');
      if !EnvStep(s, s') {
        var outcome :| ReconcileStep(s, s', outcome);
        ReconcileKeepsProtection(s, s', outcome);
        UnguardedNeedsForeign(s, s', outcome);
      }
    }
  }

  lemma UnguardedNeedsForeign(s: State, s': State, outcome: Outcome)
    requires ReconcileStep(s, s', outcome) && s.spec.policy.Delete?
    requires !Unguarded(s) && !s.foreignFinalizer
    ensures !Unguarded(s')
  {
  }

  /** When no one else holds a finalizer, the object is gone only once the providers are clean. */
  lemma GoneMeansClean(run: seq<State>, n: nat)
    requires Run(run) && n < |run|
    requires forall i :: 0 <= i < |run| ==> !run[i].foreignFinalizer
    requires !run[n].alive
    ensures Clean(run[n])
  {
    ProtectedAlongRuns(run, n);
    NoOrphanAlongRuns(run, n);
    GoneHasNoFinalizer(run, n);
    NothingLeftIsClean(run[0].contents, run[n]);
  }

  lemma {:induction false} GoneHasNoFinalizer(run: seq<State>, n: nat)
    requires Run(run) && n < |run|
    ensures run[n].alive || !run[n].finalizer
  {
    if n > 0 {
      GoneHasNoFinalizer(run, n - 1);
      assert Step(run[n - 1], run[n]);
    }
  }

  /** A successful reconcile keeps the protection exactly when it had the finalizer or nothing to push. */
  lemma UnprotectedExactly(s: State, s': State)
    requires NoOrphan(s) && ValidSpec(s.spec) && s.spec.policy.Delete?
    requires ReconcileStep(s, s', SyncDone)
    ensures Protected(s') <==> s.finalizer || s.spec.stores == {} || s.spec.data == []
  {
    SyncOutstanding(s, s');
    if s.spec.stores != {} && s.spec.data != [] {
      var ref :| ref in s.spec.stores;
      var loc := Loc(ref, s.spec.data[0].remoteKey);
      assert Target(s.spec.stores, s.spec.data, loc);
    }
  }

  lemma LastPushStays(log: Log, loc: Loc, value: Bytes)
    ensures Outstanding(log + [Pushed(loc, value)], loc)
  {
    var log' := log + [Pushed(loc, value)];
    assert log'[|log|].Pushed? && log'[|log|].loc == loc && log'[|log| + 1..] == [];
  }

  // ---------------------------------------------------------------- runs that go wrong

  /** One store, one entry. */
  ghost function Lone(ref: StoreRef, entry: PushData, value: Bytes): Spec {
    Spec(Delete, {ref}, [entry], map[entry.secretKey := value])
  }

  /** The first success of a run: the finalizer is added, then the entry is pushed. */
  lemma FirstSync(ref: StoreRef, entry: PushData, value: Bytes, foreignFinalizer: bool) returns (run: seq<State>)
    requires ValidRef(ref)
    ensures Run(run) && |run| == 3 && ReconcileStep(run[1], run[2], SyncDone) && run[1].status == map[]
    ensures Outstanding(run[2].log, Loc(ref, entry.remoteKey))
    ensures var s := run[2];
            && s.alive && !s.deleting && s.finalizer && s.foreignFinalizer == foreignFinalizer
            && s.spec == Lone(ref, entry, value) && s.status == Wanted({ref}, [entry])
  {
    hide Outstanding, Wanted, PushPhase, PrunePhase;
    var s0 := State(true, false, false, foreignFinalizer, Lone(ref, entry, value), map[], map[], []);
    var s1 := s0.(finalizer := true);
    assert ReconcileStep(s0, s1, FinalizerAdded);
    run := ExtendRun([s0], s1);
    var s2 := LonePush(s1, ref, entry, value);
    run := ExtendRun(run, s2);
  }

  /** Losing the status patch of the first success orphans what it pushed. */
  lemma LostPatchOrphans(ref: StoreRef, entry: PushData, value: Bytes) returns (run: seq<State>)
    requires ValidRef(ref)
    ensures Run(run) && |run| == 3 && ReconcileStep(run[1], run[2], SyncDone)
    ensures !NoOrphan(run[2].(status := run[1].status))
  {
    hide Run, ReconcileStep;
    run := FirstSync(ref, entry, value, false);
    assert !Recorded(run[1].status, Loc(ref, entry.remoteKey));
  }

  /**
    With another party's finalizer the object outlives the removal of ours at `n + 1`, which left
    the providers clean, and is then pushed again: it ends gone, with the entry left behind.
   */
  lemma ForeignFinalizerLeaks(ref: StoreRef, entry: PushData, value: Bytes) returns (run: seq<State>, n: nat)
    requires ValidRef(ref)
    ensures Run(run) && n + 2 < |run|
    ensures run[n].finalizer && Outstanding(run[n].log, Loc(ref, entry.remoteKey))
    ensures ReconcileStep(run[n], run[n + 1], CleanupDone) && !run[n + 1].finalizer && Clean(run[n + 1])
    ensures ReconcileStep(run[n + 1], run[n + 2], SyncDone)
    ensures var last := run[|run| - 1];
            !last.alive && Outstanding(last.log, Loc(ref, entry.remoteKey)) && !Clean(last)
  {
    hide Outstanding, Wanted, PushPhase, PrunePhase;
    run := FirstSync(ref, entry, value, true);
    var s3 := run[2].(deleting := true);
    assert EnvStep(run[2], s3);
    run := ExtendRun(run, s3);
    var s4 := LoneCleanup(s3, ref, entry, value);
    run := ExtendRun(run, s4);
    var s5 := LonePush(s4, ref, entry, value);
    run := ExtendRun(run, s5);
    var s6 := s5.(foreignFinalizer := false, alive := false);
    assert EnvStep(s5, s6);
    run := ExtendRun(run, s6);
    n := 3;
    FinalizerSafety(run, n);
  }

  lemma ExtendRun(run: seq<State>, s: State) returns (run': seq<State>)
    requires Run(run) && Step(run[|run| - 1], s) && ValidSpec(s.spec) && s.spec.policy.Delete?
    ensures Run(run') && run' == run + [s]
  {
    run' := run + [s];
    forall i | 0 < i < |run'|
      ensures Step(run'[i - 1], run'[i])
    {
      if i < |run| {
        assert Step(run[i - 1], run[i]);
      }
    }
  }

  lemma LonePush(s: State, ref: StoreRef, entry: PushData, value: Bytes) returns (s': State)
    requires ValidRef(ref) && s.spec == Lone(ref, entry, value) && s.alive && Pushes(s)
    requires s.status == map[] || s.status == Wanted({ref}, [entry])
    ensures ReconcileStep(s, s', SyncDone) && Outstanding(s'.log, Loc(ref, entry.remoteKey))
    ensures s' == s.(status := Wanted({ref}, [entry]), contents := s'.contents, log := s'.log)
  {
    hide PushPhase, PrunePhase, Outstanding, Replay;
    var wanted := Wanted({ref}, [entry]);
    var pushes := [Pushed(Loc(ref, entry.remoteKey), value)];
    s' := s.(status := wanted, contents := Replay(s.contents, pushes), log := s.log + pushes);
    OnePush(ref, entry, value);
    NothingStale(s.status, wanted);
    LastPushStays(s.log, Loc(ref, entry.remoteKey), value);
    assert pushes + [] == pushes;
    assert PruneThen(s, s', pushes, [], wanted, true);
  }

  lemma NothingStale(prev: Synced, wanted: Synced)
    requires (prev == map[] || prev == wanted) && WellKeyed(wanted)
    ensures PrunePhase(prev, wanted, [], wanted, true)
  {
  }

  lemma LoneCleanup(s: State, ref: StoreRef, entry: PushData, value: Bytes) returns (s': State)
    requires ValidRef(ref) && s.spec == Lone(ref, entry, value) && s.alive && CleansUp(s) && s.foreignFinalizer
    requires s.status == Wanted({ref}, [entry])
    ensures ReconcileStep(s, s', CleanupDone)
    ensures s' == s.(finalizer := false, contents := s'.contents, log := s'.log)
  {
    var calls := [Deleted(Loc(ref, entry.remoteKey))];
    s' := s.(finalizer := false, contents := Replay(s.contents, calls), log := s.log + calls);
    LonePrune(ref, entry);
    assert s'.log[|s.log|..] == calls;
    assert CleanupThen(s, s', s.status, false, true);
  }

  lemma LonePrune(ref: StoreRef, entry: PushData)
    requires ValidRef(ref)
    ensures PrunePhase(Wanted({ref}, [entry]), map[], [Deleted(Loc(ref, entry.remoteKey))], map[], true)
  {
    var target := Loc(ref, entry.remoteKey);
    assert [entry][0] == entry;
    forall loc: Loc | ValidRef(loc.store)
      ensures Recorded(Wanted({ref}, [entry]), loc) <==> loc == target
    {
      WantedRecords({ref}, [entry], loc);
    }
    assert [Deleted(target)][0] == Deleted(target);
  }

  lemma OnePush(ref: StoreRef, entry: PushData, value: Bytes)
    requires ValidRef(ref)
    ensures PushPhase({ref}, [entry], map[entry.secretKey := value],
                      [Pushed(Loc(ref, entry.remoteKey), value)], Wanted({ref}, [entry]), true)
  {
    var stores, data, secret := {ref}, [entry], map[entry.secretKey := value];
    var calls := [Pushed(Loc(ref, entry.remoteKey), value)];
    WantedWellKeyed(stores, data);
    assert data[0] == entry && EntryOf(data, secret, 0, calls[0]);
    assert PushOf(stores, data, secret, calls[0]);
    forall loc: Loc | ValidRef(loc.store)
      ensures Recorded(Wanted(stores, data), loc) <==> PushedIn(calls, loc)
    {
      WantedRecords(stores, data, loc);
      if loc == calls[0].loc {
        assert calls[0].Pushed?;
      }
    }
    assert calls[..0] == [];
    assert Replay(map[], calls) == map[Loc(ref, entry.remoteKey) := value];
  }
}
