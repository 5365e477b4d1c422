/**
  What one reconcile of a PushSecret may do, over values: the provider's log of
  calls, the recorded status map, the finalizer and the deletion mark. Module
  PushSecret refines `ReconcileStep`; module PushRuns is about whole runs of it.
 */
module PushSpec {
  import opened Common

  datatype PushData = PushData(secretKey: string, remoteKey: string)

  datatype StoreRef = StoreRef(name: string, kind: string)

  /** Status.SyncedPushSecrets: store key -> remote key -> the data entry pushed. */
  type Synced = map<string, map<string, PushData>>

  /** A place at a provider that one data entry is pushed to. */
  datatype Loc = Loc(store: StoreRef, key: string)

  /** One call, to a provider or for its client (with an empty key). A rejected call changes nothing. */
  datatype Event =
    | Pushed(loc: Loc, value: Bytes)
    | PushRejected(loc: Loc, value: Bytes)
    | Deleted(loc: Loc)
    | DeleteRejected(loc: Loc)
    | NoClient(loc: Loc)

  type Log = seq<Event>

  type Contents = map<Loc, Bytes>

  // ---------------------------------------------------------------- store keys

  ghost predicate SlashFree(s: string) {
    '/' !in s
  }

  ghost predicate ValidRef(ref: StoreRef) {
    SlashFree(ref.kind) && SlashFree(ref.name)
  }

  function StoreKey(ref: StoreRef): string {
    ref.kind + "/" + ref.name
  }

  /** strings.Split(s, "/"). */
  function Split(s: string): (parts: seq<string>)
    ensures |parts| >= 1
  {
    if s == "" then [""]
    else
      var rest := Split(s[1..]);
      if s[0] == '/' then [""] + rest
      else [[s[0]] + rest[0]] + rest[1..]
  }

  lemma {:induction false} SplitSlashFree(s: string)
    requires SlashFree(s)
    ensures Split(s) == [s]
  {
    if s != "" {
      SplitSlashFree(s[1..]);
      assert [s[0]] + s[1..] == s;
    }
  }

  /** "Kind/Name" splits back to the reference it was made from. */
  lemma {:induction false} SplitStoreKey(kind: string, name: string)
    requires SlashFree(kind) && SlashFree(name)
    ensures Split(StoreKey(StoreRef(name, kind))) == [kind, name]
  {
    var s := StoreKey(StoreRef(name, kind));
    if kind == "" {
      assert s[1..] == name;
      SplitSlashFree(name);
    } else {
      assert s[1..] == StoreKey(StoreRef(name, kind[1..]));
      SplitStoreKey(kind[1..], name);
      assert [kind[0]] + kind[1..] == kind;
    }
  }

  lemma StoreKeyInjective(a: StoreRef, b: StoreRef)
    requires ValidRef(a) && ValidRef(b) && StoreKey(a) == StoreKey(b)
    ensures a == b
  {
    SplitStoreKey(a.kind, a.name);
    SplitStoreKey(b.kind, b.name);
  }

  /** Each store key names a reference and each entry is filed under its own remote key. */
  ghost predicate WellKeyed(m: Synced) {
    && (forall k <- m :: exists ref: StoreRef :: ValidRef(ref) && k == StoreKey(ref))
    && (forall k <- m, e <- m[k] :: m[k][e].remoteKey == e)
  }

  // ---------------------------------------------------------------- logs

  /** What the provider holds after the calls of `log`, starting from `c`. */
  function Replay(c: Contents, log: Log): Contents {
    if log == [] then c
    else
      var before := Replay(c, log[..|log| - 1]);
      match log[|log| - 1]
      case Pushed(loc, value) => before[loc := value]
      case Deleted(loc) => before - {loc}
      case _ => before
  }

  /** Some call pushed `loc` and no later call deleted it. */
  ghost predicate Outstanding(log: Log, loc: Loc) {
    exists i :: 0 <= i < |log| && log[i].Pushed? && log[i].loc == loc && Deleted(loc) !in log[i + 1..]
  }

  ghost predicate PushedIn(log: Log, loc: Loc) {
    exists i :: 0 <= i < |log| && log[i].Pushed? && log[i].loc == loc
  }

  ghost predicate IsPush(e: Event) {
    e.Pushed? || e.PushRejected?
  }

  ghost predicate IsDelete(e: Event) {
    e.Deleted? || e.DeleteRejected?
  }

  ghost predicate OnlyPushes(log: Log) {
    forall i :: 0 <= i < |log| ==> !IsDelete(log[i])
  }

  ghost predicate OnlyDeletes(log: Log) {
    forall i :: 0 <= i < |log| ==> !IsPush(log[i])
  }

  lemma OutstandingConcat(a: Log, b: Log, loc: Loc)
    ensures Outstanding(a + b, loc) <==> Outstanding(b, loc) || (Outstanding(a, loc) && Deleted(loc) !in b)
  {
    var log := a + b;
    if Outstanding(log, loc) {
      var i :| 0 <= i < |log| && log[i].Pushed? && log[i].loc == loc && Deleted(loc) !in log[i + 1..];
      if i < |a| {
        assert log[i + 1..] == a[i + 1..] + b;
        assert a[i].Pushed? && a[i].loc == loc && Deleted(loc) !in a[i + 1..];
      } else {
        assert log[i + 1..] == b[i - |a| + 1..];
        assert b[i - |a|].Pushed?;
      }
    }
    if Outstanding(b, loc) {
      var i :| 0 <= i < |b| && b[i].Pushed? && b[i].loc == loc && Deleted(loc) !in b[i + 1..];
      assert log[i + |a| + 1..] == b[i + 1..];
      assert log[i + |a|] == b[i];
    } else if Outstanding(a, loc) && Deleted(loc) !in b {
      var i :| 0 <= i < |a| && a[i].Pushed? && a[i].loc == loc && Deleted(loc) !in a[i + 1..];
      assert log[i + 1..] == a[i + 1..] + b;
      assert log[i] == a[i];
    }
  }

  lemma OutstandingPushes(log: Log, loc: Loc)
    requires OnlyPushes(log)
    ensures Outstanding(log, loc) <==> PushedIn(log, loc)
    ensures Deleted(loc) !in log
  {
  }

  lemma {:induction false} ReplayConcat(c: Contents, a: Log, b: Log)
    ensures Replay(c, a + b) == Replay(Replay(c, a), b)
  {
    if b == [] {
      assert a + b == a;
    } else {
      ReplayConcat(c, a, b[..|b| - 1]);
      assert (a + b)[..|a + b| - 1] == a + b[..|b| - 1];
    }
  }

  /** The provider holds what is outstanding, and what it held before and nothing deleted. */
  lemma {:induction false} ReplayKeys(c: Contents, log: Log, loc: Loc)
    ensures loc in Replay(c, log) <==> Outstanding(log, loc) || (loc in c && Deleted(loc) !in log)
  {
    if log != [] {
      var front, last := log[..|log| - 1], log[|log| - 1..];
      assert log == front + last;
      ReplayKeys(c, front, loc);
      OutstandingConcat(front, last, loc);
      assert last == [log[|log| - 1]];
      assert last[1..] == [];
      if log[|log| - 1].Pushed? && log[|log| - 1].loc == loc {
        assert last[0].loc == loc && Deleted(loc) !in last[1..];
      }
    }
  }

  // ---------------------------------------------------------------- status maps

  ghost predicate Recorded(m: Synced, loc: Loc) {
    StoreKey(loc.store) in m && loc.key in m[StoreKey(loc.store)]
  }

  /** mergeSecretState: both maps' entries, the old one's where they meet. */
  function Merge(newMap: Synced, prev: Synced): Synced {
    map k | k in newMap.Keys + prev.Keys ::
      if k !in prev then newMap[k]
      else if k !in newMap then prev[k]
      else newMap[k] + prev[k]
  }

  /** The entries of `data` by remote key, a later entry replacing an earlier one. */
  function ByRemoteKey(data: seq<PushData>): map<string, PushData> {
    if data == [] then map[]
    else ByRemoteKey(data[..|data| - 1])[data[|data| - 1].remoteKey := data[|data| - 1]]
  }

  function StoreKeys(stores: set<StoreRef>): set<string> {
    set ref <- stores :: StoreKey(ref)
  }

  function Wanted(stores: set<StoreRef>, data: seq<PushData>): Synced {
    map k <- StoreKeys(stores) :: ByRemoteKey(data)
  }

  /** Entry `i` is the last of `data` for its remote key. */
  ghost predicate IsLast(data: seq<PushData>, i: nat) {
    && i < |data|
    && forall j :: i < j < |data| ==> data[j].remoteKey != data[i].remoteKey
  }

  /** ByRemoteKey holds, for each remote key named, the last entry naming it. */
  lemma {:induction false} ByRemoteKeyLast(data: seq<PushData>, i: nat)
    requires IsLast(data, i)
    ensures data[i].remoteKey in ByRemoteKey(data) && ByRemoteKey(data)[data[i].remoteKey] == data[i]
  {
    var front := data[..|data| - 1];
    if i < |front| {
      assert data[|front|].remoteKey != data[i].remoteKey;
      ByRemoteKeyLast(front, i);
    }
  }

  lemma {:induction false} LastFor(data: seq<PushData>, key: string) returns (i: nat)
    requires exists j :: 0 <= j < |data| && data[j].remoteKey == key
    ensures IsLast(data, i) && data[i].remoteKey == key
  {
    var n := |data| - 1;
    if data[n].remoteKey == key {
      i := n;
    } else {
      i := LastFor(data[..n], key);
    }
  }

  lemma {:induction false} ByRemoteKeyNames(data: seq<PushData>, key: string)
    ensures key in ByRemoteKey(data) <==> exists i :: 0 <= i < |data| && data[i].remoteKey == key
    ensures key in ByRemoteKey(data) ==> ByRemoteKey(data)[key].remoteKey == key
  {
    if data != [] {
      var n := |data| - 1;
      ByRemoteKeyNames(data[..n], key);
      assert forall i :: 0 <= i < n ==> data[..n][i] == data[i];
    }
  }

  // ---------------------------------------------------------------- the two phases

  /** Every place that entry `i` of `data` goes to. */
  ghost predicate Target(stores: set<StoreRef>, data: seq<PushData>, loc: Loc) {
    loc.store in stores && exists i :: 0 <= i < |data| && data[i].remoteKey == loc.key
  }

  /** Every entry up to `i` has a value in the Secret. */
  ghost predicate Reached(data: seq<PushData>, secret: SecretData, i: int) {
    0 <= i < |data| && forall j :: 0 <= j <= i ==> data[j].secretKey in secret
  }

  /** A target that is pushed before any entry without a value is met. */
  ghost predicate Reachable(stores: set<StoreRef>, data: seq<PushData>, secret: SecretData, loc: Loc) {
    loc.store in stores && exists i :: Reached(data, secret, i) && data[i].remoteKey == loc.key
  }

  ghost predicate EntryOf(data: seq<PushData>, secret: SecretData, i: int, e: Event)
    requires IsPush(e)
  {
    Reached(data, secret, i) && data[i].remoteKey == e.loc.key && e.value == secret[data[i].secretKey]
  }

  ghost predicate PushOf(stores: set<StoreRef>, data: seq<PushData>, secret: SecretData, e: Event) {
    && e.loc.store in stores
    && (e.NoClient? || (IsPush(e) && exists i :: EntryOf(data, secret, i, e)))
  }

  /** Only pushes of entries to stores, none past an entry without a value; a rejected one ends the phase. */
  ghost predicate PushCalls(stores: set<StoreRef>, data: seq<PushData>, secret: SecretData, calls: Log, ok: bool) {
    && (forall i :: 0 <= i < |calls| ==> PushOf(stores, data, secret, calls[i]))
    && (forall i :: 0 <= i < |calls| && (calls[i].PushRejected? || calls[i].NoClient?) ==> !ok && i == |calls| - 1)
  }

  ghost predicate Untouched(calls: Log, ref: StoreRef) {
    forall i :: 0 <= i < |calls| ==> calls[i].loc.store != ref
  }

  /** Every entry was pushed to the store. */
  ghost predicate Complete(ref: StoreRef, data: seq<PushData>, secret: SecretData, calls: Log) {
    forall d <- data :: d.secretKey in secret && Pushed(Loc(ref, d.remoteKey), secret[d.secretKey]) in calls
  }

  ghost predicate LastRejected(calls: Log, ref: StoreRef) {
    && calls != [] && calls[|calls| - 1].loc.store == ref
    && !calls[|calls| - 1].Pushed? && !calls[|calls| - 1].Deleted?
  }

  /** Why pushing to a store stops: no client, or the first entry not pushed has no value or was rejected. */
  ghost predicate StopsAt(ref: StoreRef, data: seq<PushData>, secret: SecretData, calls: Log) {
    NoClientFor(calls, ref) || exists n :: StopsAtEntry(ref, data, secret, calls, n)
  }

  ghost predicate NoClientFor(calls: Log, ref: StoreRef) {
    calls != [] && calls[|calls| - 1] == NoClient(Loc(ref, "")) && Untouched(calls[..|calls| - 1], ref)
  }

  ghost predicate StopsAtEntry(ref: StoreRef, data: seq<PushData>, secret: SecretData, calls: Log, n: int) {
    && 0 <= n < |data| && Complete(ref, data[..n], secret, calls)
    && var d := data[n];
       if d.secretKey in secret
       then calls != [] && calls[|calls| - 1] == PushRejected(Loc(ref, d.remoteKey), secret[d.secretKey])
       else Untouched(calls, ref) || calls[|calls| - 1].Pushed?
  }

  /** Pushing stopped at store `last`; the others were done or not begun. */
  ghost predicate StoppedAt(stores: set<StoreRef>, data: seq<PushData>, secret: SecretData,
                            calls: Log, last: StoreRef) {
    && last in stores && StopsAt(last, data, secret, calls)
    && forall ref <- stores | ref != last :: Untouched(calls, ref) || Complete(ref, data, secret, calls)
  }

  /** The provider ends with the value of the last entry for each remote key. */
  ghost predicate HoldsLast(c: Contents, stores: set<StoreRef>, data: seq<PushData>, secret: SecretData) {
    forall ref <- stores, i: nat | IsLast(data, i) ::
      && data[i].secretKey in secret
      && Loc(ref, data[i].remoteKey) in c
      && c[Loc(ref, data[i].remoteKey)] == secret[data[i].secretKey]
  }

  /** PushSecretToProviders: the calls made, the map returned and whether it succeeded. */
  ghost predicate PushPhase(stores: set<StoreRef>, data: seq<PushData>, secret: SecretData,
                            calls: Log, out: Synced, ok: bool) {
    && PushCalls(stores, data, secret, calls, ok)
    && WellKeyed(out)
    && (forall loc: Loc | ValidRef(loc.store) :: Recorded(out, loc) <==> PushedIn(calls, loc))
    && (ok ==> out == Wanted(stores, data) && HoldsLast(Replay(map[], calls), stores, data, secret))
    && (if ok then forall ref <- stores :: Complete(ref, data, secret, calls)
        else exists last :: StoppedAt(stores, data, secret, calls, last))
  }

  /** A call for a stale entry, or a failed one for the client of a recorded store. */
  ghost predicate PruneOf(prev: Synced, newMap: Synced, e: Event) {
    && ValidRef(e.loc.store)
    && if e.NoClient? then StoreKey(e.loc.store) in prev
       else IsDelete(e) && Recorded(prev, e.loc) && !Recorded(newMap, e.loc)
  }

  /** Every entry of `m` is the one that `of` has there. */
  ghost predicate Within(m: Synced, of: Synced) {
    forall k <- m :: k in of && forall e <- m[k] :: e in of[k] && m[k][e] == of[k][e]
  }

  /** Only stale entries are deleted; a failed call ends the prune. */
  ghost predicate PruneCalls(prev: Synced, newMap: Synced, calls: Log, ok: bool) {
    forall i :: 0 <= i < |calls| ==>
      && (calls[i].Deleted? || (!ok && i == |calls| - 1))
      && PruneOf(prev, newMap, calls[i])
  }

  /** `out` is part of the merged map and covers the new one and whatever was not deleted. */
  ghost predicate Covers(prev: Synced, newMap: Synced, calls: Log, out: Synced) {
    && WellKeyed(out) && Within(out, Merge(newMap, prev))
    && (forall loc: Loc | ValidRef(loc.store) ::
          && (Recorded(newMap, loc) ==> Recorded(out, loc))
          && (Recorded(prev, loc) && Deleted(loc) !in calls ==> Recorded(out, loc))
          && (Recorded(out, loc) ==> Recorded(newMap, loc) || Recorded(prev, loc)))
  }

  /** Why pruning stops: there is no client for a recorded store, or a delete of its entries was rejected. */
  ghost predicate PruneStops(prev: Synced, calls: Log, ref: StoreRef) {
    ValidRef(ref) && StoreKey(ref) in prev && LastRejected(calls, ref)
  }

  /** A deleted entry stays recorded only if its whole store was being dropped when a delete was rejected. */
  ghost predicate DroppingFailed(newMap: Synced, calls: Log, ref: StoreRef) {
    StoreKey(ref) !in newMap && LastRejected(calls, ref) && calls[|calls| - 1].DeleteRejected?
  }

  /** DeleteSecretFromProviders: the calls made, the map returned and whether it succeeded. */
  ghost predicate PrunePhase(prev: Synced, newMap: Synced, calls: Log, out: Synced, ok: bool) {
    && PruneCalls(prev, newMap, calls, ok) && Covers(prev, newMap, calls, out)
    && (!ok ==> exists ref :: PruneStops(prev, calls, ref))
    && (forall loc: Loc | ValidRef(loc.store) && Deleted(loc) in calls && Recorded(out, loc) ::
          !ok && DroppingFailed(newMap, calls, loc.store))
    && (ok ==>
          && SameKeys(out, newMap)
          && forall loc: Loc | ValidRef(loc.store) && Recorded(prev, loc) && !Recorded(newMap, loc) ::
               Deleted(loc) in calls)
  }

  ghost predicate SameKeys(a: Synced, b: Synced) {
    a.Keys == b.Keys && forall k <- a :: a[k].Keys == b[k].Keys
  }

  // ---------------------------------------------------------------- one reconcile

  datatype Policy = Delete | Keep

  /** The part of the object and its cluster that a user controls. */
  datatype Spec = Spec(policy: Policy, stores: set<StoreRef>, data: seq<PushData>, secret: SecretData)

  ghost predicate ValidSpec(spec: Spec) {
    forall ref <- spec.stores :: ValidRef(ref)
  }

  datatype State = State(
    alive: bool,             // the object exists
    deleting: bool,          // it has a deletion timestamp
    finalizer: bool,         // it carries this controller's finalizer
    foreignFinalizer: bool,  // it carries someone else's
    spec: Spec,
    status: Synced,
    contents: Contents,
    log: Log)

  datatype Outcome =
    | NotFound
    | FinalizerAdded
    | FinalizerUpdateFailed
    | CleanupFailed
    | CleanupDone
    | ReadFailed
    | PushFailed
    | PruneFailed
    | SyncDone

  /** The branch that cleans up because the object is being deleted. */
  ghost predicate CleansUp(s: State) {
    s.spec.policy.Delete? && s.deleting && s.finalizer
  }

  /** The branches that go on to read the Secret and push. */
  ghost predicate Pushes(s: State) {
    s.spec.policy.Keep? || (s.deleting != s.finalizer)
  }

  /** The fields of `s` that no reconcile changes, and the log as `s.log` extended by `calls`. */
  ghost predicate Extends(s: State, s': State, calls: Log) {
    && s'.deleting == s.deleting && s'.foreignFinalizer == s.foreignFinalizer && s'.spec == s.spec
    && s'.log == s.log + calls
    && s'.contents == Replay(s.contents, calls)
  }

  ghost predicate ReconcileStep(s: State, s': State, outcome: Outcome) {
    match outcome
    case NotFound => !s.alive && s' == s
    case FinalizerAdded =>
      s.alive && s.spec.policy.Delete? && !s.deleting && !s.finalizer && s' == s.(finalizer := true)
    case FinalizerUpdateFailed =>
      && s.alive && s.spec.policy.Delete?
      && ((!s.deleting && !s.finalizer && s' == s) || (CleansUp(s) && CleanupThen(s, s', s.status, true, true)))
    case CleanupFailed => s.alive && CleansUp(s) && CleanupThen(s, s', s'.status, true, false)
    case CleanupDone => s.alive && CleansUp(s) && CleanupThen(s, s', s.status, false, true)
    case ReadFailed => s.alive && Pushes(s) && s' == s
    case PushFailed =>
      && s.alive && Pushes(s)
      && exists calls: Log, synced: Synced :: PushFailedThen(s, s', calls, synced)
    case PruneFailed =>
      && s.alive && Pushes(s) && s.spec.policy.Delete?
      && exists pushes: Log, prunes: Log :: PruneThen(s, s', pushes, prunes, s'.status, false)
    case SyncDone =>
      && s.alive && Pushes(s)
      && s'.status == Wanted(s.spec.stores, s.spec.data)
      && exists pushes: Log, prunes: Log, out: Synced ::
           PruneThen(s, s', pushes, prunes, out, true) && (s.spec.policy.Keep? ==> prunes == [])
  }

  /** A cleanup with an empty map, then the status `out` (or the old one) and the finalizer kept or removed. */
  ghost predicate CleanupThen(s: State, s': State, status: Synced, finalizer: bool, ok: bool) {
    && |s.log| <= |s'.log|
    && var calls := s'.log[|s.log|..];
    && Extends(s, s', calls)
    && s'.finalizer == finalizer
    && s'.alive == (finalizer || s.foreignFinalizer)
    && s'.status == status
    && exists out: Synced :: PrunePhase(s.status, map[], calls, out, ok) && (ok || status == out)
  }

  ghost predicate PushFailedThen(s: State, s': State, calls: Log, synced: Synced) {
    && Extends(s, s', calls) && s'.alive && s'.finalizer == s.finalizer
    && PushPhase(s.spec.stores, s.spec.data, s.spec.secret, calls, synced, false)
    && s'.status == Merge(synced, s.status)
  }

  ghost predicate PruneThen(s: State, s': State, pushes: Log, prunes: Log, out: Synced, ok: bool) {
    var wanted := Wanted(s.spec.stores, s.spec.data);
    && Extends(s, s', pushes + prunes) && s'.alive && s'.finalizer == s.finalizer
    && PushPhase(s.spec.stores, s.spec.data, s.spec.secret, pushes, wanted, true)
    && (s.spec.policy.Delete? ==> PrunePhase(s.status, wanted, prunes, out, ok))
  }
}
