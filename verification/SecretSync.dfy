/** The ExternalSecret reconcile around its hash-guarded skip, over every run. */
module SecretSync {
  import opened Common
  import opened DataHash

  type Hash = SecretData -> string

  datatype CreationPolicy = Owner | Orphan
  datatype DeletionPolicy = Delete | Merge | Retain

  datatype Spec = Spec(
    targetName: string,
    refreshInterval: nat,
    creationPolicy: CreationPolicy,
    deletionPolicy: DeletionPolicy,
    immutable: bool)

  /** The synced resource version: the generation and a hash of the annotations and labels. */
  datatype Version = Version(generation: nat, metaHash: string)

  datatype Status = Status(syncedVersion: Option<Version>, refreshTime: Option<int>, synced: bool)

  datatype ExternalSecret = ExternalSecret(
    name: string,
    generation: nat,
    annotations: map<string, string>,
    metaHash: string,
    spec: Spec,
    status: Status)

  const DATA_HASH := "reconcile.external-secrets.io/data-hash"

  datatype Secret = Secret(data: SecretData, annotations: map<string, string>)

  /** The data-hash annotation, if there is one. */
  function HashOf(s: Secret): Option<string> {
    if DATA_HASH in s.annotations then Some(s.annotations[DATA_HASH]) else None
  }

  datatype State = State(es: ExternalSecret, secrets: map<string, Secret>)

  function VersionOf(es: ExternalSecret): Version {
    Version(es.generation, es.metaHash)
  }

  predicate ShouldRefresh(es: ExternalSecret, now: int) {
    if es.status.syncedVersion != Some(VersionOf(es)) then true
    else if es.spec.refreshInterval == 0 && es.status.syncedVersion.Some? then false
    else if es.status.refreshTime.None? then true
    else es.status.refreshTime.value + es.spec.refreshInterval < now
  }

  predicate ShouldReconcile(es: ExternalSecret) {
    !(es.spec.immutable && es.status.synced)
  }

  predicate IsSecretValid(hash: Hash, existing: Option<Secret>) {
    existing.Some? && HashOf(existing.value) == Some(hash(existing.value.data))
  }

  // ---------------------------------------------------------------- one reconcile

  /**
    What a reconcile meets: the clock, what the providers return, and whether the API server lets
    it read, write and delete the target and patch the status.
   */
  datatype Inputs = Inputs(
    now: int,
    fetched: Result<SecretData>,
    readable: bool,
    writable: bool,
    deletable: bool,
    patchable: bool)

  datatype Outcome =
    | Skipped
    | Stopped
    | FetchFailed
    | PolicyRefused
    | TargetDeleted
    | Retained
    | WriteFailed
    | Synced(target: string, generation: nat, data: SecretData)

  /** The target's name: the one in the spec, else the object's. */
  ghost function Target(es: ExternalSecret): string {
    if es.spec.targetName != "" then es.spec.targetName else es.name
  }

  /** This very generation and metadata were synced, and not longer ago than the interval, if there is one. */
  ghost predicate InDate(es: ExternalSecret, now: int) {
    && es.status.syncedVersion == Some(Version(es.generation, es.metaHash))
    && (es.spec.refreshInterval > 0 ==>
          es.status.refreshTime.Some? && now <= es.status.refreshTime.value + es.spec.refreshInterval)
  }

  /** The Secret carries the hash of the data it holds. */
  ghost predicate Intact(hash: Hash, s: Secret) {
    DATA_HASH in s.annotations && s.annotations[DATA_HASH] == hash(s.data)
  }

  ghost predicate Skips(hash: Hash, s: State, inp: Inputs) {
    var t := Target(s.es);
    InDate(s.es, inp.now) && inp.readable && t in s.secrets && Intact(hash, s.secrets[t])
  }

  /** The outcome follows from the object, the target and the inputs. */
  ghost predicate Routed(hash: Hash, s: State, inp: Inputs, outcome: Outcome) {
    if Skips(hash, s, inp) then outcome.Skipped?
    else if s.es.spec.immutable && s.es.status.synced then outcome.Stopped?
    else if inp.fetched.Err? then outcome.FetchFailed?
    else if inp.fetched.value == map[] && s.es.spec.deletionPolicy.Retain? then outcome.Retained?
    else if inp.fetched.value == map[] && s.es.spec.deletionPolicy.Delete? then
      if s.es.spec.creationPolicy.Owner? then outcome.TargetDeleted? else outcome.PolicyRefused?
    else if !inp.writable || !AcceptedKeys(inp.fetched.value) then outcome.WriteFailed?
    else outcome == Synced(Target(s.es), s.es.generation, inp.fetched.value)
  }

  ghost predicate StatusAfter(s: State, s': State, outcome: Outcome, inp: Inputs) {
    var failed := s.es.status.(synced := false);
    var version := Some(Version(s.es.generation, s.es.metaHash));
    var written := if outcome.Synced? then Status(version, Some(inp.now), true) else failed;
    s'.es == if inp.patchable then s.es.(status := written) else s.es
  }

  /** The Secret after a write: what others annotated, then the object's annotations, then the hash. */
  ghost function Written(hash: Hash, s: State, target: string, data: SecretData): Secret {
    var before := if target in s.secrets then s.secrets[target].annotations else map[];
    Secret(data, (before + s.es.annotations)[DATA_HASH := hash(data)])
  }

  /** A whole reconcile. The status it writes is lost if it cannot be patched. */
  ghost predicate Step(hash: Hash, s: State, s': State, inp: Inputs, outcome: Outcome) {
    && Routed(hash, s, inp, outcome)
    && match outcome {
         case Skipped => s' == s
         case Stopped => s' == s
         case Retained => s' == s
         case TargetDeleted =>
           && s'.secrets == (if inp.deletable then s.secrets - {Target(s.es)} else s.secrets)
           && StatusAfter(s, s', outcome, inp)
         case Synced(target, _, data) =>
           && AcceptedKeys(data)
           && s'.secrets == s.secrets[target := Written(hash, s, target, data)]
           && StatusAfter(s, s', outcome, inp)
         case _ => s'.secrets == s.secrets && StatusAfter(s, s', outcome, inp)
       }
  }

  lemma SkippedStep(hash: Hash, s: State, inp: Inputs)
    requires Skips(hash, s, inp)
    ensures Step(hash, s, s, inp, Skipped)
  {
  }

  /** The API server's view of the ExternalSecret and of the Secrets in its namespace. */
  class Cluster {
    var es: ExternalSecret
    var secrets: map<string, Secret>

    constructor (es: ExternalSecret, secrets: map<string, Secret>)
      ensures this.es == es && this.secrets == secrets
    {
      this.es, this.secrets := es, secrets;
    }

    /** The deferred status patch, whose failure is only logged. */
    method PatchStatus(status: Status, patchable: bool)
      modifies this`es
      ensures es == if patchable then old(es).(status := status) else old(es)
    {
      if patchable {
        es := es.(status := status);
      }
    }

    /** CreateOrUpdate with applyTemplate and no template; the API server checks the keys. */
    method CreateOrUpdate(hash: Hash, name: string, dataMap: SecretData, writable: bool) returns (ok: bool)
      modifies this`secrets
      ensures ok <==> writable && AcceptedKeys(dataMap)
      ensures ok ==> secrets == old(secrets)[name := old(Written(hash, State(es, secrets), name, dataMap))]
      ensures !ok ==> secrets == old(secrets)
    {
      var secret := if name in secrets then secrets[name] else Secret(map[], map[]);
      secret := secret.(annotations := secret.annotations + es.annotations);
      secret := secret.(data := dataMap);
      secret := secret.(annotations := secret.annotations[DATA_HASH := hash(secret.data)]);
      ok := writable && AcceptedKeys(secret.data);
      if ok {
        secrets := secrets[name := secret];
      }
    }

    /** Reconcile, once past the store checks. */
    method Reconcile(hash: Hash, inp: Inputs) returns (outcome: Outcome)
      modifies this
      ensures Step(hash, old(State(es, secrets)), State(es, secrets), inp, outcome)
    {
      hide Step;
      ghost var s := State(es, secrets);
      var target := es.spec.targetName;
      if target == "" {
        target := es.name;
      }
      var existing := if inp.readable && target in secrets then Some(secrets[target]) else None;
      if !ShouldRefresh(es, inp.now) && IsSecretValid(hash, existing) {
        SkippedStep(hash, s, inp);
        return Skipped;
      }
      outcome := Refresh(hash, inp, target);
    }

    /** The rest of Reconcile, when it does not skip. */
    method Refresh(hash: Hash, inp: Inputs, target: string) returns (outcome: Outcome)
      requires target == Target(es) && !Skips(hash, State(es, secrets), inp)
      modifies this
      ensures Step(hash, old(State(es, secrets)), State(es, secrets), inp, outcome)
    {
      hide Skips, AcceptedKeys, Written;
      if !ShouldReconcile(es) {
        return Stopped;
      }
      if inp.fetched.Err? {
        PatchStatus(es.status.(synced := false), inp.patchable);
        return FetchFailed;
      }
      var dataMap := inp.fetched.value;
      if |dataMap| == 0 {
        match es.spec.deletionPolicy {
          case Delete =>
            if !es.spec.creationPolicy.Owner? {
              PatchStatus(es.status.(synced := false), inp.patchable);
              return PolicyRefused;
            }
            if inp.deletable {
              secrets := secrets - {target};
            }
            PatchStatus(es.status.(synced := false), inp.patchable);
            return TargetDeleted;
          case Merge =>
          case Retain =>
            return Retained;
        }
      }
      outcome := Write(hash, inp, target, dataMap);
    }

    method Write(hash: Hash, inp: Inputs, target: string, dataMap: SecretData) returns (outcome: Outcome)
      modifies this
      ensures StatusAfter(old(State(es, secrets)), State(es, secrets), outcome, inp)
      ensures if inp.writable && AcceptedKeys(dataMap)
              then outcome == Synced(target, old(es.generation), dataMap)
                   && secrets == old(secrets)[target := old(Written(hash, State(es, secrets), target, dataMap))]
              else outcome == WriteFailed && secrets == old(secrets)
    {
      var written := CreateOrUpdate(hash, target, dataMap, inp.writable);
      if !written {
        PatchStatus(es.status.(synced := false), inp.patchable);
        return WriteFailed;
      }
      PatchStatus(Status(Some(VersionOf(es)), Some(inp.now), true), inp.patchable);
      return Synced(target, es.generation, dataMap);
    }
  }

  // ---------------------------------------------------------------- runs

  datatype Label = Outside | Reconciled(inp: Inputs, outcome: Outcome)

  ghost predicate Accepted(s: State) {
    forall n <- s.secrets :: AcceptedKeys(s.secrets[n].data)
  }

  /**
    Anything but this controller: spec edits, each a new generation; metadata edits; edits of
    Secrets' data, and deleting Secrets or annotations. Nobody else writes the hash annotation.
   */
  ghost predicate OutsideStep(s: State, s': State) {
    && s'.es.name == s.es.name && s'.es.status == s.es.status
    && s.es.generation <= s'.es.generation
    && (s'.es.generation == s.es.generation ==> s'.es.spec == s.es.spec)
    && Accepted(s')
    && (forall n <- s'.secrets | HashOf(s'.secrets[n]).Some? ::
          n in s.secrets && HashOf(s'.secrets[n]) == HashOf(s.secrets[n]))
  }

  ghost predicate LabelledStep(hash: Hash, s: State, s': State, l: Label) {
    match l
    case Outside => OutsideStep(s, s')
    case Reconciled(inp, outcome) => Step(hash, s, s', inp, outcome)
  }

  /** `labels[i]` leads from `run[i]` to `run[i + 1]`; the object starts never synced. */
  ghost predicate Run(hash: Hash, run: seq<State>, labels: seq<Label>) {
    && |run| == |labels| + 1
    && run[0].es.status.syncedVersion.None? && Accepted(run[0])
    && forall i :: 0 <= i < |labels| ==> LabelledStep(hash, run[i], run[i + 1], labels[i])
  }

  /** The outcome of the latest successful sync. */
  ghost function LatestSync(labels: seq<Label>): (latest: Option<Outcome>)
    ensures latest.Some? ==> latest.value.Synced?
  {
    if labels == [] then None
    else
      var l := labels[|labels| - 1];
      if l.Reconciled? && l.outcome.Synced? then Some(l.outcome) else LatestSync(labels[..|labels| - 1])
  }

  /** What ties the recorded version and the hash annotation to the latest sync. */
  ghost predicate Tied(hash: Hash, s: State, latest: Option<Outcome>)
    requires latest.Some? ==> latest.value.Synced?
  {
    var recorded := s.es.status.syncedVersion;
    && (recorded.Some? ==> latest.Some? && recorded.value.generation <= latest.value.generation)
    && (latest.Some? ==>
          var last := latest.value;
          && last.generation <= s.es.generation
          && (last.generation == s.es.generation ==> last.target == Target(s.es))
          && (last.target in s.secrets && HashOf(s.secrets[last.target]).Some? ==>
                HashOf(s.secrets[last.target]) == Some(hash(last.data))))
  }

  lemma {:induction false} TiedAlongRuns(hash: Hash, run: seq<State>, labels: seq<Label>, n: nat)
    requires Run(hash, run, labels) && n <= |labels|
    ensures Tied(hash, run[n], LatestSync(labels[..n])) && Accepted(run[n])
  {
    if n > 0 {
      TiedAlongRuns(hash, run, labels, n - 1);
      assert labels[..n][..n - 1] == labels[..n - 1];
      assert LabelledStep(hash, run[n - 1], run[n], labels[n - 1]);
    }
  }

  ghost predicate Holds(s: State, name: string, d: SecretData) {
    name in s.secrets && s.secrets[name].data == d
  }

  ghost predicate Occurs(run: seq<State>, d: SecretData) {
    exists i, name :: 0 <= i < |run| && Holds(run[i], name, d)
  }

  lemma {:induction false} SyncedDataOccurs(hash: Hash, run: seq<State>, labels: seq<Label>, n: nat)
    requires Run(hash, run, labels) && n <= |labels| && LatestSync(labels[..n]).Some?
    ensures Occurs(run, LatestSync(labels[..n]).value.data) && AcceptedKeys(LatestSync(labels[..n]).value.data)
  {
    var l := labels[n - 1];
    assert labels[..n][..n - 1] == labels[..n - 1];
    assert LabelledStep(hash, run[n - 1], run[n], l);
    if l.Reconciled? && l.outcome.Synced? {
      assert Holds(run[n], l.outcome.target, l.outcome.data);
    } else {
      SyncedDataOccurs(hash, run, labels, n - 1);
    }
  }

  /** `hash` is ObjectHash: a digest of the printed data. */
  ghost predicate ObjectHash(hash: Hash, sprint: SecretData -> string, digest: string -> string) {
    forall m: SecretData :: Prints(m, sprint(m)) && hash(m) == digest(sprint(m))
  }

  /** No two texts printed for data of the run have the same digest. */
  ghost predicate NoCollision(sprint: SecretData -> string, digest: string -> string, run: seq<State>) {
    forall c, d | Occurs(run, c) && Occurs(run, d) :: digest(sprint(c)) == digest(sprint(d)) ==> sprint(c) == sprint(d)
  }

  /**
    The skip is sound: along every run, a reconcile that skips or syncs leaves the target's data
    equal to the map of the latest successful sync, whatever was edited or deleted in between.
   */
  lemma SkipIsSound(
      hash: Hash, sprint: SecretData -> string, digest: string -> string, run: seq<State>, labels: seq<Label>, n: nat)
    requires ObjectHash(hash, sprint, digest) && NoCollision(sprint, digest, run)
    requires Run(hash, run, labels) && n < |labels|
    requires labels[n].Reconciled? && (labels[n].outcome.Skipped? || labels[n].outcome.Synced?)
    ensures var latest := LatestSync(labels[..n + 1]);
            && latest.Some? && latest.value.target == Target(run[n + 1].es)
            && Holds(run[n + 1], Target(run[n + 1].es), latest.value.data)
  {
    var s, t := run[n], Target(run[n].es);
    assert labels[..n + 1][..n] == labels[..n];
    assert LabelledStep(hash, s, run[n + 1], labels[n]);
    TiedAlongRuns(hash, run, labels, n);
    if labels[n].outcome.Skipped? {
      var held, last := s.secrets[t].data, LatestSync(labels[..n]).value.data;
      SyncedDataOccurs(hash, run, labels, n);
      assert Holds(s, t, held);
      PrintedTextIdentifies(held, last, sprint(held));
    }
  }

  // ---------------------------------------------------------------- freshness

  /** The recorded version and refresh time are those of one earlier sync. */
  lemma {:induction false} StatusIsOfASync(hash: Hash, run: seq<State>, labels: seq<Label>, n: nat) returns (i: nat)
    requires Run(hash, run, labels) && n <= |labels| && run[n].es.status.syncedVersion.Some?
    ensures i < n && labels[i].Reconciled? && labels[i].outcome.Synced?
    ensures run[n].es.status.refreshTime == Some(labels[i].inp.now)
    ensures run[n].es.status.syncedVersion == Some(Version(run[i].es.generation, run[i].es.metaHash))
  {
    var s, s', l := run[n - 1], run[n], labels[n - 1];
    assert LabelledStep(hash, s, s', l);
    if l.Reconciled? && l.outcome.Synced? && l.inp.patchable {
      i := n - 1;
    } else {
      i := StatusIsOfASync(hash, run, labels, n - 1);
    }
  }

  /**
    A skip is never stale: with a positive interval, what it leaves in place was synced, for this
    very generation and metadata, at most the interval ago.
   */
  lemma SkipIsFresh(hash: Hash, run: seq<State>, labels: seq<Label>, n: nat) returns (i: nat)
    requires Run(hash, run, labels) && n < |labels|
    requires labels[n].Reconciled? && labels[n].outcome.Skipped?
    ensures i < n && labels[i].Reconciled? && labels[i].outcome.Synced?
    ensures run[i].es.generation == run[n].es.generation && run[i].es.metaHash == run[n].es.metaHash
    ensures run[n].es.spec.refreshInterval > 0 ==>
              labels[n].inp.now <= labels[i].inp.now + run[n].es.spec.refreshInterval
  {
    assert LabelledStep(hash, run[n], run[n + 1], labels[n]);
    i := StatusIsOfASync(hash, run, labels, n);
  }

  /**
    A skip happens when it should: right after a sync whose status was kept, a reconcile that finds
    the object and the target as they were skips, for ever without an interval and until it has
    passed with one; afterwards it does not.
   */
  lemma SkipsUntilDue(hash: Hash, s: State, s1: State, s2: State, inp: Inputs, outcome: Outcome, inp': Inputs,
                      outcome': Outcome)
    requires Step(hash, s, s1, inp, outcome) && outcome.Synced? && inp.patchable
    requires Step(hash, s1, s2, inp', outcome') && inp'.readable
    ensures outcome'.Skipped? <==>
            s.es.spec.refreshInterval == 0 || inp'.now <= inp.now + s.es.spec.refreshInterval
  {
  }
}
