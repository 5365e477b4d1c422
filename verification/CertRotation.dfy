/**
  Rotation of the webhook certificates. Certificates are abstract: a key, the key that signed
  it, a name and a validity interval (section 4.1.2.5 of RFC 5280). Times are in seconds.
 */
module CertRotation {
  import opened Common

  const HOUR := 3600
  const DAY := 24 * HOUR
  const CERT_VALIDITY := 10 * 365 * DAY
  const LOOKAHEAD := 90 * DAY

  type Key = nat

  datatype Cert = Cert(key: Key, signer: Key, isCA: bool, dnsName: string, notBefore: int, notAfter: int)

  /** An entry of the Secret: not there, there but unreadable, or the PEM of a value. */
  datatype Pem<+T> = Missing | Malformed | Holds(value: T)

  datatype CertSecret = CertSecret(caCert: Pem<Cert>, caKey: Pem<Key>, cert: Pem<Cert>, key: Pem<Key>)

  /** The conversion webhook of a CRD; None where the client config is not complete. */
  datatype Crd = Crd(service: Option<Service>, caBundle: Pem<Cert>)

  datatype Service = Service(name: string, namespace: string)

  datatype Names = Names(ca: string, svc: string, svcNamespace: string) {
    function Dns(): string {
      svc + "." + svcNamespace + ".svc"
    }
  }

  predicate Within(c: Cert, at: int) {
    c.notBefore <= at <= c.notAfter
  }

  /** x509 verification of `cert` with `ca` as the only root. */
  predicate ValidCert(ca: Pem<Cert>, cert: Pem<Cert>, key: Pem<Key>, dnsName: string, at: int) {
    && ca.Holds? && cert.Holds? && key.Holds?
    && cert.value.key == key.value
    && (cert.value == ca.value || (ca.value.isCA && cert.value.signer == ca.value.key))
    && cert.value.dnsName == dnsName
    && Within(ca.value, at) && Within(cert.value, at)
  }

  predicate ValidCA(names: Names, s: CertSecret, at: int) {
    ValidCert(s.caCert, s.caCert, s.caKey, names.ca, at)
  }

  predicate ValidServer(names: Names, s: CertSecret, at: int) {
    ValidCert(s.caCert, s.cert, s.key, names.Dns(), at)
  }

  /** validCACert and validServerCert at `now`, which look ahead. */
  predicate CAPasses(names: Names, s: CertSecret, now: int) {
    ValidCA(names, s, now + LOOKAHEAD)
  }

  predicate ServerPasses(names: Names, s: CertSecret, now: int) {
    ValidServer(names, s, now + LOOKAHEAD)
  }

  function NewCA(names: Names, key: Key, now: int): Cert {
    Cert(key, key, true, names.ca, now - HOUR, now + CERT_VALIDITY)
  }

  function NewServer(names: Names, key: Key, caKey: Key, now: int): Cert {
    Cert(key, caKey, false, names.Dns(), now - HOUR, now + CERT_VALIDITY)
  }

  // ---------------------------------------------------------------- what the checks and certificates mean

  /** Ninety days on. */
  ghost function Ahead(t: int): int {
    t + 90 * 24 * 3600
  }

  ghost predicate InValidity(c: Cert, at: int) {
    c.notBefore <= at && at <= c.notAfter
  }

  /** The stored CA has its own key and name, and is valid at `at`. */
  ghost predicate GoodCA(names: Names, s: CertSecret, at: int) {
    && s.caCert.Holds? && s.caKey.Holds?
    && s.caCert.value.key == s.caKey.value && s.caCert.value.dnsName == names.ca
    && InValidity(s.caCert.value, at)
  }

  /** The stored server certificate is for the service, has the stored key and is signed by the stored CA. */
  ghost predicate ForService(names: Names, s: CertSecret) {
    && s.caCert.Holds? && s.cert.Holds? && s.key.Holds?
    && s.cert.value.dnsName == names.svc + "." + names.svcNamespace + ".svc"
    && s.cert.value.key == s.key.value
    && (s.cert.value == s.caCert.value || s.cert.value.signer == s.caCert.value.key)
  }

  ghost predicate GoodServer(names: Names, s: CertSecret, at: int) {
    && ForService(names, s)
    && (s.cert.value == s.caCert.value || s.caCert.value.isCA)
    && InValidity(s.caCert.value, at) && InValidity(s.cert.value, at)
  }

  // ---------------------------------------------------------------- one reconcile

  /** Both stored certificates were made by the controller at or before `now`, or are not there. */
  ghost predicate MadeHere(names: Names, s: CertSecret, now: int) {
    && (s.caCert.Holds? ==>
          s.caCert.value.notBefore <= now && s.caCert.value.isCA && s.caCert.value.dnsName == names.ca)
    && (s.cert.Holds? ==> s.cert.value.notBefore <= now)
  }

  /** What refreshCertIfNeeded may leave stored when it runs between `start` and `end`. */
  ghost predicate Refreshed(names: Names, s: CertSecret, s': CertSecret, start: int, end: int) {
    || Kept(names, s, s', start)
    || (exists t, caKey, key: Key :: NewPair(names, s', start, end, t, caKey, key) && CAFails(names, s, start, t))
    || (exists t, key: Key :: NewServerOnly(names, s, s', start, end, t, key))
  }

  ghost predicate CAFails(names: Names, s: CertSecret, start: int, t: int) {
    exists u | start <= u <= t :: !GoodCA(names, s, Ahead(u))
  }

  ghost predicate Kept(names: Names, s: CertSecret, s': CertSecret, start: int) {
    s' == s && exists t, u | start <= t <= u :: GoodCA(names, s, Ahead(t)) && GoodServer(names, s, Ahead(u))
  }

  ghost predicate NewPair(names: Names, s': CertSecret, start: int, end: int, t: int, caKey: Key, key: Key) {
    && start <= t <= end
    && s'.caCert == Holds(FreshCA(names, caKey, t)) && s'.caKey == Holds(caKey)
    && s'.cert == Holds(FreshServer(names, key, caKey, t)) && s'.key == Holds(key)
  }

  /** Made at `t`: valid from an hour before, for ten years. */
  ghost function FreshCA(names: Names, key: Key, t: int): Cert {
    Cert(key, key, true, names.ca, t - 3600, t + 10 * 365 * 24 * 3600)
  }

  ghost function FreshServer(names: Names, key: Key, caKey: Key, t: int): Cert {
    Cert(key, caKey, false, names.svc + "." + names.svcNamespace + ".svc", t - 3600, t + 10 * 365 * 24 * 3600)
  }

  ghost predicate NewServerOnly(names: Names, s: CertSecret, s': CertSecret, start: int, end: int, t: int, key: Key) {
    && start <= t <= end
    && s.caKey.Holds?
    && s' == s.(cert := Holds(FreshServer(names, key, s.caKey.value, t)), key := Holds(key))
    && exists u, v | start <= u <= v <= t :: GoodCA(names, s, Ahead(u)) && !GoodServer(names, s, Ahead(v))
  }

  /** The clock; it never goes back. */
  class Clock {
    var now: int

    constructor (now: int)
      ensures this.now == now
    {
      this.now := now;
    }

    method Now() returns (t: int)
      modifies this
      ensures old(now) <= now == t
    {
      var passed: nat :| true;
      now := now + passed;
      t := now;
    }
  }

  /** Whether the reads, the making of certificates, and the writes of the Secret and of the CRD succeed. */
  datatype Answers = Answers(read: bool, make: bool, write: bool, update: bool)

  const AllWell := Answers(true, true, true, true)

  /** The controller, with the Secret and the CRDs that the API server holds. */
  class Reconciler {
    const names: Names
    const crdResources: set<string>
    var secret: CertSecret
    var crds: map<string, Crd>
    var ready: map<string, bool>

    constructor (names: Names, crdResources: set<string>, secret: CertSecret, crds: map<string, Crd>)
      ensures this.names == names && this.crdResources == crdResources
      ensures this.secret == secret && this.crds == crds && ready == map[]
    {
      this.names, this.crdResources, this.secret, this.crds, ready := names, crdResources, secret, crds, map[];
    }

    /** refreshCerts: new certificates for `stored`, and whether they were written. */
    method RefreshCerts(clock: Clock, refreshCA: bool, stored: CertSecret, answers: Answers)
      returns (ok: bool, s: CertSecret, ghost t: int)
      modifies clock, this`secret
      ensures ok <==> answers.make && answers.write && (refreshCA || (stored.caCert.Holds? && stored.caKey.Holds?))
      ensures old(clock.now) <= t <= clock.now
      ensures ok ==> secret == s
      ensures !ok ==> secret == old(secret)
      ensures ok && refreshCA ==>
                exists caKey: Key, key: Key :: NewPair(names, s, old(clock.now), clock.now, t, caKey, key)
      ensures ok && !refreshCA ==> stored.caCert.Holds? && stored.caKey.Holds? && exists key: Key ::
                s == stored.(cert := Holds(FreshServer(names, key, stored.caKey.value, t)), key := Holds(key))
    {
      s := stored;
      var now := clock.Now();
      t := now;
      var caCert: Cert;
      var caKey: Key;
      if refreshCA {
        caKey :| true;
        caCert := NewCA(names, caKey, now);
      } else {
        if !stored.caCert.Holds? || !stored.caKey.Holds? {
          return false, stored, t;
        }
        caCert, caKey := stored.caCert.value, stored.caKey.value;
      }
      var key: Key :| true;
      if !answers.make {
        return false, stored, t;
      }
      s := CertSecret(Holds(caCert), Holds(caKey), Holds(NewServer(names, key, caKey, now)), Holds(key));
      assert refreshCA ==> NewPair(names, s, old(clock.now), clock.now, t, caKey, key);
      ok := answers.write;
      if ok {
        secret := s;
      }
    }

    method RefreshCertIfNeeded(clock: Clock, stored: CertSecret, answers: Answers) returns (ok: bool, s: CertSecret)
      modifies clock, this`secret
      requires stored == secret
      ensures old(clock.now) <= clock.now
      ensures ok ==> ForService(names, s) && s.caKey == Holds(s.caCert.value.key)
      ensures !ok ==> !answers.make || !answers.write
      ensures ok ==> secret == s && Refreshed(names, old(secret), s, old(clock.now), clock.now)
      ensures !ok ==> secret == old(secret)
    {
      s := stored;
      ghost var t;
      var now := clock.Now();
      ghost var u := now;
      if !CAPasses(names, stored, now) {
        ok, s, t := RefreshCerts(clock, true, stored, answers);
        if ok {
          ghost var caKey: Key, key: Key :| NewPair(names, s, u, clock.now, t, caKey, key);
          assert NewPair(names, s, old(clock.now), clock.now, t, caKey, key);
          assert !GoodCA(names, stored, Ahead(u));
          assert CAFails(names, stored, old(clock.now), t);
        }
        return;
      }
      now := clock.Now();
      ghost var v := now;
      if !ServerPasses(names, stored, now) {
        ok, s, t := RefreshCerts(clock, false, stored, answers);
        if ok {
          ghost var key: Key :|
            s == stored.(cert := Holds(FreshServer(names, key, stored.caKey.value, t)), key := Holds(key));
          assert u <= v <= t && GoodCA(names, stored, Ahead(u)) && !GoodServer(names, stored, Ahead(v));
          assert NewServerOnly(names, stored, s, old(clock.now), clock.now, t, key);
        }
        return;
      }
      assert GoodCA(names, stored, Ahead(u)) && GoodServer(names, stored, Ahead(v));
      assert Kept(names, stored, s, old(clock.now));
      return true, stored;
    }

    /** updateCRD: it succeeds only with the stored CA in the CRD's bundle. */
    method UpdateCRD(clock: Clock, name: string, answers: Answers) returns (ok: bool)
      modifies clock, this`secret, this`crds
      ensures ok ==> answers.read && answers.update && ForService(names, secret)
      ensures !ok ==> answers != AllWell || name !in old(crds) || old(crds)[name].service.None?
      ensures old(clock.now) <= clock.now
      ensures ok ==> Refreshed(names, old(secret), secret, old(clock.now), clock.now)
      ensures ok ==> name in old(crds) && old(crds)[name].service.Some?
      ensures ok ==> name in crds && crds[name] == WithBundle(names, secret)
      ensures ok ==> crds[name].service.value.name == names.svc
                     && crds[name].service.value.namespace == names.svcNamespace
      ensures !ok ==> secret == old(secret) || Refreshed(names, old(secret), secret, old(clock.now), clock.now)
      ensures !ok ==> crds == old(crds)
      ensures crds == old(crds) || (ok && name in old(crds) && crds == old(crds)[name := crds[name]])
    {
      if !answers.read || name !in crds || crds[name].service.None? {
        return false;
      }
      var s;
      ok, s := RefreshCertIfNeeded(clock, secret, answers);
      if !ok || !s.caCert.Holds? || !s.caKey.Holds? {
        return false;
      }
      ok := answers.update;
      if ok {
        crds := crds[name := Crd(Some(Service(names.svc, names.svcNamespace)), s.caCert)];
      }
    }

    method Reconcile(clock: Clock, name: string, answers: Answers) returns (ok: bool)
      modifies clock, this
      ensures !ok ==> answers != AllWell || name !in old(crds) || old(crds)[name].service.None?
      ensures StepOf(names, old(clock.now), old(Stored(secret, crds)), clock.now, Stored(secret, crds), name,
                     ok && name in crdResources)
      ensures ready == if name in crdResources then old(ready)[name := ok] else old(ready)
    {
      ok := true;
      if name in crdResources {
        ok := UpdateCRD(clock, name, answers);
        ready := ready[name := ok];
      }
    }
  }

  // ---------------------------------------------------------------- runs

  datatype Stored = Stored(secret: CertSecret, crds: map<string, Crd>)

  /**
    A reconcile of the CRD `name` from `now` to `now'`: a success needs the CRD with a service in
    its webhook, refreshed what needed it and put the stored CA in the bundle of this CRD; a
    failure may have refreshed and changed no CRD.
   */
  ghost predicate StepOf(names: Names, now: int, s: Stored, now': int, s': Stored, name: string, ok: bool) {
    && now <= now'
    && (Refreshed(names, s.secret, s'.secret, now, now') || (!ok && s'.secret == s.secret))
    && (ok ==> name in s.crds && s.crds[name].service.Some?)
    && s'.crds == if ok then s.crds[name := WithBundle(names, s'.secret)] else s.crds
  }

  ghost function WithBundle(names: Names, s: CertSecret): Crd {
    Crd(Some(Service(names.svc, names.svcNamespace)), s.caCert)
  }

  /** The server certificate chains to the CA and both are valid at every instant of an interval. */
  ghost predicate ServesThrough(names: Names, s: CertSecret, from: int, until: int) {
    forall at | from <= at <= until :: GoodServer(names, s, at)
  }

  lemma RefreshedMadeHere(names: Names, s: CertSecret, s': CertSecret, start: int, end: int)
    requires MadeHere(names, s, start) && start <= end && Refreshed(names, s, s', start, end)
    ensures MadeHere(names, s', end)
  {
  }

  /** Whatever a refresh leaves stored serves from its end until the lookahead after its start. */
  lemma RefreshedServes(names: Names, s: CertSecret, s': CertSecret, start: int, end: int)
    requires MadeHere(names, s, start) && start <= end && Refreshed(names, s, s', start, end)
    ensures ServesThrough(names, s', end, Ahead(start))
  {
  }

  /** What the API server holds after a reconcile of `name` from `start` to `now`, and whether it succeeded. */
  datatype Moment = Moment(start: int, now: int, name: string, stored: Stored, success: bool)

  /** Reconciles one after the other, with any time between them. */
  ghost predicate Run(names: Names, run: seq<Moment>) {
    && |run| > 0
    && MadeHere(names, run[0].stored.secret, run[0].now)
    && !run[0].success
    && forall i :: 0 < i < |run| ==> Follows(names, run[i - 1], run[i])
  }

  ghost predicate Follows(names: Names, m: Moment, m': Moment) {
    m.now <= m'.start && StepOf(names, m'.start, m.stored, m'.now, m'.stored, m'.name, m'.success)
  }

  lemma {:induction false} RunMadeHere(names: Names, run: seq<Moment>, n: nat)
    requires Run(names, run) && n < |run|
    ensures MadeHere(names, run[n].stored.secret, run[n].now)
  {
    if n > 0 {
      RunMadeHere(names, run, n - 1);
      var s, s' := run[n - 1], run[n];
      assert Follows(names, s, s');
      if Refreshed(names, s.stored.secret, s'.stored.secret, s'.start, s'.now) {
        RefreshedMadeHere(names, s.stored.secret, s'.stored.secret, s'.start, s'.now);
      }
    }
  }

  /** Since success `i`, failed or not, later reconciles keep what it guaranteed. */
  lemma {:induction false} ServesSince(names: Names, run: seq<Moment>, i: nat, n: nat)
    requires Run(names, run) && 0 < i <= n < |run| && run[i].success
    ensures ServesThrough(names, run[n].stored.secret, run[n].now, Ahead(run[i].start))
    ensures run[i].start <= run[n].now
  {
    var s, s' := run[n - 1], run[n];
    RunMadeHere(names, run, n - 1);
    assert Follows(names, s, s');
    if i < n {
      ServesSince(names, run, i, n - 1);
    }
    if Refreshed(names, s.stored.secret, s'.stored.secret, s'.start, s'.now) {
      RefreshedServes(names, s.stored.secret, s'.stored.secret, s'.start, s'.now);
    }
  }

  ghost predicate NoSuccessBetween(run: seq<Moment>, i: nat, j: nat)
    requires i <= j <= |run|
  {
    forall k :: i < k < j ==> !run[k].success
  }

  /** Each success ends within the lookahead of the start of the one before it. */
  ghost predicate OftenEnough(run: seq<Moment>) {
    forall i, j :: 0 < i < j < |run| && run[i].success && run[j].success && NoSuccessBetween(run, i, j) ==>
      run[j].now <= Ahead(run[i].start)
  }

  lemma {:induction false} SuccessAtOrBefore(run: seq<Moment>, n: nat) returns (i: nat)
    requires n < |run| && exists k :: 0 < k <= n && run[k].success
    ensures 0 < i <= n && run[i].success && NoSuccessBetween(run, i, n + 1)
  {
    i := n;
    if !run[n].success {
      i := SuccessAtOrBefore(run, n - 1);
    }
  }

  lemma {:induction false} SuccessAfter(run: seq<Moment>, n: nat) returns (j: nat)
    requires n < |run| && exists k :: n < k < |run| && run[k].success
    ensures n < j < |run| && run[j].success && NoSuccessBetween(run, n, j)
    decreases |run| - n
  {
    j := n + 1;
    if !run[j].success {
      j := SuccessAfter(run, n + 1);
    }
  }

  lemma {:induction false} TimePasses(names: Names, run: seq<Moment>, i: nat, j: nat)
    requires Run(names, run) && i <= j < |run|
    ensures run[i].now <= run[j].now
  {
    if i < j {
      TimePasses(names, run, i, j - 1);
      assert Follows(names, run[j - 1], run[j]);
    }
  }

  /**
    Certificates never lapse: when successes come often enough, then from the first to the last
    of them what is stored serves at every instant, whatever failed in between.
   */
  lemma NeverLapses(names: Names, run: seq<Moment>, n: nat, at: int)
    requires Run(names, run) && OftenEnough(run) && n + 1 < |run|
    requires exists i :: 0 < i <= n && run[i].success
    requires exists j :: n < j < |run| && run[j].success
    requires run[n].now <= at <= run[n + 1].now
    ensures var s := run[n].stored.secret;
            && s.caCert.Holds? && s.cert.Holds? && s.key.Holds?
            && s.cert.value.dnsName == names.svc + "." + names.svcNamespace + ".svc"
            && s.cert.value.key == s.key.value
            && (s.cert.value == s.caCert.value || (s.caCert.value.isCA && s.cert.value.signer == s.caCert.value.key))
            && s.caCert.value.notBefore <= at <= s.caCert.value.notAfter
            && s.cert.value.notBefore <= at <= s.cert.value.notAfter
  {
    hide Run, OftenEnough;
    GoodThroughout(names, run, n, at);
  }

  lemma GoodThroughout(names: Names, run: seq<Moment>, n: nat, at: int)
    requires Run(names, run) && OftenEnough(run) && n + 1 < |run|
    requires exists i :: 0 < i <= n && run[i].success
    requires exists j :: n < j < |run| && run[j].success
    requires run[n].now <= at <= run[n + 1].now
    ensures GoodServer(names, run[n].stored.secret, at)
  {
    hide Run, GoodServer;
    var i := SuccessAtOrBefore(run, n);
    var j := SuccessAfter(run, n);
    assert NoSuccessBetween(run, i, j);
    TimePasses(names, run, n + 1, j);
    ServesSince(names, run, i, n);
  }

  /** What a reconcile writes serves from the moment it was made, before the reconcile has ended. */
  lemma RotatedServesAtOnce(names: Names, s: CertSecret, s': CertSecret, start: int, end: int) returns (made: int)
    requires MadeHere(names, s, start) && Refreshed(names, s, s', start, end) && s' != s
    ensures start <= made <= end && ServesThrough(names, s', made, Ahead(start))
  {
    if t: int, caKey: Key, key: Key :| NewPair(names, s', start, end, t, caKey, key) {
      made := t;
    } else {
      var t: int, key: Key :| NewServerOnly(names, s, s', start, end, t, key);
      made := t;
    }
  }

  /** A certificate made elsewhere passes the lookahead check yet serves now only if both have begun. */
  lemma CheckedServesExactly(names: Names, s: CertSecret, now: int)
    requires CAPasses(names, s, now) && ServerPasses(names, s, now)
    ensures ServesThrough(names, s, now, Ahead(now)) <==>
            s.caCert.value.notBefore <= now && s.cert.value.notBefore <= now
  {
    assert ServesThrough(names, s, now, Ahead(now)) ==> GoodServer(names, s, now);
  }

  /** Such a certificate: it passes both lookahead checks and is not valid yet. */
  lemma NotYetBegun(names: Names, now: int) returns (s: CertSecret)
    ensures CAPasses(names, s, now) && ServerPasses(names, s, now) && !GoodServer(names, s, now)
  {
    var ca := Cert(1, 1, true, names.ca, now + 1, now + CERT_VALIDITY);
    var server := Cert(2, 1, false, names.Dns(), now + 1, now + CERT_VALIDITY);
    s := CertSecret(Holds(ca), Holds(1), Holds(server), Holds(2));
  }

  // ---------------------------------------------------------------- CA bundles of the CRDs

  /** The stored CA did not change after `i`, up to `n`. */
  ghost predicate SameCA(run: seq<Moment>, i: nat, n: nat)
    requires i <= n < |run|
  {
    forall k :: i < k <= n ==> run[k].stored.secret.caCert == run[k - 1].stored.secret.caCert
  }

  /** `i` is the last success for the CRD `name` up to `n`. */
  ghost predicate LastSuccessFor(run: seq<Moment>, name: string, i: nat, n: nat) {
    && 0 < i <= n < |run| && run[i].success && run[i].name == name
    && forall k :: i < k <= n && run[k].name == name ==> !run[k].success
  }

  /** A CRD's bundle is the CA that was stored at its own last success. */
  lemma {:induction false} BundleSince(names: Names, run: seq<Moment>, name: string, i: nat, n: nat)
    requires Run(names, run) && LastSuccessFor(run, name, i, n)
    ensures name in run[n].stored.crds && run[n].stored.crds[name] == WithBundle(names, run[i].stored.secret)
  {
    assert Follows(names, run[n - 1], run[n]);
    if i < n {
      BundleSince(names, run, name, i, n - 1);
    }
  }

  lemma ValidWhenRefreshed(names: Names, s: CertSecret, s': CertSecret, start: int, end: int) returns (at: int)
    requires Refreshed(names, s, s', start, end)
    ensures GoodCA(names, s', at)
  {
    if t: int, caKey: Key, key: Key :|
      NewPair(names, s', start, end, t, caKey, key) && CAFails(names, s, start, t) {
      at := t;
    } else if t: int, key: Key :| NewServerOnly(names, s, s', start, end, t, key) {
      var u, v :| start <= u <= v <= t && GoodCA(names, s, Ahead(u)) && !GoodServer(names, s, Ahead(v));
      at := Ahead(u);
    } else {
      var t, u :| start <= t <= u && GoodCA(names, s, Ahead(t)) && GoodServer(names, s, Ahead(u));
      at := Ahead(t);
    }
  }

  lemma {:induction false} KeyKept(names: Names, run: seq<Moment>, i: nat, n: nat, at: int)
    requires Run(names, run) && 0 < i <= n < |run| && SameCA(run, i, n)
    requires GoodCA(names, run[i].stored.secret, at)
    ensures run[n].stored.secret.caCert == run[i].stored.secret.caCert
    ensures run[n].stored.secret.caKey == run[i].stored.secret.caKey
  {
    if i < n {
      KeyKept(names, run, i, n - 1, at);
      assert Follows(names, run[n - 1], run[n]);
    }
  }

  /** The CA stored at `n` outlives the one stored at `i`, which had passed its lookahead by then. */
  ghost predicate Outlives(run: seq<Moment>, i: nat, n: nat)
    requires i <= n < |run|
  {
    var c, d := run[i].stored.secret.caCert, run[n].stored.secret.caCert;
    c.Holds? && d.Holds? && c.value.notAfter < d.value.notAfter && c.value.notAfter < Ahead(run[n].now)
  }

  lemma Replaced(names: Names, run: seq<Moment>, i: nat, k: nat, at: int)
    requires Run(names, run) && 0 < i < k < |run| && SameCA(run, i, k - 1)
    requires GoodCA(names, run[i].stored.secret, at)
    requires run[k].stored.secret.caCert != run[k - 1].stored.secret.caCert
    ensures Outlives(run, i, k)
  {
    KeyKept(names, run, i, k - 1, at);
    RunMadeHere(names, run, i);
    TimePasses(names, run, i, k - 1);
    var s, s' := run[k - 1].stored.secret, run[k].stored.secret;
    assert Follows(names, run[k - 1], run[k]);
    var t: int, caKey: Key, key: Key :|
      NewPair(names, s', run[k].start, run[k].now, t, caKey, key) && CAFails(names, s, run[k].start, t);
    var u :| run[k].start <= u <= t && !GoodCA(names, s, Ahead(u));
    assert Ahead(u) > s.caCert.value.notAfter;
  }

  lemma {:induction false} OutlivesLater(names: Names, run: seq<Moment>, i: nat, k: nat, n: nat)
    requires Run(names, run) && i < k <= n < |run| && Outlives(run, i, k)
    ensures Outlives(run, i, n)
  {
    if k < n {
      OutlivesLater(names, run, i, k, n - 1);
      assert Follows(names, run[n - 1], run[n]);
    }
  }

  lemma {:induction false} FirstChange(run: seq<Moment>, i: nat, n: nat) returns (k: nat)
    requires i <= n < |run| && !SameCA(run, i, n)
    ensures i < k <= n && SameCA(run, i, k - 1)
    ensures run[k].stored.secret.caCert != run[k - 1].stored.secret.caCert
  {
    if SameCA(run, i, n - 1) {
      k := n;
    } else {
      k := FirstChange(run, i, n - 1);
    }
  }

  /** A CRD's bundle is the stored CA exactly when the CA was not replaced since that CRD's last success. */
  lemma BundleCurrentExactly(names: Names, run: seq<Moment>, name: string, i: nat, n: nat)
    requires Run(names, run) && LastSuccessFor(run, name, i, n)
    ensures name in run[n].stored.crds
    ensures run[n].stored.crds[name].caBundle == run[n].stored.secret.caCert <==> SameCA(run, i, n)
  {
    BundleSince(names, run, name, i, n);
    assert Follows(names, run[i - 1], run[i]);
    var at := ValidWhenRefreshed(names, run[i - 1].stored.secret, run[i].stored.secret, run[i].start, run[i].now);
    if SameCA(run, i, n) {
      KeyKept(names, run, i, n, at);
    } else {
      var k := FirstChange(run, i, n);
      Replaced(names, run, i, k, at);
      OutlivesLater(names, run, i, k, n);
    }
  }

  /** Such a run: the CA expires and is replaced on behalf of another CRD. */
  lemma StaleBundle(names: Names, crds: map<string, Crd>, name: string, other: string) returns (run: seq<Moment>)
    requires name != other && name in crds && other in crds
    requires crds[name].service.Some? && crds[other].service.Some?
    ensures Run(names, run) && run[0].stored.crds == crds && LastSuccessFor(run, name, 1, 2) && run[2].success
    ensures name in run[2].stored.crds && run[2].stored.crds[name].caBundle != run[2].stored.secret.caCert
  {
    var late := CERT_VALIDITY;
    var s0 := CertSecret(Missing, Missing, Missing, Missing);
    var s1 := CertSecret(Holds(FreshCA(names, 1, 0)), Holds(1), Holds(FreshServer(names, 2, 1, 0)), Holds(2));
    var s2 := CertSecret(Holds(FreshCA(names, 3, late)), Holds(3), Holds(FreshServer(names, 4, 3, late)), Holds(4));
    var crds1 := crds[name := WithBundle(names, s1)];
    var m0 := Moment(0, 0, name, Stored(s0, crds), false);
    var m1 := Moment(0, 0, name, Stored(s1, crds1), true);
    var m2 := Moment(late, late, other, Stored(s2, crds1[other := WithBundle(names, s2)]), true);
    run := [m0, m1, m2];
    assert NewPair(names, s1, 0, 0, 0, 1, 2) && !GoodCA(names, s0, Ahead(0));
    assert NewPair(names, s2, late, late, late, 3, 4) && !GoodCA(names, s1, Ahead(late));
    assert Follows(names, m0, m1) && Follows(names, m1, m2);
  }
}
