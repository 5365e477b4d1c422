/**
  The provider client manager: at most one open client per provider type, reused only for
  the very same store.
 */
module ClientManager {
  import opened Common

  const CLUSTER_STORE_KIND := "ClusterSecretStore"

  /** What a store's spec says that the manager or a provider reads. */
  datatype StoreSpec = StoreSpec(
    providerType: Option<string>,  // None: no registered provider
    controller: string,
    conditions: seq<NamespaceCondition>,
    config: string)

  /** `selected` is what listing the namespaces of the selector gives; None when that fails. */
  datatype NamespaceCondition = NamespaceCondition(
    hasSelector: bool,
    selected: Option<set<string>>,
    namespaces: set<string>)

  datatype Store = Store(
    cluster: bool,        // a ClusterSecretStore
    typeMetaKind: string, // TypeMeta.Kind, which the API client may leave empty
    namespace: string,
    name: string,
    generation: int,
    spec: StoreSpec,
    ready: bool)          // has condition Ready with status True

  datatype StoreRef = StoreRef(name: string, kind: string)

  /** What identifies one version of one store's spec. */
  datatype StoreId = StoreId(cluster: bool, namespace: string, name: string, generation: int)

  function IdOf(s: Store): StoreId {
    StoreId(s.cluster, s.namespace, s.name, s.generation)
  }

  // ---------------------------------------------------------------- the checks

  /** ShouldProcessStore. */
  predicate RightClass(s: Store, controllerClass: string) {
    s.spec.controller == "" || s.spec.controller == controllerClass
  }

  predicate Matches(c: NamespaceCondition, ns: string) {
    (c.hasSelector && c.selected.Some? && ns in c.selected.value) || ns in c.namespaces
  }

  predicate ListingFails(c: NamespaceCondition) {
    c.hasSelector && c.selected.None?
  }

  /** A cluster store without conditions admits every namespace, others those some condition matches. */
  ghost predicate Admits(s: Store, ns: string) {
    s.cluster && s.spec.conditions != [] ==>
      exists i :: 0 <= i < |s.spec.conditions| && Matches(s.spec.conditions[i], ns)
  }

  /** A listing fails before any condition matches. */
  ghost predicate BlockedByListing(conditions: seq<NamespaceCondition>, ns: string) {
    exists i :: 0 <= i < |conditions| && ListingFails(conditions[i])
      && forall j :: 0 <= j < i ==> !Matches(conditions[j], ns)
  }

  /** shouldProcessSecret: it fails exactly if a listing fails before a condition matches. */
  method ShouldProcessSecret(s: Store, ns: string) returns (r: Result<bool>)
    ensures r.Ok? ==> (r.value <==> Admits(s, ns))
    ensures r.Err? <==> s.cluster && BlockedByListing(s.spec.conditions, ns)
  {
    if !s.cluster || |s.spec.conditions| == 0 {
      return Ok(true);
    }
    for i := 0 to |s.spec.conditions|
      invariant forall j :: 0 <= j < i ==> !Matches(s.spec.conditions[j], ns) && !ListingFails(s.spec.conditions[j])
    {
      var c := s.spec.conditions[i];
      if c.hasSelector {
        if c.selected.None? {
          return Err("could not list namespaces");
        }
        if ns in c.selected.value {
          return Ok(true);
        }
      }
      if ns in c.namespaces {
        return Ok(true);
      }
    }
    return Ok(false);
  }

  // ---------------------------------------------------------------- clients

  /** A provider client, and how often it was closed. */
  class Client {
    const providerType: string
    const builtFor: Store
    const namespace: string
    var closes: nat

    constructor (providerType: string, store: Store, namespace: string)
      ensures this.providerType == providerType && builtFor == store && this.namespace == namespace
      ensures closes == 0
    {
      this.providerType, builtFor, this.namespace, closes := providerType, store, namespace, 0;
    }

    predicate Open()
      reads this
    {
      closes == 0
    }

    method Close() returns (ok: bool)
      modifies this
      ensures closes == old(closes) + 1
    {
      closes := closes + 1;
      ok := *;
    }
  }

  datatype ClientVal = ClientVal(client: Client, store: Store)

  /** getStoredClient's test that the cached client points to the very same store. */
  predicate SameStore(cached: Store, store: Store) {
    && cached.generation == store.generation
    && cached.typeMetaKind == store.typeMetaKind
    && cached.name == store.name
    && cached.namespace == store.namespace
  }

  // ---------------------------------------------------------------- what the calls so far say

  /** A call made to the manager: a client asked for, and whether it was given one, or Close. */
  datatype Event =
    | Asked(store: Store, ns: string, ok: bool)
    | Closed

  /** `e` asks for a client of the same provider type as `store` would. */
  predicate SameType(e: Event, store: Store) {
    e.Asked? && e.store.spec.providerType == store.spec.providerType
  }

  /**
    The namespace of the first successful call in the longest trailing block of calls for the
    provider type that ask for this very store, since the last Close.
   */
  ghost function Opener(history: seq<Event>, store: Store): Option<string> {
    if history == [] then None
    else
      var n := |history| - 1;
      var e := history[n];
      if e.Closed? then None
      else if !SameType(e, store) then Opener(history[..n], store)
      else if !SameStore(e.store, store) then None
      else if Opener(history[..n], store).Some? then Opener(history[..n], store)
      else if e.ok then Some(e.ns)
      else None
  }

  function Or(a: Option<string>, b: string): string {
    if a.Some? then a.value else b
  }

  /** From position `i` on, the calls for the provider type all ask for this store, without a Close. */
  ghost predicate InBlock(history: seq<Event>, store: Store, i: nat) {
    forall j :: i <= j < |history| ==>
      !history[j].Closed? && (SameType(history[j], store) ==> SameStore(history[j].store, store))
  }

  ghost predicate Succeeds(e: Event, store: Store) {
    SameType(e, store) && e.ok
  }

  ghost predicate Opens(history: seq<Event>, store: Store, i: nat) {
    && i < |history| && InBlock(history, store, i) && Succeeds(history[i], store)
    && forall j: nat | j < i && InBlock(history, store, j) :: !Succeeds(history[j], store)
  }

  /** What Opener means, by position. */
  lemma {:induction false} OpenerMeans(history: seq<Event>, store: Store) returns (i: nat)
    ensures Opener(history, store).Some? ==> Opens(history, store, i) && Opener(history, store) == Some(history[i].ns)
    ensures Opener(history, store).None? ==>
              forall j: nat | j < |history| && InBlock(history, store, j) :: !Succeeds(history[j], store)
  {
    i := 0;
    if history != [] {
      var n := |history| - 1;
      var front, e := history[..n], history[n];
      i := OpenerMeans(front, store);
      if !e.Closed? && (SameType(e, store) ==> SameStore(e.store, store)) {
        BlockGrows(history, store);
        if Opener(front, store).None? {
          i := n;
        }
      }
    }
  }

  lemma BlockGrows(history: seq<Event>, store: Store)
    requires history != []
    requires var e := history[|history| - 1]; !e.Closed? && (SameType(e, store) ==> SameStore(e.store, store))
    ensures forall j: nat | j < |history| :: InBlock(history, store, j) <==> InBlock(history[..|history| - 1], store, j)
  {
    var n := |history| - 1;
    forall j: nat | j < |history| && InBlock(history[..n], store, j)
      ensures InBlock(history, store, j)
    {
      assert forall k :: j <= k < n ==> history[k] == history[..n][k];
    }
    forall j: nat | j < |history| && InBlock(history, store, j)
      ensures InBlock(history[..n], store, j)
    {
      assert forall k :: j <= k < n ==> history[..n][k] == history[k];
    }
  }

  class Manager {
    const controllerClass: string
    const enableFloodgate: bool
    var clientMap: map<string, ClientVal>

    /** Every client this manager ever created. */
    ghost var created: set<Client>

    /** Every call that reached the cache, in order. */
    ghost var history: seq<Event>

    constructor (controllerClass: string, enableFloodgate: bool)
      ensures this.controllerClass == controllerClass && this.enableFloodgate == enableFloodgate
      ensures Valid() && clientMap == map[] && created == {} && history == []
    {
      this.controllerClass, this.enableFloodgate := controllerClass, enableFloodgate;
      clientMap, created, history := map[], {}, [];
    }

    /**
      Ownership: the map's entries are the open clients, one per provider type and filed under it;
      every other client was closed exactly once.
     */
    ghost predicate Owns()
      reads this`clientMap, this`created, created
    {
      && (forall t <- clientMap ::
            && clientMap[t].client in created
            && clientMap[t].client.Open()
            && clientMap[t].client.providerType == t
            && clientMap[t].client.builtFor == clientMap[t].store)
      && (forall c <- created :: Stored(c) || c.closes == 1)
    }

    /** What is cached, and for which namespace, follows from the calls made so far. */
    ghost predicate Remembers()
      reads this
    {
      forall store: Store :: Opener(history, store) == CachedNamespace(store)
    }

    ghost function CachedNamespace(store: Store): Option<string>
      reads this
    {
      if Hit(store) then Some(CachedFor(store).namespace) else None
    }

    ghost predicate Valid()
      reads this, created
    {
      Owns() && Remembers()
    }

    ghost predicate Stored(c: Client)
      reads this`clientMap
    {
      c.providerType in clientMap && clientMap[c.providerType].client == c
    }

    /** Returns the cached client if it is for `store`, and otherwise closes and forgets it. */
    method GetStoredClient(t: string, store: Store) returns (c: Option<Client>)
      requires Owns()
      modifies this`clientMap, created
      ensures Owns() && created == old(created)
      ensures c.Some? <==>
                && t in old(clientMap)
                && var cached := old(clientMap)[t].store;
                   && cached.name == store.name && cached.namespace == store.namespace
                   && cached.typeMetaKind == store.typeMetaKind && cached.generation == store.generation
      ensures c.Some? ==> clientMap == old(clientMap) && c.value == clientMap[t].client
      ensures c.None? ==> clientMap == old(clientMap) - {t}
      ensures forall d <- created ::
                d.closes == old(d.closes) + if d.providerType == t && old(Stored(d)) && c.None? then 1 else 0
    {
      if t !in clientMap {
        return None;
      }
      var val := clientMap[t];
      if SameStore(val.store, store) {
        return Some(val.client);
      }
      var _ := CloseClient(t);
      return None;
    }

    /** Closes the client cached for a provider type, and forgets it. */
    method CloseClient(t: string) returns (ok: bool)
      requires Owns() && t in clientMap
      modifies this`clientMap, created
      ensures Owns() && created == old(created) && clientMap == old(clientMap) - {t}
      ensures forall d <- created :: d.closes == old(d.closes) + if old(Stored(d)) && d.providerType == t then 1 else 0
    {
      ok := clientMap[t].client.Close();
      clientMap := clientMap - {t};
    }

    /** GetFromStore; `available` says whether Provider.NewClient succeeds, should it be called. */
    method GetFromStore(store: Store, ns: string, available: bool) returns (r: Result<Client>)
      requires Valid()
      modifies this`clientMap, this`created, this`history, created
      ensures Valid() && old(created) <= created && fresh(created - old(created))
      ensures r.Ok? <==> store.spec.providerType.Some? && (old(Hit(store)) || available)
      ensures old(Hit(store)) ==> r == Ok(old(CachedFor(store))) && created == old(created)
      ensures !old(Hit(store)) && r.Ok? ==>
                fresh(r.value) && created == old(created) + {r.value}
                && r.value.builtFor == store && r.value.namespace == ns
      ensures r.Ok? ==> Stored(r.value) && r.value in created
                        && store.spec.providerType == Some(r.value.providerType)
      ensures r.Err? ==> created == old(created)
      ensures old(Hit(store)) <==> Opener(old(history), store).Some?
      ensures r.Ok? ==> SameStore(r.value.builtFor, store)
      ensures r.Ok? ==> r.value.namespace == Or(Opener(old(history), store), ns)
      ensures history == old(history) + [Asked(store, ns, r.Ok?)]
    {
      r := Lookup(store, ns, available);
      history := history + [Asked(store, ns, r.Ok?)];
      assert history[..|history| - 1] == old(history);
    }

    /** The body of GetFromStore. */
    method Lookup(store: Store, ns: string, available: bool) returns (r: Result<Client>)
      requires Owns()
      modifies this`clientMap, this`created, created
      ensures Owns() && old(created) <= created && fresh(created - old(created))
      ensures r.Ok? <==> store.spec.providerType.Some? && (old(Hit(store)) || available)
      ensures old(Hit(store)) ==>
                r == Ok(old(CachedFor(store))) && created == old(created) && clientMap == old(clientMap)
      ensures !old(Hit(store)) && r.Ok? ==>
                && fresh(r.value) && created == old(created) + {r.value}
                && r.value.builtFor == store && r.value.namespace == ns
                && clientMap == old(clientMap)[r.value.providerType := ClientVal(r.value, store)]
      ensures r.Ok? ==> Stored(r.value) && r.value in created
                        && store.spec.providerType == Some(r.value.providerType)
      ensures r.Err? ==> created == old(created)
      ensures r.Err? && store.spec.providerType.None? ==> clientMap == old(clientMap)
      ensures r.Err? && store.spec.providerType.Some? ==> clientMap == old(clientMap) - {store.spec.providerType.value}
    {
      hide Owns;
      if store.spec.providerType.None? {
        return Err("store provider not found");
      }
      var t := store.spec.providerType.value;
      var cached := GetStoredClient(t, store);
      if cached.Some? {
        return Ok(cached.value);
      }
      if !available {
        return Err("could not create client");
      }
      var client := Open(t, store, ns);
      return Ok(client);
    }

    method Open(t: string, store: Store, ns: string) returns (client: Client)
      requires Owns() && t !in clientMap
      modifies this`clientMap, this`created
      ensures Owns() && fresh(client) && created == old(created) + {client}
      ensures clientMap == old(clientMap)[t := ClientVal(client, store)]
      ensures client.providerType == t && client.builtFor == store && client.namespace == ns
    {
      client := new Client(t, store, ns);
      clientMap := clientMap[t := ClientVal(client, store)];
      created := created + {client};
    }

    /** The cache holds a client for the very same store. */
    ghost predicate Hit(store: Store)
      reads this
    {
      && store.spec.providerType.Some?
      && store.spec.providerType.value in clientMap
      && SameStore(clientMap[store.spec.providerType.value].store, store)
    }

    ghost function CachedFor(store: Store): Client
      reads this
      requires Hit(store)
    {
      clientMap[store.spec.providerType.value].client
    }

    /** The clients this manager made are for stores of the cluster, and for `ns` where the store does not say. */
    ghost predicate ForNamespace(specOf: StoreId -> StoreSpec, ns: string)
      reads this
    {
      forall c <- created ::
        && WellFormed(c.builtFor)
        && c.builtFor.spec == specOf(IdOf(c.builtFor))
        && c.namespace == ns
    }

    /** A client for a namespaced store was built for the store's own namespace. */
    ghost predicate Tied()
      reads this
    {
      forall c <- created ::
        WellFormed(c.builtFor) && (!c.builtFor.cluster ==> c.namespace == c.builtFor.namespace)
    }

    /**
      Get: every check is passed on a hit as on a miss, and while one namespace uses the manager
      the client is the one a cacheless manager would build. With several namespaces it is for
      the right one except exactly when the store is a cluster store that, by the calls made so
      far, was first served to another namespace.
     */
    method Get(api: Api, storeRef: StoreRef, ns: string, sourceRef: Option<StoreRef>, readable: bool, available: bool,
               ghost specOf: StoreId -> StoreSpec)
      returns (r: Result<Client>, ghost store: Option<Store>)
      requires Valid() && api.Valid() && ns != ""
      modifies this`clientMap, this`created, this`history, created
      ensures Valid() && old(created) <= created && fresh(created - old(created))
      ensures store.Some? ==> api.Has(if sourceRef.Some? then sourceRef.value else storeRef, ns, store.value)
      ensures store.None? ==> !readable || api.Lacks(if sourceRef.Some? then sourceRef.value else storeRef, ns)
      ensures r.Ok? <==>
                && store.Some? && Reached(store.value, ns) && store.value.spec.providerType.Some?
                && (Opener(old(history), store.value).Some? || available)
      ensures old(ForNamespace(specOf, ns)) && api.Follows(specOf) ==>
                && ForNamespace(specOf, ns)
                && (r.Ok? ==> BuiltFor(r.value, store.value, ns))
      ensures old(Tied()) ==> Tied()
      ensures old(Tied()) && r.Ok? ==>
                (r.value.namespace == ns <==>
                   !store.value.cluster || Opener(old(history), store.value) in {None, Some(ns)})
      ensures history == if store.Some? && Reached(store.value, ns)
                         then old(history) + [Asked(store.value, ns, r.Ok?)] else old(history)
    {
      hide Reached, Remembers, Opener, Owns;
      var checked;
      checked, store := Check(api, if sourceRef.Some? then sourceRef.value else storeRef, ns, readable);
      if checked.Err? {
        return Err(checked.msg), store;
      }
      r := GetFromStore(checked.value, ns, available);
    }

    /** The part of Get before the cache: the store, if it could be read and passes every check. */
    method Check(api: Api, ref: StoreRef, ns: string, readable: bool)
      returns (r: Result<Store>, ghost store: Option<Store>)
      ensures store.Some? ==> api.Has(ref, ns, store.value)
      ensures store.None? ==> !readable || api.Lacks(ref, ns)
      ensures r.Ok? <==> store.Some? && Reached(store.value, ns)
      ensures r.Ok? ==> store == Some(r.value)
    {
      store := None;
      var fetched := api.GetStore(ref, ns, readable);
      if fetched.Err? {
        return Err(fetched.msg), None;
      }
      store := Some(fetched.value);
      if !RightClass(fetched.value, controllerClass) {
        return Err("can not reference unmanaged store"), store;
      }
      var admitted := ShouldProcessSecret(fetched.value, ns);
      if admitted.Err? || !admitted.value {
        return Err("using cluster store is not allowed from namespace"), store;
      }
      if enableFloodgate && !fetched.value.ready {
        return Err("the desired SecretStore is not ready"), store;
      }
      return fetched, store;
    }

    /** The store passes the class, namespace-condition and readiness checks of Get. */
    ghost predicate Reached(store: Store, ns: string) {
      && (store.spec.controller == "" || store.spec.controller == controllerClass)
      && !(store.cluster && BlockedByListing(store.spec.conditions, ns))
      && Admits(store, ns)
      && (enableFloodgate ==> store.ready)
    }

    /** Closes every open client; their errors are only collected. */
    method Close() returns (errors: nat)
      requires Valid()
      modifies this`clientMap, this`history, created
      ensures Valid() && clientMap == map[] && created == old(created) && history == old(history) + [Closed]
      ensures forall c <- created :: c.closes == 1
    {
      errors := CloseAll();
      history := history + [Closed];
    }

    method CloseAll() returns (errors: nat)
      requires Owns()
      modifies this`clientMap, created
      ensures Owns() && clientMap == map[] && created == old(created)
    {
      hide Owns;
      errors := 0;
      var todo := clientMap.Keys;
      while todo != {}
        invariant clientMap.Keys == todo && Owns() && created == old(created)
        decreases todo
      {
        var t :| t in todo;
        todo := todo - {t};
        var ok := CloseClient(t);
        if !ok {
          errors := errors + 1;
        }
      }
    }
  }

  /** The client a manager without a cache would build for `store` and `ns`. */
  ghost predicate BuiltFor(c: Client, store: Store, ns: string) {
    IdOf(c.builtFor) == IdOf(store) && c.builtFor.spec == store.spec && c.namespace == ns
  }

  ghost predicate WellFormed(s: Store) {
    s.cluster <==> s.namespace == ""
  }

  /** The stores in the API server; reading one may fail. */
  class Api {
    var clusterStores: map<string, Store>
    var stores: map<(string, string), Store>

    constructor (clusterStores: map<string, Store>, stores: map<(string, string), Store>)
      ensures this.clusterStores == clusterStores && this.stores == stores
    {
      this.clusterStores, this.stores := clusterStores, stores;
    }

    ghost predicate Valid()
      reads this
    {
      && (forall n <- clusterStores :: var s := clusterStores[n]; s.cluster && s.namespace == "" && s.name == n)
      && (forall n <- stores :: var s := stores[n]; !s.cluster && s.namespace == n.0 && s.name == n.1)
    }

    /** Kind, namespace, name and generation determine a store's spec. */
    ghost predicate Follows(specOf: StoreId -> StoreSpec)
      reads this
    {
      && (forall n <- clusterStores :: clusterStores[n].spec == specOf(IdOf(clusterStores[n])))
      && (forall n <- stores :: stores[n].spec == specOf(IdOf(stores[n])))
    }

    ghost predicate Has(ref: StoreRef, ns: string, s: Store)
      reads this
    {
      if ref.kind == "ClusterSecretStore" then ref.name in clusterStores && s == clusterStores[ref.name]
      else (ns, ref.name) in stores && s == stores[(ns, ref.name)]
    }

    ghost predicate Lacks(ref: StoreRef, ns: string)
      reads this
    {
      if ref.kind == "ClusterSecretStore" then ref.name !in clusterStores else (ns, ref.name) !in stores
    }

    /** `readable` says whether the API server answers. */
    method GetStore(ref: StoreRef, ns: string, readable: bool) returns (r: Result<Store>)
      ensures r.Ok? ==> readable && Has(ref, ns, r.value)
      ensures r.Err? ==> !readable || Lacks(ref, ns)
    {
      if readable && ref.kind == CLUSTER_STORE_KIND && ref.name in clusterStores {
        return Ok(clusterStores[ref.name]);
      }
      if readable && ref.kind != CLUSTER_STORE_KIND && (ns, ref.name) in stores {
        return Ok(stores[(ns, ref.name)]);
      }
      return Err("could not get store");
    }
  }

  // ---------------------------------------------------------------- runs

  datatype Call =
    | CallGet(ref: StoreRef, ns: string, sourceRef: Option<StoreRef>, readable: bool, available: bool)
    | CallGetFromStore(store: Store, ns: string, available: bool)
    | CallClose

  /** At most one client per provider type is open. */
  lemma AtMostOneOpen(m: Manager, c: Client, d: Client)
    requires m.Owns() && c in m.created && d in m.created
    requires c.Open() && d.Open() && c.providerType == d.providerType
    ensures c == d
  {
  }

  /**
    Ownership over every sequence of calls followed by the deferred Close: whatever failed on
    the way, every client created was closed exactly once.
   */
  method Session(m: Manager, api: Api, calls: seq<Call>)
    requires m.Valid() && api.Valid()
    requires forall i :: 0 <= i < |calls| && calls[i].CallGet? ==> calls[i].ns != ""
    modifies m`clientMap, m`created, m`history, m.created
    ensures m.Valid() && old(m.created) <= m.created
    ensures forall c <- m.created :: c.closes == 1
  {
    for i := 0 to |calls|
      invariant m.Valid() && old(m.created) <= m.created && fresh(m.created - old(m.created))
    {
      match calls[i] {
        case CallGet(ref, ns, sourceRef, readable, available) =>
          var _, _ := m.Get(api, ref, ns, sourceRef, readable, available, _ => StoreSpec(None, "", [], ""));
        case CallGetFromStore(store, ns, available) =>
          var _ := m.GetFromStore(store, ns, available);
        case CallClose =>
          var _ := m.Close();
      }
    }
    var _ := m.Close();
  }

  /**
    The cache key leaves out the namespace a client was built for: asked for one store on behalf
    of `a` and then of `b`, the manager hands out one client, built for whoever the calls before
    say opened it, else for `a`; never for `b`, unless that is the same.
   */
  method SharedAcrossNamespaces(m: Manager, store: Store, a: string, b: string)
    returns (first: Client, second: Client)
    requires m.Valid() && store.spec.providerType.Some?
    modifies m`clientMap, m`created, m`history, m.created
    ensures m.Valid() && m.history == old(m.history) + [Asked(store, a, true), Asked(store, b, true)]
    ensures second == first && m.Stored(second)
    ensures second.namespace == Or(Opener(old(m.history), store), a)
  {
    var r := m.GetFromStore(store, a, true);
    first := r.value;
    r := m.GetFromStore(store, b, true);
    second := r.value;
  }

  /** A cluster store asked for by "a", then by "b": "b" is served the client built for "a". */
  method SharedVault() returns (m: Manager, second: Client)
    ensures var vault := Store(true, "", "", "vault", 1, StoreSpec(Some("vault"), "", [], ""), true);
            m.history == [Asked(vault, "a", true), Asked(vault, "b", true)]
    ensures m.Stored(second) && second.namespace == "a"
  {
    var vault := Store(true, "", "", "vault", 1, StoreSpec(Some("vault"), "", [], ""), true);
    m := new Manager("", false);
    var first;
    first, second := SharedAcrossNamespaces(m, vault, "a", "b");
  }
}
