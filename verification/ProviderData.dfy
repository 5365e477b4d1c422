/** How an ExternalSecret's sources are fetched, transformed and merged into one map. */
module ProviderData {
  import opened Common
  import K = KeyConversion
  import D = Decoding

  /** The answer of a provider or generator, with failures to get a client. */
  datatype Fetch<+T> = Got(value: T) | NoSecret | Failed(msg: string)

  /** A rewrite operation: without a regexp, or with one that does or does not compile. */
  datatype Rewrite = NoRegexp | Regexp(replace: string -> string) | BadRegexp

  /** An entry of spec.dataFrom. */
  datatype Source =
    | Find(fetched: Fetch<SecretData>, rewrite: seq<Rewrite>, conversion: K.Strategy, decoding: D.Strategy)
    | Extract(fetched: Fetch<SecretData>, rewrite: seq<Rewrite>, conversion: K.Strategy, decoding: D.Strategy)
    | Generate(fetched: Fetch<SecretData>, rewrite: seq<Rewrite>)
    | Nothing

  /** An entry of spec.data. */
  datatype DataRef = DataRef(secretKey: string, fetched: Fetch<Bytes>, decoding: D.Strategy)

  datatype DeletionPolicy = Retain | Delete | Merge

  // ---------------------------------------------------------------- rewriting

  /** `out` has the keys of `m` replaced; where two meet, it has the value of one of them. */
  ghost predicate Replaced(replace: string -> string, m: SecretData, out: SecretData) {
    && (forall k <- m :: replace(k) in out)
    && (forall o <- out :: exists k <- m :: replace(k) == o && out[o] == m[k])
  }

  ghost predicate Rewritten(ops: seq<Rewrite>, m: SecretData, out: SecretData) {
    if ops == [] then out == m
    else
      var op := ops[|ops| - 1];
      exists mid: SecretData :: Rewritten(ops[..|ops| - 1], m, mid) && RewriteStep(op, mid, out)
  }

  ghost predicate RewriteStep(op: Rewrite, m: SecretData, out: SecretData) {
    match op
    case NoRegexp => out == m
    case Regexp(replace) => Replaced(replace, m, out)
    case BadRegexp => false
  }

  method RewriteRegexp(replace: string -> string, m: SecretData) returns (out: SecretData)
    ensures Replaced(replace, m, out)
  {
    out := map[];
    var todo := m.Keys;
    while todo != {}
      invariant todo <= m.Keys
      invariant Replaced(replace, map k | k in m && k !in todo :: m[k], out)
      decreases todo
    {
      var key :| key in todo;
      ghost var part := map k | k in m && k !in todo :: m[k];
      todo := todo - {key};
      ReplaceOneMore(replace, part, out, key, m[key]);
      assert part[key := m[key]] == map k | k in m && k !in todo :: m[k];
      out := out[replace(key) := m[key]];
    }
    assert m == map k | k in m && k !in todo :: m[k];
  }

  lemma ReplaceOneMore(replace: string -> string, m: SecretData, out: SecretData, k: string, v: Bytes)
    requires Replaced(replace, m, out) && k !in m
    ensures Replaced(replace, m[k := v], out[replace(k) := v])
  {
  }

  method RewriteMap(ops: seq<Rewrite>, m: SecretData) returns (r: Result<SecretData>)
    ensures r.Ok? <==> BadRegexp !in ops
    ensures r.Ok? ==> Rewritten(ops, m, r.value)
  {
    var out := m;
    for i := 0 to |ops|
      invariant BadRegexp !in ops[..i] && Rewritten(ops[..i], m, out)
    {
      hide Replaced;
      assert ops[..i + 1][..i] == ops[..i];
      ghost var mid := out;
      match ops[i] {
        case NoRegexp =>
        case Regexp(replace) =>
          out := RewriteRegexp(replace, out);
        case BadRegexp =>
          return Err("failed rewriting operation");
      }
      assert Rewritten(ops[..i], m, mid) && RewriteStep(ops[i], mid, out);
    }
    assert ops[..|ops|] == ops;
    return Ok(out);
  }

  // ---------------------------------------------------------------- one source

  datatype Outcome<+T> = Produced(value: T) | Missing | Error(msg: string)

  /** The keys after rewriting or, for find and extract without rewrites, after conversion. */
  ghost predicate Keyed(alnum: K.CharClass, s: Source, mid: SecretData)
    requires !s.Nothing? && s.fetched.Got?
  {
    if s.Generate? || s.rewrite != [] then Rewritten(s.rewrite, s.fetched.value, mid)
    else K.ConvertResult(alnum, s.conversion, s.fetched.value, Ok(mid))
  }

  /** A produced map went through every stage: keyed, checked and (but for generators) decoded. */
  ghost predicate Staged(alnum: K.CharClass, s: Source, out: SecretData) {
    if s.Nothing? then out == map[]
    else
      && s.fetched.Got?
      && exists mid: SecretData ::
           && Keyed(alnum, s, mid) && K.ValidKeys(alnum, mid)
           && if s.Generate? then out == mid else DecodedAs(s.decoding, mid, out)
  }

  /** The stage at which a source fails. */
  ghost predicate Broken(alnum: K.CharClass, s: Source) {
    && !s.Nothing? && !s.fetched.NoSecret?
    && (s.fetched.Got? ==>
          || BadRegexp in s.rewrite
          || (!s.Generate? && s.rewrite == [] && K.Collides(alnum, s.conversion, s.fetched.value))
          || exists mid: SecretData :: Keyed(alnum, s, mid) && (!K.ValidKeys(alnum, mid) || Undecodable(s, mid)))
  }

  ghost predicate Undecodable(s: Source, m: SecretData) {
    (s.Find? || s.Extract?) && exists k <- m :: D.Decode(s.decoding, m[k]).Err?
  }

  ghost predicate DecodedAs(strategy: D.Strategy, m: SecretData, out: SecretData) {
    out.Keys == m.Keys && forall k <- m :: D.Decode(strategy, m[k]) == Ok(out[k])
  }

  ghost predicate Handled(alnum: K.CharClass, s: Source, o: Outcome<SecretData>) {
    && (o.Produced? ==> Staged(alnum, s, o.value))
    && (o.Missing? <==> !s.Nothing? && s.fetched.NoSecret?)
    && (o.Error? ==> Broken(alnum, s))
  }

  /** handleFindAllSecrets and handleExtractSecrets. */
  method HandleFetched(alnum: K.CharClass, s: Source) returns (o: Outcome<SecretData>)
    requires s.Find? || s.Extract?
    ensures Handled(alnum, s, o)
  {
    hide D.Decode, K.Collides, K.Relabelled, K.ValidKeys, Rewritten;
    match s.fetched {
      case NoSecret => return Missing;
      case Failed(msg) => return Error(msg);
      case Got(fetched) =>
        var r := RewriteMap(s.rewrite, fetched);
        if r.Err? {
          return Error(r.msg);
        }
        if |s.rewrite| == 0 {
          RewrittenByNothing(fetched, r.value);
          r := K.ConvertKeys(alnum, s.conversion, r.value);
          if r.Err? {
            return Error(r.msg);
          }
        }
        assert Keyed(alnum, s, r.value);
        var valid := K.ValidateKeys(alnum, r.value);
        if !valid {
          return Error("invalid keys");
        }
        var decoded := D.DecodeMap(s.decoding, r.value);
        if decoded.Err? {
          return Error(decoded.msg);
        }
        assert DecodedAs(s.decoding, r.value, decoded.value);
        return Produced(decoded.value);
    }
  }

  lemma RewrittenByNothing(m: SecretData, out: SecretData)
    requires Rewritten([], m, out)
    ensures out == m
  {
  }

  method HandleSource(alnum: K.CharClass, s: Source) returns (o: Outcome<SecretData>)
    ensures Handled(alnum, s, o)
  {
    match s {
      case Nothing =>
        return Produced(map[]);
      case Generate(fetched, rewrite) =>
        match fetched {
          case NoSecret => return Missing;
          case Failed(msg) => return Error(msg);
          case Got(m) =>
            var r := RewriteMap(rewrite, m);
            if r.Err? {
              return Error(r.msg);
            }
            assert Keyed(alnum, s, r.value);
            var valid := K.ValidateKeys(alnum, r.value);
            if !valid {
              return Error("invalid keys");
            }
            return Produced(r.value);
        }
      case _ =>
        o := HandleFetched(alnum, s);
    }
  }

  /** handleSecretData, up to the assignment. */
  method HandleData(d: DataRef) returns (o: Outcome<Bytes>)
    ensures o.Produced? <==> Decodes(d)
    ensures o.Produced? ==> o.value == D.Decode(d.decoding, d.fetched.value).value
    ensures o.Missing? <==> d.fetched.NoSecret?
  {
    match d.fetched {
      case NoSecret => return Missing;
      case Failed(msg) => return Error(msg);
      case Got(v) =>
        var decoded := D.Decode(d.decoding, v);
        return match decoded case Ok(x) => Produced(x) case Err(msg) => Error(msg);
    }
  }

  /** The entry is at the provider and can be decoded. */
  predicate Decodes(d: DataRef) {
    d.fetched.Got? && D.Decode(d.decoding, d.fetched.value).Ok?
  }

  // ---------------------------------------------------------------- all sources

  predicate Has(o: Outcome<SecretData>, k: string) {
    o.Produced? && k in o.value
  }

  predicate Supplies(d: DataRef, k: string) {
    d.secretKey == k && Decodes(d)
  }

  /** The value for `k` in the last map that has it. */
  function LastFrom(maps: seq<Outcome<SecretData>>, k: string): Option<Bytes> {
    var n := |maps| - 1;
    if maps == [] then None
    else if Has(maps[n], k) then Some(maps[n].value[k])
    else LastFrom(maps[..n], k)
  }

  /** The value of the last data entry for `k` that is not missing. */
  function LastData(data: seq<DataRef>, k: string): Option<Bytes> {
    var n := |data| - 1;
    if data == [] then None
    else if Supplies(data[n], k) then Some(D.Decode(data[n].decoding, data[n].fetched.value).value)
    else LastData(data[..n], k)
  }

  lemma {:induction false} LastFromMeans(maps: seq<Outcome<SecretData>>, k: string)
    ensures LastFrom(maps, k).None? ==> forall i :: 0 <= i < |maps| ==> !Has(maps[i], k)
    ensures LastFrom(maps, k).Some? ==> exists i :: 0 <= i < |maps| && LastFromAt(maps, k, i)
  {
    if maps != [] {
      var n := |maps| - 1;
      if Has(maps[n], k) {
        assert LastFromAt(maps, k, n);
      } else {
        LastFromMeans(maps[..n], k);
        if LastFrom(maps, k).Some? {
          var i :| 0 <= i < n && LastFromAt(maps[..n], k, i);
          assert LastFromAt(maps, k, i);
        }
      }
    }
  }

  ghost predicate LastFromAt(maps: seq<Outcome<SecretData>>, k: string, i: int)
    requires 0 <= i < |maps|
  {
    && Has(maps[i], k) && LastFrom(maps, k) == Some(maps[i].value[k])
    && forall j :: i < j < |maps| ==> !Has(maps[j], k)
  }

  lemma {:induction false} LastDataMeans(data: seq<DataRef>, k: string)
    ensures LastData(data, k).None? ==> forall i :: 0 <= i < |data| ==> !Supplies(data[i], k)
    ensures LastData(data, k).Some? ==> exists i :: 0 <= i < |data| && LastDataAt(data, k, i)
  {
    if data != [] {
      var n := |data| - 1;
      if Supplies(data[n], k) {
        assert LastDataAt(data, k, n);
      } else {
        LastDataMeans(data[..n], k);
        if LastData(data, k).Some? {
          var i :| 0 <= i < n && LastDataAt(data[..n], k, i);
          assert LastDataAt(data, k, i);
        }
      }
    }
  }

  ghost predicate LastDataAt(data: seq<DataRef>, k: string, i: int)
    requires 0 <= i < |data|
  {
    && Supplies(data[i], k)
    && LastData(data, k) == Some(D.Decode(data[i].decoding, data[i].fetched.value).value)
    && forall j :: i < j < |data| ==> !Supplies(data[j], k)
  }

  method MergeByteMap(dst: SecretData, src: SecretData) returns (out: SecretData)
    ensures out == dst + src
  {
    out := dst;
    var todo := src.Keys;
    while todo != {}
      invariant todo <= src.Keys
      invariant out == dst + map k | k in src && k !in todo :: src[k]
      decreases todo
    {
      var k :| k in todo;
      todo := todo - {k};
      out := out[k := src[k]];
    }
    assert src == map k | k in src && k !in todo :: src[k];
  }

  /** Each key has the value of the last data entry for it, else of the last outcome having it. */
  ghost predicate Precedence(outcomes: seq<Outcome<SecretData>>, data: seq<DataRef>, m: SecretData) {
    forall k: string :: Get(m, k) == OrElse(LastData(data, k), LastFrom(outcomes, k))
  }

  /** A dataFrom source that is not missing, or may be. */
  ghost predicate SourceAllowed(s: Source, policy: DeletionPolicy) {
    s.Nothing? || s.fetched.Got? || (s.fetched.NoSecret? && policy != Retain)
  }

  /** A data entry that is at the provider and can be decoded, or is missing and may be. */
  ghost predicate EntryAllowed(d: DataRef, policy: DeletionPolicy) {
    Decodes(d) || (d.fetched.NoSecret? && policy != Retain)
  }

  ghost predicate HandledAll(
      alnum: K.CharClass, dataFrom: seq<Source>, policy: DeletionPolicy, outcomes: seq<Outcome<SecretData>>)
  {
    && |outcomes| == |dataFrom|
    && forall i :: 0 <= i < |dataFrom| ==> HandledAs(alnum, dataFrom[i], policy, outcomes[i])
  }

  ghost predicate HandledAs(alnum: K.CharClass, s: Source, policy: DeletionPolicy, o: Outcome<SecretData>) {
    Handled(alnum, s, o) && SourceAllowed(s, policy) && !o.Error?
  }

  /** `m` is what a successful call may return. */
  ghost predicate Sourced(
      alnum: K.CharClass, dataFrom: seq<Source>, data: seq<DataRef>, policy: DeletionPolicy, m: SecretData)
  {
    && (forall i :: 0 <= i < |data| ==> EntryAllowed(data[i], policy))
    && exists outcomes :: HandledAll(alnum, dataFrom, policy, outcomes) && Precedence(outcomes, data, m)
  }

  /** Some source may stop the sync: an entry that is not allowed, or a source that is not or breaks at a stage. */
  ghost predicate Unavailable(alnum: K.CharClass, dataFrom: seq<Source>, data: seq<DataRef>, policy: DeletionPolicy) {
    || (exists i :: 0 <= i < |data| && !EntryAllowed(data[i], policy))
    || (exists i :: 0 <= i < |dataFrom| && (!SourceAllowed(dataFrom[i], policy) || Broken(alnum, dataFrom[i])))
  }

  method GetProviderSecretData(alnum: K.CharClass, dataFrom: seq<Source>, data: seq<DataRef>, policy: DeletionPolicy)
    returns (r: Result<SecretData>)
    ensures r.Ok? ==> Sourced(alnum, dataFrom, data, policy, r.value)
    ensures r.Err? ==> Unavailable(alnum, dataFrom, data, policy)
  {
    hide Staged, Broken, Decodes;
    var providerData: SecretData := map[];
    ghost var outcomes: seq<Outcome<SecretData>> := [];
    for i := 0 to |dataFrom|
      invariant |outcomes| == i
      invariant forall j :: 0 <= j < i ==> HandledAs(alnum, dataFrom[j], policy, outcomes[j])
      invariant forall k: string :: Get(providerData, k) == LastFrom(outcomes, k)
    {
      var o := HandleSource(alnum, dataFrom[i]);
      assert (outcomes + [o])[..i] == outcomes;
      if o.Missing? && policy != Retain {
        outcomes := outcomes + [o];
        continue;
      }
      if !o.Produced? {
        return Err("could not get secret data");
      }
      outcomes := outcomes + [o];
      assert SourceAllowed(dataFrom[i], policy) by { ProducedIsThere(alnum, dataFrom[i], o.value); }
      providerData := MergeByteMap(providerData, o.value);
    }
    for i := 0 to |data|
      invariant forall j :: 0 <= j < i ==> EntryAllowed(data[j], policy)
      invariant forall k: string ::
                  Get(providerData, k) == OrElse(LastData(data[..i], k), LastFrom(outcomes, k))
    {
      assert data[..i + 1][..i] == data[..i];
      var o := HandleData(data[i]);
      if o.Missing? && policy != Retain {
        NotDecoded(data[i]);
        continue;
      }
      if !o.Produced? {
        return Err("could not get secret data");
      }
      providerData := providerData[data[i].secretKey := o.value];
    }
    assert data[..|data|] == data;
    assert HandledAll(alnum, dataFrom, policy, outcomes) && Precedence(outcomes, data, providerData);
    return Ok(providerData);
  }

  lemma ProducedIsThere(alnum: K.CharClass, s: Source, out: SecretData)
    requires Staged(alnum, s, out)
    ensures s.Nothing? || s.fetched.Got?
  {
  }

  lemma NotDecoded(d: DataRef)
    requires d.fetched.NoSecret?
    ensures !Decodes(d)
  {
  }

  lemma StagedValid(alnum: K.CharClass, s: Source, out: SecretData)
    requires Staged(alnum, s, out)
    ensures K.ValidKeys(alnum, out)
  {
  }

  /** Keys that come only from dataFrom are valid keys. */
  lemma DataFromKeysAreValid(alnum: K.CharClass, dataFrom: seq<Source>, data: seq<DataRef>, policy: DeletionPolicy,
                             m: SecretData, k: string)
    requires Sourced(alnum, dataFrom, data, policy, m)
    requires k in m && forall i :: 0 <= i < |data| ==> !Supplies(data[i], k)
    ensures K.ValidKey(alnum, k)
  {
    hide Decodes, K.ValidKey;
    var outcomes: seq<Outcome<SecretData>> :|
      HandledAll(alnum, dataFrom, policy, outcomes) && Precedence(outcomes, data, m);
    LastDataMeans(data, k);
    assert Get(m, k) == LastFrom(outcomes, k);
    LastFromMeans(outcomes, k);
    var i :| 0 <= i < |outcomes| && LastFromAt(outcomes, k, i);
    StagedValid(alnum, dataFrom[i], outcomes[i].value);
  }

  /** Under Retain, success means that no source was missing. */
  lemma RetainMeansComplete(alnum: K.CharClass, dataFrom: seq<Source>, data: seq<DataRef>, m: SecretData, i: nat)
    requires Sourced(alnum, dataFrom, data, Retain, m)
    ensures i < |data| ==> data[i].fetched.Got?
    ensures i < |dataFrom| ==> dataFrom[i].Nothing? || dataFrom[i].fetched.Got?
  {
    if i < |dataFrom| {
      var outcomes: seq<Outcome<SecretData>> :|
        HandledAll(alnum, dataFrom, Retain, outcomes) && Precedence(outcomes, data, m);
      assert HandledAs(alnum, dataFrom[i], Retain, outcomes[i]);
    }
  }

  /** Under every policy, success means that no fetch failed and every entry that is there could be decoded. */
  lemma SuccessMeansFetched(
      alnum: K.CharClass, dataFrom: seq<Source>, data: seq<DataRef>, policy: DeletionPolicy, m: SecretData, i: nat)
    requires Sourced(alnum, dataFrom, data, policy, m)
    ensures i < |data| ==> !data[i].fetched.Failed?
    ensures i < |data| && data[i].fetched.Got? ==> D.Decode(data[i].decoding, data[i].fetched.value).Ok?
    ensures i < |dataFrom| ==> dataFrom[i].Nothing? || !dataFrom[i].fetched.Failed?
  {
    if i < |dataFrom| {
      var outcomes: seq<Outcome<SecretData>> :|
        HandledAll(alnum, dataFrom, policy, outcomes) && Precedence(outcomes, data, m);
      assert HandledAs(alnum, dataFrom[i], policy, outcomes[i]);
    }
  }

  /** The last entry that is there for a key decides its value, whatever dataFrom produced. */
  lemma LastEntryDecides(alnum: K.CharClass, dataFrom: seq<Source>, data: seq<DataRef>, policy: DeletionPolicy,
                         m: SecretData, i: nat)
    requires Sourced(alnum, dataFrom, data, policy, m)
    requires i < |data| && data[i].fetched.Got?
    requires forall j :: i < j < |data| && data[j].secretKey == data[i].secretKey ==> data[j].fetched.NoSecret?
    ensures D.Decode(data[i].decoding, data[i].fetched.value).Ok?
    ensures Get(m, data[i].secretKey) == Some(D.Decode(data[i].decoding, data[i].fetched.value).value)
  {
    var k := data[i].secretKey;
    assert EntryAllowed(data[i], policy);
    LastDataMeans(data, k);
    assert Supplies(data[i], k);
    var l :| 0 <= l < |data| && LastDataAt(data, k, l);
    assert l == i;
  }
}
