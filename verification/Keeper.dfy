/** A Keeper record seen as a map and looked up key by key. */
module Keeper {
  import opened Common

  const FILE_REF := "fileRef"
  const ONE_TIME_CODE := "oneTimeCode"

  datatype Field = Field(kind: string, value: seq<string>)
  datatype CustomField = CustomField(caption: string, value: seq<string>)
  datatype File = File(title: string, content: string)
  datatype Secret = Secret(fields: seq<Field>, custom: seq<CustomField>, files: seq<File>)

  type View = map<string, string>

  // ---------------------------------------------------------------- named values

  /** A part of a record: its key, and its first value if it has one. */
  datatype Named = Named(key: string, value: Option<string>)

  function FirstValue(value: seq<string>): Option<string> {
    if value == [] then None else Some(value[0])
  }

  function NamedFields(s: Secret): seq<Named> {
    seq(|s.fields|, i requires 0 <= i < |s.fields| => Named(s.fields[i].kind, FirstValue(s.fields[i].value)))
  }

  function NamedCustom(s: Secret): seq<Named> {
    seq(|s.custom|, i requires 0 <= i < |s.custom| => Named(s.custom[i].caption, FirstValue(s.custom[i].value)))
  }

  function NamedFiles(s: Secret): seq<Named> {
    seq(|s.files|, i requires 0 <= i < |s.files| => Named(s.files[i].title, Some(s.files[i].content)))
  }

  /** All parts of a record, in the order validate counts them. */
  function Parts(s: Secret): seq<Named> {
    NamedFields(s) + NamedCustom(s) + NamedFiles(s)
  }

  /** What a loop assigning each value under its key leaves. */
  function ToMap(ns: seq<Named>): View {
    if ns == [] then map[]
    else
      var m, last := ToMap(ns[..|ns| - 1]), ns[|ns| - 1];
      if last.value.Some? then m[last.key := last.value.value] else m
  }

  /** What a search returning at the first key with a value finds. */
  function Search(ns: seq<Named>, key: string): Option<string> {
    if ns == [] then None
    else if ns[0].key == key && ns[0].value.Some? then ns[0].value
    else Search(ns[1..], key)
  }

  ghost function Keys(ns: seq<Named>): seq<string> {
    seq(|ns|, i requires 0 <= i < |ns| => ns[i].key)
  }

  ghost predicate DistinctKeys(ns: seq<Named>) {
    forall i, j :: 0 <= i < j < |ns| ==> ns[i].key != ns[j].key
  }

  ghost predicate HasValue(ns: seq<Named>, key: string, value: string) {
    Named(key, Some(value)) in ns
  }

  lemma {:induction false} ToMapHas(ns: seq<Named>, key: string, value: string)
    requires DistinctKeys(ns)
    ensures Get(ToMap(ns), key) == Some(value) <==> HasValue(ns, key, value)
  {
    if ns != [] {
      var n := |ns| - 1;
      ToMapHas(ns[..n], key, value);
      assert ns == ns[..n] + [ns[n]];
    }
  }

  lemma {:induction false} SearchHas(ns: seq<Named>, key: string, value: string)
    requires DistinctKeys(ns)
    ensures Search(ns, key) == Some(value) <==> HasValue(ns, key, value)
  {
    if ns != [] {
      SearchHas(ns[1..], key, value);
      assert ns == [ns[0]] + ns[1..];
    }
  }

  // ---------------------------------------------------------------- validate

  type Counts = map<string, nat>

  /** `counts` says how often each key occurs in `keys`. */
  ghost predicate Tally(counts: Counts, keys: seq<string>) {
    forall k: string :: (if k in counts then counts[k] else 0) == multiset(keys)[k]
  }

  function Increment(counts: Counts, k: string): Counts {
    counts[k := (if k in counts then counts[k] else 0) + 1]
  }

  lemma TallyMore(counts: Counts, ns: seq<Named>, n: nat)
    requires n < |ns| && Tally(counts, Keys(ns[..n]))
    ensures Tally(Increment(counts, ns[n].key), Keys(ns[..n + 1]))
  {
    assert Keys(ns[..n + 1]) == Keys(ns[..n]) + [ns[n].key];
  }

  lemma PartKeys(s: Secret)
    ensures |Parts(s)| == |s.fields| + |s.custom| + |s.files|
    ensures forall i :: 0 <= i < |s.fields| ==> Parts(s)[i].key == s.fields[i].kind
    ensures forall i :: 0 <= i < |s.custom| ==> Parts(s)[|s.fields| + i].key == s.custom[i].caption
    ensures forall i :: 0 <= i < |s.files| ==> Parts(s)[|s.fields| + |s.custom| + i].key == s.files[i].title
  {
  }

  /** validate: accepted exactly when no key occurs twice among fields, custom fields and files. */
  method Validate(s: Secret) returns (ok: bool)
    ensures ok <==> DistinctKeys(Parts(s))
  {
    hide Tally, Increment, Parts, Keys, DistinctKeys;
    var counts: Counts := map[];
    ghost var parts := Parts(s);
    PartKeys(s);
    TallyNothing();
    assert parts[..0] == [];
    for i := 0 to |s.fields|
      invariant Tally(counts, Keys(parts[..i]))
    {
      TallyMore(counts, parts, i);
      counts := Increment(counts, s.fields[i].kind);
    }
    for i := 0 to |s.custom|
      invariant Tally(counts, Keys(parts[..|s.fields| + i]))
    {
      TallyMore(counts, parts, |s.fields| + i);
      counts := Increment(counts, s.custom[i].caption);
    }
    for i := 0 to |s.files|
      invariant Tally(counts, Keys(parts[..|s.fields| + |s.custom| + i]))
    {
      TallyMore(counts, parts, |s.fields| + |s.custom| + i);
      counts := Increment(counts, s.files[i].title);
    }
    assert parts[..|parts|] == parts;
    var duplicates := Duplicates(counts);
    TallyDistinct(counts, parts);
    return |duplicates| == 0;
  }

  lemma TallyNothing()
    ensures Tally(map[], Keys([]))
  {
  }

  method Duplicates(counts: Counts) returns (duplicates: seq<string>)
    ensures duplicates == [] <==> forall k <- counts :: counts[k] <= 1
  {
    duplicates := [];
    var todo := counts.Keys;
    while todo != {}
      invariant todo <= counts.Keys
      invariant duplicates == [] <==> forall k | k in counts && k !in todo :: counts[k] <= 1
      decreases todo
    {
      var key :| key in todo;
      todo := todo - {key};
      if counts[key] > 1 {
        duplicates := duplicates + [key];
      }
    }
  }

  lemma TallyDistinct(counts: Counts, ns: seq<Named>)
    requires Tally(counts, Keys(ns))
    ensures (forall k <- counts :: counts[k] <= 1) <==> DistinctKeys(ns)
  {
    var keys := Keys(ns);
    if forall k <- counts :: counts[k] <= 1 {
      OnceEachNoRepeats(keys);
      assert forall i :: 0 <= i < |ns| ==> ns[i].key == keys[i];
    } else if DistinctKeys(ns) {
      forall k: string { NoRepeatsOnceEach(keys, k); }
    }
  }

  // ---------------------------------------------------------------- the map view

  method GetFields(s: Secret) returns (m: View)
    ensures m == ToMap(NamedFields(s))
  {
    m := map[];
    for i := 0 to |s.fields|
      invariant m == ToMap(NamedFields(s)[..i])
    {
      assert NamedFields(s)[..i + 1][..i] == NamedFields(s)[..i];
      if |s.fields[i].value| > 0 {
        m := m[s.fields[i].kind := s.fields[i].value[0]];
      }
    }
    assert NamedFields(s)[..|s.fields|] == NamedFields(s);
  }

  method GetCustomFields(s: Secret) returns (m: View)
    ensures m == ToMap(NamedCustom(s))
  {
    m := map[];
    for i := 0 to |s.custom|
      invariant m == ToMap(NamedCustom(s)[..i])
    {
      assert NamedCustom(s)[..i + 1][..i] == NamedCustom(s)[..i];
      if |s.custom[i].value| > 0 {
        m := m[s.custom[i].caption := s.custom[i].value[0]];
      }
    }
    assert NamedCustom(s)[..|s.custom|] == NamedCustom(s);
  }

  method GetFiles(s: Secret) returns (m: View)
    ensures m == ToMap(NamedFiles(s))
  {
    m := map[];
    for i := 0 to |s.files|
      invariant m == ToMap(NamedFiles(s)[..i])
    {
      assert NamedFiles(s)[..i + 1][..i] == NamedFiles(s)[..i];
      m := m[s.files[i].title := s.files[i].content];
    }
    assert NamedFiles(s)[..|s.files|] == NamedFiles(s);
  }

  ghost function Combined(s: Secret): View {
    ToMap(NamedFields(s)) + ToMap(NamedCustom(s)) + ToMap(NamedFiles(s))
  }

  /** getItems: the one property asked for, or the whole map view if it is not empty. */
  method GetItems(s: Secret, property: string) returns (r: Result<View>)
    ensures property != "" ==> (r.Ok? <==> Property(s, property).Some?)
    ensures property != "" && r.Ok? ==> r.value == map[property := Property(s, property).value]
    ensures property == "" ==> r == if Combined(s) == map[] then Err("no fields") else Ok(Combined(s))
  {
    if property != "" {
      var value := GetProperty(s, property);
      return match value case None => Err("invalid property") case Some(v) => Ok(map[property := v]);
    }
    var fields := GetFields(s);
    var custom := GetCustomFields(s);
    var files := GetFiles(s);
    var all := fields + custom + files;
    assert |all| == 0 <==> all == map[];
    return if |all| == 0 then Err("no fields") else Ok(all);
  }

  // ---------------------------------------------------------------- lookup

  ghost predicate Special(key: string) {
    key == "fileRef" || key == "oneTimeCode"
  }

  ghost function Property(s: Secret, key: string): Option<string> {
    OrElse(if Special(key) then None else Search(NamedFields(s), key),
           OrElse(Search(NamedCustom(s), key), Search(NamedFiles(s), key)))
  }

  method GetField(s: Secret, key: string) returns (r: Option<string>)
    ensures r == if Special(key) then None else Search(NamedFields(s), key)
  {
    for i := 0 to |s.fields|
      invariant Special(key) || Search(NamedFields(s), key) == Search(NamedFields(s)[i..], key)
    {
      var f := s.fields[i];
      if f.kind == key && f.kind != FILE_REF && f.kind != ONE_TIME_CODE && |f.value| > 0 {
        return Some(f.value[0]);
      }
    }
    return None;
  }

  method GetCustomField(s: Secret, key: string) returns (r: Option<string>)
    ensures r == Search(NamedCustom(s), key)
  {
    for i := 0 to |s.custom|
      invariant Search(NamedCustom(s), key) == Search(NamedCustom(s)[i..], key)
    {
      if s.custom[i].caption == key && |s.custom[i].value| > 0 {
        return Some(s.custom[i].value[0]);
      }
    }
    return None;
  }

  method GetFile(s: Secret, key: string) returns (r: Option<string>)
    ensures r == Search(NamedFiles(s), key)
  {
    for i := 0 to |s.files|
      invariant Search(NamedFiles(s), key) == Search(NamedFiles(s)[i..], key)
    {
      if s.files[i].title == key {
        return Some(s.files[i].content);
      }
    }
    return None;
  }

  method GetProperty(s: Secret, key: string) returns (r: Option<string>)
    ensures r == Property(s, key)
  {
    var field := GetField(s, key);
    if field.Some? {
      return field;
    }
    var custom := GetCustomField(s, key);
    if custom.Some? {
      return custom;
    }
    r := GetFile(s, key);
  }

  // ---------------------------------------------------------------- the two views agree

  lemma {:induction false} ToMapConcat(a: seq<Named>, b: seq<Named>)
    ensures ToMap(a + b) == ToMap(a) + ToMap(b)
  {
    if b == [] {
      assert a + b == a;
    } else {
      ToMapConcat(a, b[..|b| - 1]);
      assert (a + b)[..|a + b| - 1] == a + b[..|b| - 1];
    }
  }

  lemma {:induction false} SearchConcat(a: seq<Named>, b: seq<Named>, key: string)
    ensures Search(a + b, key) == OrElse(Search(a, key), Search(b, key))
  {
    if a == [] {
      assert a + b == b;
    } else {
      SearchConcat(a[1..], b, key);
      assert (a + b)[1..] == a[1..] + b;
    }
  }

  /** In a record without duplicate keys, assigning all and searching first come to the same. */
  lemma SearchIsToMap(ns: seq<Named>, key: string)
    requires DistinctKeys(ns)
    ensures Get(ToMap(ns), key) == Search(ns, key)
  {
    forall v: string
      ensures Get(ToMap(ns), key) == Some(v) <==> Search(ns, key) == Some(v)
    {
      ToMapHas(ns, key, v);
      SearchHas(ns, key, v);
    }
  }

  lemma {:induction false} SearchFinds(ns: seq<Named>, key: string)
    ensures Search(ns, key).Some? <==> exists i :: 0 <= i < |ns| && ns[i].key == key && ns[i].value.Some?
  {
    if ns != [] {
      SearchFinds(ns[1..], key);
      assert forall i :: 0 <= i < |ns| - 1 ==> ns[1..][i] == ns[i + 1];
    }
  }

  /** A field with a value under one of the two types that lookups pass over. */
  ghost predicate HiddenField(s: Secret, key: string) {
    Special(key) && exists i :: 0 <= i < |s.fields| && s.fields[i].kind == key && s.fields[i].value != []
  }

  /** For every record that passes validate, map view and lookup agree on a key unless a field hides it. */
  lemma ViewsAgreeExactly(s: Secret, key: string)
    requires DistinctKeys(Parts(s))
    ensures Get(Combined(s), key) == Property(s, key) <==> !HiddenField(s, key)
  {
    var a, b, c := NamedFields(s), NamedCustom(s), NamedFiles(s);
    ToMapConcat(a, b);
    ToMapConcat(a + b, c);
    SearchConcat(a, b, key);
    SearchConcat(a + b, c, key);
    SearchConcat(b, c, key);
    SearchIsToMap(Parts(s), key);
    FieldHides(s, key);
  }

  lemma FieldHides(s: Secret, key: string)
    requires DistinctKeys(Parts(s))
    ensures HiddenField(s, key) <==> Special(key) && Search(NamedFields(s), key).Some?
    ensures Search(NamedFields(s), key).Some? ==> Search(NamedCustom(s) + NamedFiles(s), key).None?
  {
    var a, rest := NamedFields(s), NamedCustom(s) + NamedFiles(s);
    SearchFinds(a, key);
    SearchFinds(rest, key);
    assert Parts(s) == a + rest;
    assert forall i :: 0 <= i < |a| ==> a[i].key == s.fields[i].kind && a[i].value == FirstValue(s.fields[i].value);
    assert forall i :: 0 <= i < |a| ==> Parts(s)[i] == a[i];
    assert forall i :: 0 <= i < |rest| ==> Parts(s)[|a| + i] == rest[i];
  }

  /** A valid record whose one-time code the map view has and lookup does not. */
  lemma OneTimeCodeHidden(code: string) returns (s: Secret)
    ensures DistinctKeys(Parts(s))
    ensures Get(Combined(s), ONE_TIME_CODE) == Some(code) && Property(s, ONE_TIME_CODE) == None
  {
    s := Secret([Field(ONE_TIME_CODE, [code])], [], []);
    assert NamedFields(s) == [Named(ONE_TIME_CODE, Some(code))];
    assert NamedFields(s)[..0] == [];
  }
}
