/** 1Password vaults in their configured order, and the secrets collected from them. */
module OnePassword {
  import opened Common

  // ---------------------------------------------------------------- vault numbers

  type Vaults = map<string, int>

  ghost predicate UniqueNumbers(vaults: Vaults) {
    forall a <- vaults, b <- vaults :: vaults[a] == vaults[b] ==> a == b
  }

  ghost function Numbers(vaults: Vaults): set<int> {
    set k <- vaults :: vaults[k]
  }

  lemma OneMoreVault(vaults: Vaults, k: string, number: int)
    requires k !in vaults
    ensures Numbers(vaults[k := number]) == Numbers(vaults) + {number}
    ensures UniqueNumbers(vaults[k := number]) <==> UniqueNumbers(vaults) && number !in Numbers(vaults)
    ensures |vaults[k := number]| == |vaults| + 1
  {
    var more := vaults[k := number];
    assert forall l <- vaults :: l in more && more[l] == vaults[l];
    assert k in more && more[k] == number;
    assert more.Keys == vaults.Keys + {k};
  }

  method HasUniqueVaultNumbers(vaults: Vaults) returns (r: bool)
    ensures r <==> UniqueNumbers(vaults)
  {
    hide UniqueNumbers, Numbers;
    var unique: seq<int> := [];
    var tracker: set<int> := {};
    var todo := vaults.Keys;
    ghost var done: Vaults := map[];
    NoVaults();
    while todo != {}
      invariant todo <= vaults.Keys && done == map k | k in vaults && k !in todo :: vaults[k]
      invariant tracker == Numbers(done)
      invariant |unique| <= |done| && (UniqueNumbers(done) <==> |unique| == |done|)
      decreases todo
    {
      var k :| k in todo;
      todo := todo - {k};
      var number := vaults[k];
      OneMoreVault(done, k, number);
      done := done[k := number];
      if number !in tracker {
        tracker := tracker + {number};
        unique := unique + [number];
      }
    }
    assert done == vaults;
    return |vaults| == |unique|;
  }

  lemma NoVaults()
    ensures UniqueNumbers(map[]) && Numbers(map[]) == {}
  {
  }

  // ---------------------------------------------------------------- vault order

  datatype OrderedVault = OrderedVault(name: string, order: int)

  ghost predicate SortedUpTo(s: seq<OrderedVault>, n: nat)
    requires n <= |s|
  {
    forall i, j :: 0 <= i < j < n ==> s[i].order <= s[j].order
  }

  /** Sorted except that the element at `j` may be too far right. */
  ghost predicate SortedBut(s: seq<OrderedVault>, n: nat, j: nat)
    requires j < n <= |s|
  {
    && (forall a, b :: 0 <= a < b < n && a != j && b != j ==> s[a].order <= s[b].order)
    && (forall b :: j < b < n ==> s[j].order <= s[b].order)
  }

  method Swap(list: array<OrderedVault>, i: nat, j: nat)
    requires i < list.Length && j < list.Length
    modifies list
    ensures list[..] == old(list[..])[i := old(list[j])][j := old(list[i])]
    ensures multiset(list[..]) == old(multiset(list[..]))
  {
    list[i], list[j] := list[j], list[i];
  }

  /** Moves the element at `i` left to its place among the sorted ones before it. */
  method InsertLeft(list: array<OrderedVault>, i: nat)
    requires i < list.Length && SortedUpTo(list[..], i)
    modifies list
    ensures SortedUpTo(list[..], i + 1)
    ensures multiset(list[..]) == old(multiset(list[..]))
  {
    var j := i;
    while j > 0 && list[j].order < list[j - 1].order
      invariant 0 <= j <= i
      invariant SortedBut(list[..], i + 1, j)
      invariant multiset(list[..]) == old(multiset(list[..]))
    {
      Swap(list, j, j - 1);
      j := j - 1;
    }
  }

  /** sort.Sort by Order. */
  method SortByOrder(list: array<OrderedVault>)
    modifies list
    ensures SortedUpTo(list[..], list.Length)
    ensures multiset(list[..]) == old(multiset(list[..]))
  {
    for i := 0 to list.Length
      invariant SortedUpTo(list[..], i)
      invariant multiset(list[..]) == old(multiset(list[..]))
    {
      InsertLeft(list, i);
    }
  }

  /** `names` lists every vault once, by non-decreasing number. */
  ghost predicate VaultOrder(vaults: Vaults, names: seq<string>) {
    && (forall i :: 0 <= i < |names| ==> names[i] in vaults)
    && (forall v <- vaults :: v in names)
    && (forall i, j :: 0 <= i < j < |names| ==> names[i] != names[j] && vaults[names[i]] <= vaults[names[j]])
  }

  /** `list` holds each vault once. */
  ghost predicate Lists(vaults: Vaults, list: seq<OrderedVault>) {
    && (forall i :: 0 <= i < |list| ==> list[i].name in vaults && list[i].order == vaults[list[i].name])
    && NoRepeats(list)
    && (forall k <- vaults :: OrderedVault(k, vaults[k]) in list)
  }

  /** The loop that fills the list from the map. */
  method ListVaults(vaults: Vaults) returns (list: array<OrderedVault>)
    ensures fresh(list) && Lists(vaults, list[..])
  {
    list := new OrderedVault[|vaults|](_ => OrderedVault("", 0));
    var index := 0;
    var todo := vaults.Keys;
    while todo != {}
      invariant todo <= vaults.Keys && index + |todo| == list.Length
      invariant Lists(map k | k in vaults && k !in todo :: vaults[k], list[..index])
      decreases todo
    {
      var key :| key in todo;
      ghost var was, part := list[..index], map k | k in vaults && k !in todo :: vaults[k];
      todo := todo - {key};
      list[index] := OrderedVault(key, vaults[key]);
      assert list[..index + 1] == was + [OrderedVault(key, vaults[key])];
      ListsMore(part, was, key, vaults[key]);
      assert part[key := vaults[key]] == map k | k in vaults && k !in todo :: vaults[k];
      index := index + 1;
    }
    assert vaults == map k | k in vaults && k !in todo :: vaults[k];
    assert list[..index] == list[..];
  }

  lemma ListsMore(vaults: Vaults, list: seq<OrderedVault>, key: string, order: int)
    requires Lists(vaults, list) && key !in vaults
    ensures Lists(vaults[key := order], list + [OrderedVault(key, order)])
  {
  }

  method SortVaults(vaults: Vaults) returns (names: seq<string>)
    ensures VaultOrder(vaults, names)
  {
    var list := ListVaults(vaults);
    ghost var filled := list[..];
    SortByOrder(list);
    names := [];
    for i := 0 to list.Length
      invariant |names| == i && forall j :: 0 <= j < i ==> names[j] == list[j].name
    {
      names := names + [list[i].name];
    }
    SortedNames(vaults, filled, list[..], names);
  }

  lemma SortedNames(vaults: Vaults, filled: seq<OrderedVault>, list: seq<OrderedVault>, names: seq<string>)
    requires |names| == |list| && forall j :: 0 <= j < |names| ==> names[j] == list[j].name
    requires multiset(list) == multiset(filled) && Lists(vaults, filled)
    requires SortedUpTo(list, |list|)
    ensures VaultOrder(vaults, names)
  {
    forall x: OrderedVault { NoRepeatsOnceEach(filled, x); }
    OnceEachNoRepeats(list);
    forall i | 0 <= i < |names|
      ensures names[i] in vaults && list[i].order == vaults[names[i]]
    {
      assert list[i] in multiset(filled);
    }
    forall v <- vaults
      ensures v in names
    {
      assert OrderedVault(v, vaults[v]) in multiset(list);
      var i :| 0 <= i < |list| && list[i] == OrderedVault(v, vaults[v]);
      assert names[i] == v;
    }
  }

  /** When the numbers are unique there is one such order, whatever order the map is walked in. */
  lemma {:induction false} VaultOrderUnique(vaults: Vaults, a: seq<string>, b: seq<string>)
    requires UniqueNumbers(vaults) && VaultOrder(vaults, a) && VaultOrder(vaults, b)
    ensures a == b
  {
    if a == [] {
      NoNames(vaults, a, b);
    } else if b == [] {
      NoNames(vaults, b, a);
    } else {
      SameFirst(vaults, a, b);
      VaultOrderTail(vaults, a);
      VaultOrderTail(vaults, b);
      VaultOrderUnique(vaults - {a[0]}, a[1..], b[1..]);
      assert a == [a[0]] + a[1..] && b == [b[0]] + b[1..];
    }
  }

  lemma NoNames(vaults: Vaults, a: seq<string>, b: seq<string>)
    requires VaultOrder(vaults, a) && VaultOrder(vaults, b) && a == []
    ensures b == []
  {
    var first := if b == [] then "" else b[0];
    assert b != [] ==> first in vaults;
  }

  /** The first of each is the least numbered vault. */
  lemma SameFirst(vaults: Vaults, a: seq<string>, b: seq<string>)
    requires UniqueNumbers(vaults) && VaultOrder(vaults, a) && VaultOrder(vaults, b) && a != [] && b != []
    ensures a[0] == b[0]
  {
  }

  lemma VaultOrderTail(vaults: Vaults, names: seq<string>)
    requires VaultOrder(vaults, names) && names != []
    ensures VaultOrder(vaults - {names[0]}, names[1..])
  {
  }

  // ---------------------------------------------------------------- collecting secrets

  datatype Field = Field(title: string, value: Bytes)
  datatype File = File(name: string, id: string)
  datatype Item = Item(id: string, vaultId: string, title: string, document: bool, fields: seq<Field>, files: seq<File>)

  /** The Connect API; None where a call fails. */
  datatype Api = Api(
    vaultByTitle: string -> Option<string>,
    items: string -> Option<seq<Item>>,
    itemById: (string, string) -> Option<Item>,
    fileContent: File -> Option<Bytes>)

  datatype Find = Find(path: Option<string>, name: string -> bool)

  /** A name found somewhere, and its value if that can be had. */
  datatype Candidate = Candidate(name: string, value: Option<Bytes>)

  /** The candidates in order, the first of each name taken; None if one that is taken has no value. */
  function Collect(m: SecretData, cs: seq<Candidate>): Option<SecretData> {
    if cs == [] then Some(m)
    else
      match Collect(m, cs[..|cs| - 1])
      case None => None
      case Some(out) => Take(out, cs[|cs| - 1])
  }

  function Take(m: SecretData, c: Candidate): Option<SecretData> {
    if c.name in m then Some(m)
    else if c.value.None? then None
    else Some(m[c.name := c.value.value])
  }

  function FieldCandidates(fields: seq<Field>, find: Find): seq<Candidate> {
    if fields == [] then []
    else
      var f := fields[|fields| - 1];
      var before := FieldCandidates(fields[..|fields| - 1], find);
      if find.name(f.title) then before + [Candidate(f.title, Some(f.value))] else before
  }

  function FileCandidates(api: Api, files: seq<File>, find: Find): seq<Candidate> {
    if files == [] then []
    else
      var f := files[|files| - 1];
      var before := FileCandidates(api, files[..|files| - 1], find);
      if find.name(f.name) then before + [Candidate(f.name, api.fileContent(f))] else before
  }

  predicate DistinctLabels(fields: seq<Field>) {
    forall i, j :: 0 <= i < j < |fields| ==> fields[i].title != fields[j].title
  }

  /** What one item contributes; None if it cannot be read or repeats a label. */
  function ItemCandidates(api: Api, item: Item, find: Find): Option<seq<Candidate>> {
    if find.path.Some? && find.path.value != item.title then Some([])
    else if item.document then Some(FileCandidates(api, item.files, find))
    else
      match api.itemById(item.id, item.vaultId)
      case None => None
      case Some(i) => if DistinctLabels(i.fields) then Some(FieldCandidates(i.fields, find)) else None
  }

  function ItemsCandidates(api: Api, items: seq<Item>, find: Find): Option<seq<Candidate>> {
    if items == [] then Some([])
    else Append(ItemsCandidates(api, items[..|items| - 1], find), ItemCandidates(api, items[|items| - 1], find))
  }

  function Append(a: Option<seq<Candidate>>, b: Option<seq<Candidate>>): Option<seq<Candidate>> {
    if a.Some? && b.Some? then Some(a.value + b.value) else None
  }

  function VaultCandidates(api: Api, title: string, find: Find): Option<seq<Candidate>> {
    match api.vaultByTitle(title)
    case None => None
    case Some(id) =>
      match api.items(id)
      case None => None
      case Some(items) => ItemsCandidates(api, items, find)
  }

  /** All candidates, vault by vault and item by item. */
  function AllCandidates(api: Api, titles: seq<string>, find: Find): Option<seq<Candidate>> {
    if titles == [] then Some([])
    else Append(AllCandidates(api, titles[..|titles| - 1], find), VaultCandidates(api, titles[|titles| - 1], find))
  }

  /** `m` holds the names of the candidates, each with the value of the first candidate of that name. */
  ghost predicate FirstWins(m: SecretData, cs: seq<Candidate>) {
    && (forall k <- m :: exists i :: 0 <= i < |cs| && cs[i].name == k)
    && (forall i :: 0 <= i < |cs| && IsFirst(cs, i) ==> cs[i].name in m && cs[i].value == Some(m[cs[i].name]))
  }

  ghost predicate IsFirst(cs: seq<Candidate>, i: nat)
    requires i < |cs|
  {
    forall j :: 0 <= j < i ==> cs[j].name != cs[i].name
  }

  /** One more candidate, taken only if its name is new. */
  lemma TakeFirstWins(m: SecretData, cs: seq<Candidate>, c: Candidate)
    requires FirstWins(m, cs) && Take(m, c).Some?
    ensures FirstWins(Take(m, c).value, cs + [c])
  {
    var all := cs + [c];
    assert all[|cs|] == c;
    forall k <- Take(m, c).value
      ensures exists i :: 0 <= i < |all| && all[i].name == k
    {
      if k in m {
        var i :| 0 <= i < |cs| && cs[i].name == k;
        assert all[i].name == k;
      }
    }
    forall i | 0 <= i < |cs| && IsFirst(all, i)
      ensures cs[i].name in m && cs[i].value == Some(m[cs[i].name])
    {
      assert forall j :: 0 <= j < i ==> all[j] == cs[j];
      assert IsFirst(cs, i);
    }
    if c.name in m {
      var i :| 0 <= i < |cs| && cs[i].name == c.name;
      assert all[i].name == c.name;
    }
  }

  lemma {:induction false} CollectFirstWins(cs: seq<Candidate>)
    requires Collect(map[], cs).Some?
    ensures FirstWins(Collect(map[], cs).value, cs)
  {
    if cs != [] {
      hide FirstWins, Take;
      var n := |cs| - 1;
      CollectFirstWins(cs[..n]);
      TakeFirstWins(Collect(map[], cs[..n]).value, cs[..n], cs[n]);
      assert cs == cs[..n] + [cs[n]];
    }
  }

  lemma {:induction false} CollectConcat(m: SecretData, a: seq<Candidate>, b: seq<Candidate>)
    ensures Collect(m, a + b) == if Collect(m, a).None? then None else Collect(Collect(m, a).value, b)
  {
    if b == [] {
      assert a + b == a;
    } else {
      CollectConcat(m, a, b[..|b| - 1]);
      assert (a + b)[..|a + b| - 1] == a + b[..|b| - 1];
    }
  }

  /** A collection that succeeds has succeeded at every point before. */
  lemma {:induction false} CollectPrefix(m: SecretData, a: seq<Candidate>, b: seq<Candidate>)
    requires a <= b && Collect(m, b).Some?
    ensures Collect(m, a).Some?
  {
    if a != b {
      assert a <= b[..|b| - 1];
      CollectPrefix(m, a, b[..|b| - 1]);
    }
  }

  /** It succeeds exactly when the first candidate of every name has a value. */
  lemma {:induction false} CollectSucceedsExactly(cs: seq<Candidate>)
    ensures Collect(map[], cs).Some? <==> FirstsHaveValues(cs)
  {
    if cs != [] {
      var n := |cs| - 1;
      CollectSucceedsExactly(cs[..n]);
      assert forall i :: 0 <= i < n ==> (IsFirst(cs, i) <==> IsFirst(cs[..n], i));
      assert FirstsHaveValues(cs) <==> FirstsHaveValues(cs[..n]) && (IsFirst(cs, n) ==> cs[n].value.Some?);
      if Collect(map[], cs[..n]).Some? {
        CollectFirstWins(cs[..n]);
        NewName(Collect(map[], cs[..n]).value, cs);
      }
    }
  }

  lemma NewName(m: SecretData, cs: seq<Candidate>)
    requires cs != [] && FirstWins(m, cs[..|cs| - 1])
    ensures cs[|cs| - 1].name in m <==> !IsFirst(cs, |cs| - 1)
  {
    var n := |cs| - 1;
    if !IsFirst(cs, n) {
      var j :| 0 <= j < n && cs[j].name == cs[n].name;
      var f := FirstOf(cs[..n], j);
    }
  }

  ghost predicate FirstsHaveValues(cs: seq<Candidate>) {
    forall i :: 0 <= i < |cs| && IsFirst(cs, i) ==> cs[i].value.Some?
  }

  lemma {:induction false} FilesPrefix(api: Api, files: seq<File>, n: nat, find: Find)
    requires n <= |files|
    ensures FileCandidates(api, files[..n], find) <= FileCandidates(api, files, find)
  {
    if n < |files| {
      FilesPrefix(api, files[..|files| - 1], n, find);
      assert files[..|files| - 1][..n] == files[..n];
    } else {
      assert files[..n] == files;
    }
  }

  lemma {:induction false} ItemsPrefix(api: Api, items: seq<Item>, n: nat, find: Find)
    requires n <= |items| && ItemsCandidates(api, items, find).Some?
    ensures var some := ItemsCandidates(api, items[..n], find);
            some.Some? && some.value <= ItemsCandidates(api, items, find).value
  {
    hide ItemCandidates;
    if n < |items| {
      ItemsPrefix(api, items[..|items| - 1], n, find);
      assert items[..|items| - 1][..n] == items[..n];
    } else {
      assert items[..n] == items;
    }
  }

  lemma {:induction false} VaultsPrefix(api: Api, titles: seq<string>, n: nat, find: Find)
    requires n <= |titles| && AllCandidates(api, titles, find).Some?
    ensures var some := AllCandidates(api, titles[..n], find);
            some.Some? && some.value <= AllCandidates(api, titles, find).value
  {
    hide VaultCandidates;
    if n < |titles| {
      VaultsPrefix(api, titles[..|titles| - 1], n, find);
      assert titles[..|titles| - 1][..n] == titles[..n];
    } else {
      assert titles[..n] == titles;
    }
  }

  /** All candidates can be had, and so can the values of those that are taken. */
  ghost predicate Collectable(m: SecretData, cs: Option<seq<Candidate>>) {
    cs.Some? && Collect(m, cs.value).Some?
  }

  method CountFieldsWithLabel(title: string, fields: seq<Field>) returns (count: nat)
    ensures count == |set i | 0 <= i < |fields| && fields[i].title == title|
  {
    count := 0;
    for i := 0 to |fields|
      invariant count == |set j | 0 <= j < i && fields[j].title == title|
    {
      ghost var before := set j | 0 <= j < i && fields[j].title == title;
      ghost var after := set j | 0 <= j < i + 1 && fields[j].title == title;
      if fields[i].title == title {
        assert after == before + {i};
        count := count + 1;
      } else {
        assert after == before;
      }
    }
  }

  lemma CountOne(fields: seq<Field>, i: nat)
    requires i < |fields|
    ensures |set j | 0 <= j < |fields| && fields[j].title == fields[i].title| == 1 <==>
            forall j :: 0 <= j < |fields| && j != i ==> fields[j].title != fields[i].title
  {
    var same := set j | 0 <= j < |fields| && fields[j].title == fields[i].title;
    var rest := same - {i};
    assert same == rest + {i} && |same| == |rest| + 1;
    assert forall j :: j in rest <==> 0 <= j < |fields| && j != i && fields[j].title == fields[i].title;
  }

  lemma NotCollected(m: SecretData, a: seq<Candidate>, b: seq<Candidate>)
    requires a <= b && Collect(m, a).None?
    ensures Collect(m, b).None?
  {
    if Collect(m, b).Some? {
      CollectPrefix(m, a, b);
    }
  }

  /** getAllFields. */
  method AddFields(api: Api, item: Item, find: Find, m: SecretData) returns (ok: bool, out: SecretData)
    requires !item.document && (find.path.Some? ==> find.path.value == item.title)
    ensures ok <==> ItemCandidates(api, item, find).Some?
    ensures ok ==> var cs := ItemCandidates(api, item, find); cs.Some? && Collect(m, cs.value) == Some(out)
  {
    out := m;
    var i := api.itemById(item.id, item.vaultId);
    if i.None? {
      return false, m;
    }
    var fields := i.value.fields;
    for n := 0 to |fields|
      invariant forall a, b :: 0 <= a < n && 0 <= b < |fields| && a != b ==> fields[a].title != fields[b].title
      invariant Collect(m, FieldCandidates(fields[..n], find)) == Some(out)
    {
      assert fields[..n + 1][..n] == fields[..n];
      var count := CountFieldsWithLabel(fields[n].title, fields);
      CountOne(fields, n);
      if count != 1 {
        return false, m;
      }
      ghost var before := FieldCandidates(fields[..n], find);
      ghost var c := Candidate(fields[n].title, Some(fields[n].value));
      assert (before + [c])[..|before|] == before;
      if !find.name(fields[n].title) {
        continue;
      }
      if fields[n].title !in out {
        out := out[fields[n].title := fields[n].value];
      }
    }
    assert fields[..|fields|] == fields;
    ok := true;
  }

  /** getAllFiles: contents are fetched only for names not yet there. */
  method AddFiles(api: Api, files: seq<File>, find: Find, m: SecretData) returns (ok: bool, out: SecretData)
    ensures ok <==> Collect(m, FileCandidates(api, files, find)).Some?
    ensures ok ==> Collect(m, FileCandidates(api, files, find)) == Some(out)
  {
    out := m;
    for n := 0 to |files|
      invariant Collect(m, FileCandidates(api, files[..n], find)) == Some(out)
    {
      assert files[..n + 1][..n] == files[..n];
      ghost var before := FileCandidates(api, files[..n], find);
      ghost var c := Candidate(files[n].name, api.fileContent(files[n]));
      assert (before + [c])[..|before|] == before;
      if !find.name(files[n].name) {
        continue;
      }
      FilesPrefix(api, files, n + 1, find);
      if files[n].name !in out {
        var contents := api.fileContent(files[n]);
        if contents.None? {
          NotCollected(m, FileCandidates(api, files[..n + 1], find), FileCandidates(api, files, find));
          return false, m;
        }
        out := out[files[n].name := contents.value];
      }
    }
    assert files[..|files|] == files;
    ok := true;
  }

  lemma ItemsFail(api: Api, items: seq<Item>, n: nat, find: Find, m: SecretData)
    requires n < |items| && Collectable(m, ItemsCandidates(api, items[..n], find))
    requires var out := Collect(m, ItemsCandidates(api, items[..n], find).value).value;
             !Collectable(out, ItemCandidates(api, items[n], find))
    ensures !Collectable(m, ItemsCandidates(api, items, find))
  {
    hide ItemCandidates, Collect;
    if Collectable(m, ItemsCandidates(api, items, find)) {
      ItemsPrefix(api, items, n + 1, find);
      assert items[..n + 1][..n] == items[..n];
      CollectPrefix(m, ItemsCandidates(api, items[..n + 1], find).value, ItemsCandidates(api, items, find).value);
      CollectConcat(m, ItemsCandidates(api, items[..n], find).value, ItemCandidates(api, items[n], find).value);
    }
  }

  /** getAllForVault, for the items of one vault. */
  method AddItems(api: Api, items: seq<Item>, find: Find, m: SecretData) returns (ok: bool, out: SecretData)
    ensures ok <==> Collectable(m, ItemsCandidates(api, items, find))
    ensures ok ==> var cs := ItemsCandidates(api, items, find); cs.Some? && Collect(m, cs.value) == Some(out)
  {
    out := m;
    for n := 0 to |items|
      invariant ItemsCandidates(api, items[..n], find).Some?
      invariant Collect(m, ItemsCandidates(api, items[..n], find).value) == Some(out)
    {
      assert items[..n + 1][..n] == items[..n];
      ghost var before := ItemsCandidates(api, items[..n], find).value;
      var item := items[n];
      if find.path.Some? && find.path.value != item.title {
        assert before + [] == before;
        continue;
      }
      if item.document {
        ok, out := AddFiles(api, item.files, find, out);
      } else {
        ok, out := AddFields(api, item, find, out);
      }
      if !ok {
        ItemsFail(api, items, n, find, m);
        return false, m;
      }
      CollectConcat(m, before, ItemCandidates(api, item, find).value);
    }
    assert items[..|items|] == items;
    ok := true;
  }

  lemma VaultsFail(api: Api, titles: seq<string>, n: nat, find: Find, m: SecretData)
    requires n < |titles| && m == map[] && Collectable(m, AllCandidates(api, titles[..n], find))
    requires var out := Collect(m, AllCandidates(api, titles[..n], find).value).value;
             !Collectable(out, VaultCandidates(api, titles[n], find))
    ensures AllCandidates(api, titles, find).Some? ==> !FirstsHaveValues(AllCandidates(api, titles, find).value)
  {
    hide VaultCandidates, Collect;
    var all := AllCandidates(api, titles, find);
    if all.Some? {
      CollectSucceedsExactly(all.value);
      if Collect(m, all.value).Some? {
        VaultsPrefix(api, titles, n + 1, find);
        assert titles[..n + 1][..n] == titles[..n];
        CollectPrefix(m, AllCandidates(api, titles[..n + 1], find).value, all.value);
        CollectConcat(m, AllCandidates(api, titles[..n], find).value, VaultCandidates(api, titles[n], find).value);
      }
    }
  }

  /**
    GetAllSecrets: on success each name holds the first matching value, in vault order and then
    item order. With unique vault numbers that order is a function of the vaults alone.
   */
  method GetAllSecrets(api: Api, vaults: Vaults, find: Find) returns (r: Result<SecretData>, titles: seq<string>)
    ensures VaultOrder(vaults, titles)
    ensures r.Ok? <==>
              AllCandidates(api, titles, find).Some? && FirstsHaveValues(AllCandidates(api, titles, find).value)
    ensures r.Ok? ==>
              AllCandidates(api, titles, find).Some? && FirstWins(r.value, AllCandidates(api, titles, find).value)
  {
    titles := SortVaults(vaults);
    var secretData: SecretData := map[];
    for n := 0 to |titles|
      invariant AllCandidates(api, titles[..n], find).Some?
      invariant Collect(map[], AllCandidates(api, titles[..n], find).value) == Some(secretData)
    {
      assert titles[..n + 1][..n] == titles[..n];
      ghost var before := AllCandidates(api, titles[..n], find).value;
      var id := api.vaultByTitle(titles[n]);
      if id.None? {
        VaultsFail(api, titles, n, find, map[]);
        return Err("unable to get vault"), titles;
      }
      var items := api.items(id.value);
      if items.None? {
        VaultsFail(api, titles, n, find, map[]);
        return Err("unable to get items"), titles;
      }
      var ok;
      ok, secretData := AddItems(api, items.value, find, secretData);
      if !ok {
        VaultsFail(api, titles, n, find, map[]);
        return Err("unable to get item"), titles;
      }
      CollectConcat(map[], before, VaultCandidates(api, titles[n], find).value);
    }
    assert titles[..|titles|] == titles;
    CollectFirstWins(AllCandidates(api, titles, find).value);
    CollectSucceedsExactly(AllCandidates(api, titles, find).value);
    return Ok(secretData), titles;
  }

  /** With unique vault numbers, what GetAllSecrets may return does not depend on map order. */
  lemma ResultDependsOnSpecOnly(api: Api, vaults: Vaults, find: Find,
                                titles: seq<string>, m: SecretData, titles': seq<string>, m': SecretData)
    requires UniqueNumbers(vaults) && VaultOrder(vaults, titles) && VaultOrder(vaults, titles')
    requires AllCandidates(api, titles, find).Some? && AllCandidates(api, titles', find).Some?
    requires FirstWins(m, AllCandidates(api, titles, find).value)
    requires FirstWins(m', AllCandidates(api, titles', find).value)
    ensures m == m'
  {
    VaultOrderUnique(vaults, titles, titles');
    FirstWinsUnique(AllCandidates(api, titles, find).value, m, m');
  }

  lemma FirstWinsUnique(cs: seq<Candidate>, m: SecretData, m': SecretData)
    requires FirstWins(m, cs) && FirstWins(m', cs)
    ensures m == m'
  {
    forall i | 0 <= i < |cs|
      ensures cs[i].name in m && cs[i].name in m' && m[cs[i].name] == m'[cs[i].name]
    {
      var f := FirstOf(cs, i);
    }
  }

  lemma {:induction false} FirstOf(cs: seq<Candidate>, i: nat) returns (f: nat)
    requires i < |cs|
    ensures f <= i && cs[f].name == cs[i].name && IsFirst(cs, f)
  {
    f := i;
    if !IsFirst(cs, i) {
      var j :| 0 <= j < i && cs[j].name == cs[i].name;
      f := FirstOf(cs, j);
    }
  }
}
