/** Group and project variables of GitLab merged into one map, page by page. */
module GitLab {
  import opened Common

  datatype Variable = Variable(key: string, scope: string, value: Bytes)

  type Matcher = string -> bool

  predicate IsEmptyOrWildcard(environment: string) {
    environment == "" || environment == "*"
  }

  datatype Filtered = Filtered(matching: bool, key: string, isWildcard: bool)

  function MatchesFilter(environment: string, v: Variable, matcher: Matcher): Filtered {
    var isWildcard := IsEmptyOrWildcard(v.scope);
    if !isWildcard && !IsEmptyOrWildcard(environment) && v.scope != environment then Filtered(false, "", isWildcard)
    else if v.key == "" || !matcher(v.key) then Filtered(false, "", isWildcard)
    else Filtered(true, v.key, isWildcard)
  }

  // ---------------------------------------------------------------- what the loops compute

  function WithGroupVariable(m: SecretData, environment: string, v: Variable, matcher: Matcher): SecretData {
    var f := MatchesFilter(environment, v, matcher);
    if !f.matching && !f.isWildcard then m else m[f.key := v.value]
  }

  function WithProjectVariable(m: SecretData, environment: string, v: Variable, matcher: Matcher): SecretData {
    var f := MatchesFilter(environment, v, matcher);
    if !f.matching || (f.key in m && f.isWildcard) then m else m[f.key := v.value]
  }

  function WithGroup(m: SecretData, environment: string, vars: seq<Variable>, matcher: Matcher): SecretData {
    if vars == [] then m
    else
      var n := |vars| - 1;
      WithGroupVariable(WithGroup(m, environment, vars[..n], matcher), environment, vars[n], matcher)
  }

  function WithProject(m: SecretData, environment: string, vars: seq<Variable>, matcher: Matcher): SecretData {
    if vars == [] then m
    else
      var n := |vars| - 1;
      WithProjectVariable(WithProject(m, environment, vars[..n], matcher), environment, vars[n], matcher)
  }

  /** All variables of a paginated listing, in order. */
  function Flat(pages: seq<seq<Variable>>): seq<Variable> {
    if pages == [] then [] else Flat(pages[..|pages| - 1]) + pages[|pages| - 1]
  }

  // ---------------------------------------------------------------- the closed form

  /** A scope for every environment. */
  predicate Wildcard(scope: string) {
    scope == "" || scope == "*"
  }

  /** A variable for `key`, a name asked for, whose scope and the environment agree. */
  predicate Applies(environment: string, v: Variable, matcher: Matcher, key: string) {
    && v.key == key && key != "" && matcher(key)
    && (v.scope == environment || Wildcard(v.scope) || Wildcard(environment))
  }

  /** The value of the last variable satisfying `p`. */
  function Last(vars: seq<Variable>, p: Variable -> bool): (r: Option<Bytes>)
    ensures r.None? <==> forall i :: 0 <= i < |vars| ==> !p(vars[i])
    ensures r.Some? ==> exists i :: 0 <= i < |vars| && p(vars[i]) && r.value == vars[i].value
                                    && forall j :: i < j < |vars| ==> !p(vars[j])
  {
    var n := |vars| - 1;
    if vars == [] then None
    else if p(vars[n]) then Some(vars[n].value)
    else Last(vars[..n], p)
  }

  /** The value of the first variable satisfying `p`. */
  function First(vars: seq<Variable>, p: Variable -> bool): (r: Option<Bytes>)
    ensures r.None? <==> forall i :: 0 <= i < |vars| ==> !p(vars[i])
    ensures r.Some? ==> exists i :: 0 <= i < |vars| && p(vars[i]) && r.value == vars[i].value
                                    && forall j :: 0 <= j < i ==> !p(vars[j])
  {
    var n := |vars| - 1;
    if vars == [] then None
    else
      var before := First(vars[..n], p);
      if before.Some? then before
      else if p(vars[n]) then Some(vars[n].value) else None
  }

  /**
    The last matching scoped project variable, else the last matching group variable, else the
    first matching wildcard project variable.
   */
  function Precedence(
      environment: string, matcher: Matcher, groups: seq<Variable>, project: seq<Variable>, key: string): Option<Bytes>
  {
    OrElse(Last(project, v => Applies(environment, v, matcher, key) && !Wildcard(v.scope)),
    OrElse(Last(groups, v => Applies(environment, v, matcher, key)),
           First(project, v => Applies(environment, v, matcher, key) && Wildcard(v.scope))))
  }

  lemma {:induction false} GroupClosedForm(environment: string, matcher: Matcher, vars: seq<Variable>, key: string)
    requires key != ""
    ensures Get(WithGroup(map[], environment, vars, matcher), key) ==
            Last(vars, v => Applies(environment, v, matcher, key))
  {
    if vars != [] {
      GroupClosedForm(environment, matcher, vars[..|vars| - 1], key);
    }
  }

  lemma {:induction false} ProjectClosedForm(
      m: SecretData, environment: string, matcher: Matcher, vars: seq<Variable>, key: string)
    requires key != ""
    ensures Get(WithProject(m, environment, vars, matcher), key) ==
            OrElse(Last(vars, v => Applies(environment, v, matcher, key) && !Wildcard(v.scope)),
            OrElse(Get(m, key),
                   First(vars, v => Applies(environment, v, matcher, key) && Wildcard(v.scope))))
  {
    if vars != [] {
      ProjectClosedForm(m, environment, matcher, vars[..|vars| - 1], key);
    }
  }

  /** The merged map is the closed form, for every non-empty key and however the pages are cut. */
  lemma ClosedForm(environment: string, matcher: Matcher, groups: seq<Variable>, project: seq<Variable>, key: string)
    requires key != ""
    ensures Get(WithProject(WithGroup(map[], environment, groups, matcher), environment, project, matcher), key) ==
            Precedence(environment, matcher, groups, project, key)
  {
    GroupClosedForm(environment, matcher, groups, key);
    ProjectClosedForm(WithGroup(map[], environment, groups, matcher), environment, matcher, project, key);
  }

  // ---------------------------------------------------------------- concatenation

  lemma {:induction false} WithGroupConcat(
      m: SecretData, environment: string, a: seq<Variable>, b: seq<Variable>, matcher: Matcher)
    ensures WithGroup(m, environment, a + b, matcher) ==
            WithGroup(WithGroup(m, environment, a, matcher), environment, b, matcher)
  {
    if b == [] {
      assert a + b == a;
    } else {
      WithGroupConcat(m, environment, a, b[..|b| - 1], matcher);
      assert (a + b)[..|a + b| - 1] == a + b[..|b| - 1];
    }
  }

  lemma {:induction false} WithProjectConcat(
      m: SecretData, environment: string, a: seq<Variable>, b: seq<Variable>, matcher: Matcher)
    ensures WithProject(m, environment, a + b, matcher) ==
            WithProject(WithProject(m, environment, a, matcher), environment, b, matcher)
  {
    if b == [] {
      assert a + b == a;
    } else {
      WithProjectConcat(m, environment, a, b[..|b| - 1], matcher);
      assert (a + b)[..|a + b| - 1] == a + b[..|b| - 1];
    }
  }

  /** The variables of the pages up to `page`. */
  ghost function UpTo(pages: seq<seq<Variable>>, page: nat): seq<Variable> {
    if page < |pages| then Flat(pages[..page]) else Flat(pages)
  }

  /** One more page of a listing; the only page of an empty listing is empty. */
  lemma FlatPage(pages: seq<seq<Variable>>, page: nat)
    requires 1 <= page && (page == 1 || page <= |pages|)
    ensures Flat(pages[..page - 1]) + (if page <= |pages| then pages[page - 1] else []) ==
            UpTo(pages, page)
  {
    hide Flat;
    if page <= |pages| {
      FlatFront(pages, page);
      assert page == |pages| ==> pages[..page] == pages;
    } else {
      assert pages[..page - 1] == pages;
    }
  }

  lemma FlatFront(pages: seq<seq<Variable>>, n: nat)
    requires 0 < n <= |pages|
    ensures Flat(pages[..n]) == Flat(pages[..n - 1]) + pages[n - 1]
  {
    assert pages[..n][..n - 1] == pages[..n - 1];
  }

  // ---------------------------------------------------------------- the provider

  /** The pages of a listing, and the numbers of those whose request fails. */
  datatype Listing = Listing(pages: seq<seq<Variable>>, fails: set<int>)

  /** Every page that is asked for can be read; the first one is always asked for. */
  ghost predicate Readable(l: Listing) {
    1 !in l.fails && forall p :: 1 <= p <= |l.pages| ==> p !in l.fails
  }

  datatype Response = Response(vars: seq<Variable>, currentPage: nat, totalPages: nat)

  /** ListVariables: page `page` of a listing, counted from 1. */
  method ListVariables(l: Listing, page: nat) returns (r: Option<Response>)
    requires page >= 1
    ensures r.Some? <==> page !in l.fails
    ensures r.Some? ==>
              r.value == Response(if page <= |l.pages| then l.pages[page - 1] else [], page, |l.pages|)
  {
    if page in l.fails {
      return None;
    }
    return Some(Response(if page <= |l.pages| then l.pages[page - 1] else [], page, |l.pages|));
  }

  class Gitlab {
    var environment: string

    constructor (environment: string)
      ensures this.environment == environment
    {
      this.environment := environment;
    }

    method AddGroupPage(m: SecretData, vars: seq<Variable>, matcher: Matcher) returns (out: SecretData)
      ensures out == WithGroup(m, environment, vars, matcher)
    {
      out := m;
      for i := 0 to |vars|
        invariant out == WithGroup(m, environment, vars[..i], matcher)
      {
        assert vars[..i + 1][..i] == vars[..i];
        var f := MatchesFilter(environment, vars[i], matcher);
        if !f.matching && !f.isWildcard {
          continue;
        }
        out := out[f.key := vars[i].value];
      }
      assert vars[..|vars|] == vars;
    }

    /** The page loop for one group. */
    method AddGroup(m: SecretData, l: Listing, matcher: Matcher) returns (ok: bool, out: SecretData)
      ensures ok <==> Readable(l)
      ensures ok ==> out == WithGroup(m, environment, Flat(l.pages), matcher)
    {
      assert l.pages[..0] == [] && WithGroup(m, environment, Flat([]), matcher) == m;
      hide WithGroup, Flat;
      out := m;
      var page := 1;
      while true
        invariant 1 <= page && (page == 1 || page <= |l.pages|)
        invariant forall p :: 1 <= p < page ==> p !in l.fails
        invariant out == WithGroup(m, environment, Flat(l.pages[..page - 1]), matcher)
        decreases |l.pages| - page
      {
        var done;
        ok, done, out := AddGroupPageOf(out, l, page, matcher, m);
        if !ok || done {
          return;
        }
        page := page + 1;
      }
    }

    /** One turn of that loop: the page is read and added. */
    method AddGroupPageOf(m: SecretData, l: Listing, page: nat, matcher: Matcher, ghost start: SecretData)
      returns (ok: bool, done: bool, out: SecretData)
      requires 1 <= page && (page == 1 || page <= |l.pages|)
      requires m == WithGroup(start, environment, Flat(l.pages[..page - 1]), matcher)
      ensures ok <==> page !in l.fails
      ensures ok ==> (done <==> page >= |l.pages|)
      ensures ok ==> out == WithGroup(start, environment, UpTo(l.pages, page), matcher)
    {
      hide WithGroup, Flat, UpTo;
      var response := ListVariables(l, page);
      if response.None? {
        return false, false, m;
      }
      out := AddGroupPage(m, response.value.vars, matcher);
      WithGroupConcat(start, environment, Flat(l.pages[..page - 1]), response.value.vars, matcher);
      FlatPage(l.pages, page);
      return true, response.value.currentPage >= response.value.totalPages, out;
    }

    method AddProjectPage(m: SecretData, vars: seq<Variable>, matcher: Matcher) returns (out: SecretData)
      ensures out == WithProject(m, environment, vars, matcher)
    {
      out := m;
      for i := 0 to |vars|
        invariant out == WithProject(m, environment, vars[..i], matcher)
      {
        assert vars[..i + 1][..i] == vars[..i];
        var f := MatchesFilter(environment, vars[i], matcher);
        if !f.matching {
          continue;
        }
        if f.key in out && f.isWildcard {
          continue;
        }
        out := out[f.key := vars[i].value];
      }
      assert vars[..|vars|] == vars;
    }

    /** The page loop for the project. */
    method AddProject(m: SecretData, l: Listing, matcher: Matcher) returns (ok: bool, out: SecretData)
      ensures ok <==> Readable(l)
      ensures ok ==> out == WithProject(m, environment, Flat(l.pages), matcher)
    {
      assert l.pages[..0] == [] && WithProject(m, environment, Flat([]), matcher) == m;
      hide WithProject, Flat;
      out := m;
      var page := 1;
      while true
        invariant 1 <= page && (page == 1 || page <= |l.pages|)
        invariant forall p :: 1 <= p < page ==> p !in l.fails
        invariant out == WithProject(m, environment, Flat(l.pages[..page - 1]), matcher)
        decreases |l.pages| - page
      {
        var done;
        ok, done, out := AddProjectPageOf(out, l, page, matcher, m);
        if !ok || done {
          return;
        }
        page := page + 1;
      }
    }

    /** One turn of that loop: the page is read and added. */
    method AddProjectPageOf(m: SecretData, l: Listing, page: nat, matcher: Matcher, ghost start: SecretData)
      returns (ok: bool, done: bool, out: SecretData)
      requires 1 <= page && (page == 1 || page <= |l.pages|)
      requires m == WithProject(start, environment, Flat(l.pages[..page - 1]), matcher)
      ensures ok <==> page !in l.fails
      ensures ok ==> (done <==> page >= |l.pages|)
      ensures ok ==> out == WithProject(start, environment, UpTo(l.pages, page), matcher)
    {
      hide WithProject, Flat, UpTo;
      var response := ListVariables(l, page);
      if response.None? {
        return false, false, m;
      }
      out := AddProjectPage(m, response.value.vars, matcher);
      WithProjectConcat(start, environment, Flat(l.pages[..page - 1]), response.value.vars, matcher);
      FlatPage(l.pages, page);
      return true, response.value.currentPage >= response.value.totalPages, out;
    }

    /** The store names one environment and the tags another. */
    static ghost predicate Constricted(environment: string, tag: Option<string>) {
      tag.Some? && environment != "" && environment != "*" && tag.value != "" && tag.value != "*"
    }

    /** GetAllSecrets; `tag` is the environment asked for in find.tags, which the client keeps. */
    method GetAllSecrets(
        tag: Option<string>, matcher: Matcher, groups: seq<Listing>, project: Listing)
      returns (r: Result<SecretData>)
      modifies this
      ensures r.Ok? <==>
                && !Constricted(old(environment), tag)
                && Readable(project) && forall g <- groups :: Readable(g)
      ensures environment == if tag.Some? && !Constricted(old(environment), tag) then tag.value else old(environment)
      ensures r.Ok? ==> forall key: string | key != "" ::
                Get(r.value, key) == Precedence(environment, matcher, FlatGroups(groups), Flat(project.pages), key)
    {
      if tag.Some? {
        if !IsEmptyOrWildcard(environment) && !IsEmptyOrWildcard(tag.value) {
          return Err("environment is already constricted by the store");
        }
        environment := tag.value;
      }
      var secretData: SecretData := map[];
      var ok;
      for g := 0 to |groups|
        invariant secretData == WithGroup(map[], environment, FlatGroups(groups[..g]), matcher)
        invariant environment == if tag.Some? then tag.value else old(environment)
        invariant !Constricted(old(environment), tag) && forall h :: 0 <= h < g ==> Readable(groups[h])
      {
        ghost var before := secretData;
        ok, secretData := AddGroup(secretData, groups[g], matcher);
        if !ok {
          return Err("could not list group variables");
        }
        assert groups[..g + 1][..g] == groups[..g];
        WithGroupConcat(map[], environment, FlatGroups(groups[..g]), Flat(groups[g].pages), matcher);
      }
      assert groups[..|groups|] == groups;
      ok, secretData := AddProject(secretData, project, matcher);
      if !ok {
        return Err("could not list project variables");
      }
      forall key: string | key != ""
        ensures Get(secretData, key) == Precedence(environment, matcher, FlatGroups(groups), Flat(project.pages), key)
      {
        ClosedForm(environment, matcher, FlatGroups(groups), Flat(project.pages), key);
      }
      return Ok(secretData);
    }
  }

  /** The variables of all groups, read left to right. */
  function FlatGroups(groups: seq<Listing>): seq<Variable> {
    if groups == [] then [] else FlatGroups(groups[..|groups| - 1]) + Flat(groups[|groups| - 1].pages)
  }
}
