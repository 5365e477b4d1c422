/** Status conditions and the transition times they carry (both controllers update them the same way). */
module Conditions {
  import opened Common

  datatype Status = True | False | Unknown

  /** `time` is LastTransitionTime; a new condition carries the time of the call. */
  datatype Condition = Condition(kind: string, status: Status, reason: string, message: string, time: int)

  // ---------------------------------------------------------------- reading and updating

  function Find(cs: seq<Condition>, kind: string): Option<Condition> {
    if cs == [] then None
    else if cs[0].kind == kind then Some(cs[0])
    else Find(cs[1..], kind)
  }

  function Without(cs: seq<Condition>, kind: string): seq<Condition> {
    if cs == [] then []
    else
      var front := Without(cs[..|cs| - 1], kind);
      if cs[|cs| - 1].kind == kind then front else front + [cs[|cs| - 1]]
  }

  function Updated(cs: seq<Condition>, c: Condition): seq<Condition> {
    var cur := Find(cs, c.kind);
    if cur.Some? && cur.value.(time := c.time) == c then cs
    else if cur.Some? && cur.value.status == c.status then Without(cs, c.kind) + [c.(time := cur.value.time)]
    else Without(cs, c.kind) + [c]
  }

  method GetCondition(cs: seq<Condition>, kind: string) returns (r: Option<Condition>)
    ensures r == Find(cs, kind)
  {
    var i := 0;
    while i < |cs|
      invariant 0 <= i <= |cs|
      invariant Find(cs, kind) == Find(cs[i..], kind)
    {
      if cs[i].kind == kind {
        return Some(cs[i]);
      }
      i := i + 1;
    }
    return None;
  }

  method FilterOutCondition(cs: seq<Condition>, kind: string) returns (r: seq<Condition>)
    ensures r == Without(cs, kind)
  {
    r := [];
    for i := 0 to |cs|
      invariant r == Without(cs[..i], kind)
    {
      assert cs[..i + 1][..i] == cs[..i];
      if cs[i].kind == kind {
        continue;
      }
      r := r + [cs[i]];
    }
    assert cs[..|cs|] == cs;
  }

  /** The object whose status holds the conditions. */
  class Object {
    var conditions: seq<Condition>

    constructor ()
      ensures conditions == []
    {
      conditions := [];
    }

    method SetCondition(condition: Condition)
      modifies this
      ensures conditions == Updated(old(conditions), condition)
    {
      var current := GetCondition(conditions, condition.kind);
      if current.Some? && current.value.status == condition.status &&
         current.value.reason == condition.reason && current.value.message == condition.message {
        FindKind(conditions, condition.kind);
        return;
      }
      var c := condition;
      if current.Some? && current.value.status == condition.status {
        c := c.(time := current.value.time);
      }
      var others := FilterOutCondition(conditions, c.kind);
      conditions := others + [c];
    }
  }

  // ---------------------------------------------------------------- one update

  lemma {:induction false} FindKind(cs: seq<Condition>, kind: string)
    ensures Find(cs, kind).Some? ==> Find(cs, kind).value.kind == kind && Find(cs, kind).value in cs
    ensures Find(cs, kind).None? ==> forall i :: 0 <= i < |cs| ==> cs[i].kind != kind
  {
    if cs != [] {
      FindKind(cs[1..], kind);
      assert forall i :: 1 <= i < |cs| ==> cs[i] == cs[1..][i - 1];
    }
  }

  lemma {:induction false} FindConcat(a: seq<Condition>, b: seq<Condition>, kind: string)
    ensures Find(a + b, kind) == if Find(a, kind).Some? then Find(a, kind) else Find(b, kind)
  {
    if a == [] {
      assert a + b == b;
    } else {
      FindConcat(a[1..], b, kind);
      assert (a + b)[1..] == a[1..] + b;
    }
  }

  lemma {:induction false} FindWithout(cs: seq<Condition>, gone: string, kind: string)
    ensures Find(Without(cs, gone), kind) == if kind == gone then None else Find(cs, kind)
  {
    if cs != [] {
      var front, last := cs[..|cs| - 1], cs[|cs| - 1..];
      FindWithout(front, gone, kind);
      assert cs == front + last;
      FindConcat(front, last, kind);
      FindConcat(Without(front, gone), last, kind);
      assert last == [cs[|cs| - 1]];
    }
  }

  /** What an update does to the condition found for each kind. */
  lemma FindUpdated(cs: seq<Condition>, c: Condition, kind: string)
    ensures kind != c.kind ==> Find(Updated(cs, c), kind) == Find(cs, kind)
    ensures var cur := Find(cs, c.kind);
            Find(Updated(cs, c), c.kind) ==
            Some(if cur.Some? && cur.value.status == c.status then c.(time := cur.value.time) else c)
  {
    FindWithout(cs, c.kind, kind);
    FindWithout(cs, c.kind, c.kind);
    var cur := Find(cs, c.kind);
    FindConcat(Without(cs, c.kind), [c], kind);
    FindConcat(Without(cs, c.kind), [c], c.kind);
    if cur.Some? {
      FindConcat(Without(cs, c.kind), [c.(time := cur.value.time)], kind);
      FindConcat(Without(cs, c.kind), [c.(time := cur.value.time)], c.kind);
    }
  }

  ghost predicate OnePerKind(cs: seq<Condition>) {
    forall i, j :: 0 <= i < j < |cs| ==> cs[i].kind != cs[j].kind
  }

  lemma {:induction false} WithoutKeeps(cs: seq<Condition>, kind: string)
    requires OnePerKind(cs)
    ensures OnePerKind(Without(cs, kind))
    ensures forall i :: 0 <= i < |Without(cs, kind)| ==> Without(cs, kind)[i].kind != kind && Without(cs, kind)[i] in cs
  {
    if cs != [] {
      WithoutKeeps(cs[..|cs| - 1], kind);
    }
  }

  lemma {:induction false} WithoutAppend(cs: seq<Condition>, c: Condition, kind: string)
    ensures Without(cs + [c], kind) == if c.kind == kind then Without(cs, kind) else Without(cs, kind) + [c]
  {
  }

  lemma {:induction false} WithoutTwice(cs: seq<Condition>, kind: string)
    ensures Without(Without(cs, kind), kind) == Without(cs, kind)
  {
    if cs != [] {
      var n := |cs| - 1;
      WithoutTwice(cs[..n], kind);
      if cs[n].kind != kind {
        WithoutAppend(Without(cs[..n], kind), cs[n], kind);
      }
    }
  }

  /** An update keeps one condition per kind, and the others' content and order. */
  lemma UpdateKeepsOthers(cs: seq<Condition>, c: Condition)
    requires OnePerKind(cs)
    ensures OnePerKind(Updated(cs, c))
    ensures Without(Updated(cs, c), c.kind) == Without(cs, c.kind)
  {
    WithoutKeeps(cs, c.kind);
    WithoutTwice(cs, c.kind);
    var cur := Find(cs, c.kind);
    var added := if cur.Some? && cur.value.status == c.status then c.(time := cur.value.time) else c;
    WithoutAppend(Without(cs, c.kind), added, c.kind);
  }

  // ---------------------------------------------------------------- histories

  function History(start: seq<Condition>, calls: seq<Condition>): seq<Condition> {
    if calls == [] then start
    else Updated(History(start, calls[..|calls| - 1]), calls[|calls| - 1])
  }

  /** The calls for one kind, after the condition it started with if there was one. */
  function CallsFor(start: seq<Condition>, calls: seq<Condition>, kind: string): seq<Condition> {
    if calls == [] then
      match Find(start, kind)
      case None => []
      case Some(c) => [c]
    else
      var before := CallsFor(start, calls[..|calls| - 1], kind);
      if calls[|calls| - 1].kind == kind then before + [calls[|calls| - 1]] else before
  }

  /** Where the longest trailing block of calls with the last one's status begins. */
  function BlockStart(cs: seq<Condition>): (b: nat)
    requires cs != []
    ensures b < |cs|
    ensures forall i :: b <= i < |cs| ==> cs[i].status == cs[|cs| - 1].status
    ensures b > 0 ==> cs[b - 1].status != cs[|cs| - 1].status
  {
    var n := |cs| - 1;
    if n > 0 && cs[n - 1].status == cs[n].status then BlockStart(cs[..n]) else n
  }

  lemma {:induction false} HistoryOfKind(start: seq<Condition>, calls: seq<Condition>, kind: string)
    ensures var mine := CallsFor(start, calls, kind);
            Find(History(start, calls), kind) ==
            if mine == [] then None else Some(mine[|mine| - 1].(time := mine[BlockStart(mine)].time))
  {
    if calls == [] {
    } else {
      var n := |calls| - 1;
      var c := calls[n];
      HistoryOfKind(start, calls[..n], kind);
      FindUpdated(History(start, calls[..n]), c, kind);
      if c.kind == kind {
        var before := CallsFor(start, calls[..n], kind);
        assert (before + [c])[..|before|] == before;
      }
    }
  }

  lemma {:induction false} HistoryOnePerKind(start: seq<Condition>, calls: seq<Condition>)
    requires OnePerKind(start)
    ensures OnePerKind(History(start, calls))
  {
    if calls != [] {
      HistoryOnePerKind(start, calls[..|calls| - 1]);
      UpdateKeepsOthers(History(start, calls[..|calls| - 1]), calls[|calls| - 1]);
    }
  }

  /**
    Over any sequence of updates there is at most one condition per kind. It carries the last
    call's content, and the time of the first call of the trailing block with its status.
   */
  lemma TransitionTimes(start: seq<Condition>, calls: seq<Condition>, kind: string)
    requires OnePerKind(start)
    ensures OnePerKind(History(start, calls))
    ensures var mine := CallsFor(start, calls, kind);
            Find(History(start, calls), kind) ==
            if mine == [] then None else Some(mine[|mine| - 1].(time := mine[BlockStart(mine)].time))
  {
    HistoryOnePerKind(start, calls);
    HistoryOfKind(start, calls, kind);
  }
}
