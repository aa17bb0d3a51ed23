/**
 * Start and stop order of a process group (internal/group/group.go).
 *
 * Start order is Kahn's algorithm with a priority key; when it stalls, a
 * white/gray/black depth-first search names one dependency cycle.
 */
module Group {
  import opened Prelude

  datatype Member = Member(name: string, processID: string, order: int, dependsOn: seq<string>)

  datatype StartError =
    | EmptyName(index: nat)
    | DuplicateName(name: string)
    | SelfDependency(name: string)
    | UnknownDependency(name: string, dependency: string)
    | Cycle(path: seq<string>)

  datatype StartResult = Ok(order: seq<string>) | Err(error: StartError)

  type Deps = map<string, set<string>>

  // ---------------------------------------------------------------------------
  // What the orders and cycles mean
  // ---------------------------------------------------------------------------

  ghost function NameSet(ms: seq<Member>): set<string> {
    set m | m in ms :: m.name
  }

  /** Names are non-empty and pairwise different. */
  ghost predicate WellNamed(ms: seq<Member>) {
    && (forall i :: 0 <= i < |ms| ==> ms[i].name != "")
    && (forall i, j :: 0 <= i < j < |ms| ==> ms[i].name != ms[j].name)
  }

  ghost predicate KnownDependencies(ms: seq<Member>) {
    forall m, d :: m in ms && d in m.dependsOn ==> d in NameSet(ms)
  }

  /** Name to the set of names it depends on. */
  ghost function Graph(ms: seq<Member>): Deps {
    map n | n in NameSet(ms) :: set m, d | m in ms && m.name == n && d in m.dependsOn :: d
  }

  /** Every node once, and every dependency before its dependents. */
  ghost predicate Topological(deps: Deps, order: seq<string>) {
    && NoDup(order)
    && SetOf(order) == deps.Keys
    && forall i :: 0 <= i < |order| ==> order[i] in deps && deps[order[i]] <= SetOf(order[..i])
  }

  /** A closed walk along depends_on edges. */
  ghost predicate IsCycle(deps: Deps, c: seq<string>) {
    && |c| >= 2 && c[0] == c[|c| - 1]
    && forall i :: 0 <= i < |c| - 1 ==> c[i] in deps && c[i + 1] in deps[c[i]]
  }

  ghost predicate IsSimpleCycle(deps: Deps, c: seq<string>) {
    IsCycle(deps, c) && NoDup(c[..|c| - 1])
  }

  /** The subgraph on a set of nodes. */
  ghost function Restrict(deps: Deps, alive: set<string>): Deps
    requires alive <= deps.Keys
  {
    map n | n in alive :: deps[n] * alive
  }

  /** The two tie-break maps; a missing name reads as 0, as a Go map does. */
  datatype Priority = Priority(memberOrder: map<string, int>, orderIndex: map<string, int>)

  function ValueOrZero(m: map<string, int>, n: string): int {
    if n in m then m[n] else 0
  }

  predicate Less(p: Priority, a: string, b: string) {
    var oa, ob := ValueOrZero(p.memberOrder, a), ValueOrZero(p.memberOrder, b);
    if oa != ob then oa < ob
    else ValueOrZero(p.orderIndex, a) < ValueOrZero(p.orderIndex, b)
  }

  /** The priority of a member list: explicit order first, then input position. */
  ghost predicate IsPriority(ms: seq<Member>, p: Priority) {
    && p.memberOrder.Keys == p.orderIndex.Keys == NameSet(ms)
    && forall i :: 0 <= i < |ms| ==>
         && ms[i].name in p.memberOrder && p.memberOrder[ms[i].name] == ms[i].order
         && ms[i].name in p.orderIndex && p.orderIndex[ms[i].name] == i
  }

  ghost predicate LexLeq(p: Priority, s: seq<string>, t: seq<string>) {
    s == t || exists k :: 0 <= k < |s| && k < |t| && s[..k] == t[..k] && Less(p, s[k], t[k])
  }

  /** A topological order that no other topological order precedes. */
  ghost predicate LeastTopological(deps: Deps, p: Priority, order: seq<string>) {
    Topological(deps, order) && forall t :: Topological(deps, t) ==> LexLeq(p, order, t)
  }

  /** The order the members must start in. */
  ghost predicate IsStartOrder(ms: seq<Member>, order: seq<string>) {
    exists p :: IsPriority(ms, p) && LeastTopological(Graph(ms), p, order)
  }

  // ---------------------------------------------------------------------------
  // Facts about orders and cycles
  // ---------------------------------------------------------------------------

  /** A graph with a topological order has no cycle. */
  lemma {:induction false} TopologicalMeansAcyclic(deps: Deps, order: seq<string>, c: seq<string>)
    requires Topological(deps, order)
    ensures !IsCycle(deps, c)
  {
    if IsCycle(deps, c) {
      assert c[0] in deps;
      var i :| 0 <= i < |order| && order[i] == c[0];
      var j := WalkGoesDown(deps, order, c, |c| - 1, i);
    }
  }

  /** Walking k edges from position i ends k or more positions earlier. */
  lemma {:induction false} WalkGoesDown(deps: Deps, order: seq<string>, c: seq<string>, k: nat, i: nat) returns (j: nat)
    requires Topological(deps, order) && IsCycle(deps, c) && k < |c|
    requires i < |order| && order[i] == c[0]
    ensures j + k <= i && order[j] == c[k]
  {
    if k == 0 {
      j := i;
    } else {
      var before := WalkGoesDown(deps, order, c, k - 1, i);
      assert c[k - 1 + 1] in deps[c[k - 1]];
      assert c[k] in order[..before];
      j :| 0 <= j < before && order[j] == c[k];
    }
  }

  lemma LessIsStrictTotal(ms: seq<Member>, p: Priority, a: string, b: string)
    requires WellNamed(ms) && IsPriority(ms, p) && a in NameSet(ms) && b in NameSet(ms)
    ensures !(Less(p, a, b) && Less(p, b, a))
    ensures a == b || Less(p, a, b) || Less(p, b, a)
  {
    var i :| 0 <= i < |ms| && ms[i].name == a;
    var j :| 0 <= j < |ms| && ms[j].name == b;
  }

  lemma FirstDifferenceDecides(ms: seq<Member>, p: Priority, s: seq<string>, t: seq<string>, k: nat, l: nat)
    requires WellNamed(ms) && IsPriority(ms, p) && SetOf(s) == SetOf(t) == NameSet(ms)
    requires k < |s| && k < |t| && s[..k] == t[..k] && Less(p, s[k], t[k])
    requires l < |s| && l < |t|
    ensures !(t[..l] == s[..l] && Less(p, t[l], s[l]))
  {
    assert s[k] in SetOf(s) && t[k] in SetOf(t) && s[l] in SetOf(s) && t[l] in SetOf(t);
    if l < k {
      assert s[..k][l] == t[..k][l];
      LessIsStrictTotal(ms, p, s[l], t[l]);
    } else {
      LessIsStrictTotal(ms, p, s[k], t[k]);
      assert l > k ==> s[..l][k] == s[k] && t[..l][k] == t[k];
    }
  }

  lemma LexLeqAntisymmetric(ms: seq<Member>, p: Priority, s: seq<string>, t: seq<string>)
    requires WellNamed(ms) && IsPriority(ms, p) && SetOf(s) == SetOf(t) == NameSet(ms)
    ensures LexLeq(p, s, t) && LexLeq(p, t, s) ==> s == t
  {
    if LexLeq(p, s, t) && s != t {
      var k :| 0 <= k < |s| && k < |t| && s[..k] == t[..k] && Less(p, s[k], t[k]);
      forall l | 0 <= l < |s| && l < |t| ensures !(t[..l] == s[..l] && Less(p, t[l], s[l])) {
        FirstDifferenceDecides(ms, p, s, t, k, l);
      }
    }
  }

  lemma PriorityIsUnique(ms: seq<Member>, p: Priority, q: Priority)
    requires IsPriority(ms, p) && IsPriority(ms, q)
    ensures p == q
  {
    forall n | n in NameSet(ms)
      ensures p.memberOrder[n] == q.memberOrder[n] && p.orderIndex[n] == q.orderIndex[n]
    {
      var i :| 0 <= i < |ms| && ms[i].name == n;
    }
    assert p.memberOrder == q.memberOrder && p.orderIndex == q.orderIndex;
  }

  /** There is one start order, so map iteration order cannot show in the result. */
  lemma StartOrderIsUnique(ms: seq<Member>, s: seq<string>, t: seq<string>)
    requires WellNamed(ms) && IsStartOrder(ms, s) && IsStartOrder(ms, t)
    ensures s == t
  {
    var p :| IsPriority(ms, p) && LeastTopological(Graph(ms), p, s);
    var q :| IsPriority(ms, q) && LeastTopological(Graph(ms), q, t);
    PriorityIsUnique(ms, p, q);
    LexLeqAntisymmetric(ms, p, s, t);
  }

  /** Nodes not yet placed whose dependencies are all placed. */
  ghost function Available(deps: Deps, placed: set<string>): set<string> {
    set n | n in deps.Keys && n !in placed && deps[n] <= placed
  }

  ghost predicate IsLeastOf(p: Priority, n: string, s: set<string>) {
    n in s && forall x :: x in s ==> x == n || Less(p, n, x)
  }

  /** Each placed node was the least one available at its turn. */
  ghost predicate Greedy(deps: Deps, p: Priority, order: seq<string>) {
    forall k :: 0 <= k < |order| ==> IsLeastOf(p, order[k], Available(deps, SetOf(order[..k])))
  }

  /** Choosing greedily gives the least order. */
  lemma GreedyIsLeast(deps: Deps, p: Priority, order: seq<string>)
    requires Greedy(deps, p, order) && SetOf(order) == deps.Keys && NoDup(order)
    ensures LeastTopological(deps, p, order)
  {
    forall i | 0 <= i < |order| ensures order[i] in deps && deps[order[i]] <= SetOf(order[..i]) {
      assert order[i] in Available(deps, SetOf(order[..i]));
    }
    forall t | Topological(deps, t) ensures LexLeq(p, order, t) {
      NoDupSize(order);
      NoDupSize(t);
      GreedyBeats(deps, p, order, t, 0);
    }
  }

  lemma {:induction false} GreedyBeats(deps: Deps, p: Priority, order: seq<string>, t: seq<string>, k: nat)
    requires Greedy(deps, p, order) && Topological(deps, t)
    requires |order| == |t| && k <= |t| && order[..k] == t[..k]
    ensures LexLeq(p, order, t)
    decreases |t| - k
  {
    if k == |t| {
      assert order == order[..k] && t == t[..k];
    } else if order[k] == t[k] {
      assert order[..k + 1] == order[..k] + [order[k]] && t[..k + 1] == t[..k] + [t[k]];
      GreedyBeats(deps, p, order, t, k + 1);
    } else {
      assert t[k] !in SetOf(t[..k]);
      assert t[k] in Available(deps, SetOf(order[..k]));
      assert IsLeastOf(p, order[k], Available(deps, SetOf(order[..k])));
    }
  }

  // ---------------------------------------------------------------------------
  // Insertion sort of the ready list
  // ---------------------------------------------------------------------------

  ghost predicate Sorted(p: Priority, s: seq<string>) {
    forall i, j :: 0 <= i < j < |s| ==> !Less(p, s[j], s[i])
  }

  /** Neither name comes before the other. */
  predicate SameKey(p: Priority, a: string, b: string) {
    !Less(p, a, b) && !Less(p, b, a)
  }

  /** The names with the key of x, in their order. */
  ghost function KeyClass(p: Priority, s: seq<string>, x: string): seq<string> {
    if s == [] then []
    else if SameKey(p, s[|s| - 1], x) then KeyClass(p, s[..|s| - 1], x) + [s[|s| - 1]]
    else KeyClass(p, s[..|s| - 1], x)
  }

  /** Names of equal key stand in the same order in both. */
  ghost predicate SameClasses(p: Priority, s: seq<string>, t: seq<string>) {
    forall x :: KeyClass(p, s, x) == KeyClass(p, t, x)
  }

  lemma {:induction false} ClassInTwo(p: Priority, a: seq<string>, b: seq<string>, x: string)
    ensures KeyClass(p, a + b, x) == KeyClass(p, a, x) + KeyClass(p, b, x)
  {
    if b == [] {
      assert a + b == a;
    } else {
      ClassInTwo(p, a, b[..|b| - 1], x);
      assert (a + b)[..|a + b| - 1] == a + b[..|b| - 1];
    }
  }

  lemma ClassOfTwo(p: Priority, u: string, v: string, x: string)
    requires Less(p, v, u)
    ensures KeyClass(p, [u, v], x) == KeyClass(p, [v, u], x)
  {
    assert [u, v][..1] == [u] && [v, u][..1] == [v];
    assert [u][..0] == [] && [v][..0] == [];
  }

  lemma SwapKeepsClasses(p: Priority, a: seq<string>, u: string, v: string, b: seq<string>)
    requires Less(p, v, u)
    ensures SameClasses(p, a + [u, v] + b, a + [v, u] + b)
  {
    forall x ensures KeyClass(p, a + [u, v] + b, x) == KeyClass(p, a + [v, u] + b, x) {
      ClassInTwo(p, a + [u, v], b, x);
      ClassInTwo(p, a + [v, u], b, x);
      ClassInTwo(p, a, [u, v], x);
      ClassInTwo(p, a, [v, u], x);
      ClassOfTwo(p, u, v, x);
    }
  }

  /** Swap two neighbours that are out of order. */
  method SwapWithPrevious(names: array<string>, j: int, ghost p: Priority)
    requires 0 < j < names.Length && Less(p, names[j], names[j - 1])
    modifies names
    ensures names[..] == old(names[..])[j := old(names[j - 1])][j - 1 := old(names[j])]
    ensures multiset(names[..]) == old(multiset(names[..]))
    ensures SameClasses(p, names[..], old(names[..]))
  {
    ghost var before, after, u, v := names[..j - 1], names[j + 1..], names[j - 1], names[j];
    assert names[..] == before + [u, v] + after;
    SwapKeepsClasses(p, before, u, v, after);
    names[j], names[j - 1] := names[j - 1], names[j];
    assert names[..] == before + [v, u] + after;
  }

  method SortStable(names: array<string>, p: Priority)
    modifies names
    ensures Sorted(p, names[..])
    ensures multiset(names[..]) == old(multiset(names[..]))
    ensures SameClasses(p, names[..], old(names[..]))
  {
    var i := 1;
    while i < names.Length
      invariant 1 <= i && (i <= names.Length || names.Length == 0)
      invariant forall a, b :: 0 <= a < b < i && b < names.Length ==> !Less(p, names[b], names[a])
      invariant multiset(names[..]) == old(multiset(names[..])) && SameClasses(p, names[..], old(names[..]))
    {
      var j := i;
      while j > 0 && Less(p, names[j], names[j - 1])
        invariant 0 <= j <= i
        invariant forall a, b :: 0 <= a < b <= i && b != j ==> !Less(p, names[b], names[a])
        invariant multiset(names[..]) == old(multiset(names[..])) && SameClasses(p, names[..], old(names[..]))
      {
        SwapWithPrevious(names, j, p);
        j := j - 1;
      }
      i := i + 1;
    }
  }

  /** The ready slice, sorted; the slice's backing array is the one sorted in place. */
  method SortReady(ready: seq<string>, p: Priority) returns (sorted: seq<string>)
    ensures Sorted(p, sorted) && multiset(sorted) == multiset(ready)
  {
    var backing := new string[|ready|](i requires 0 <= i < |ready| => ready[i]);
    assert backing[..] == ready;
    SortStable(backing, p);
    sorted := backing[..];
  }

  // ---------------------------------------------------------------------------
  // Kahn's algorithm
  // ---------------------------------------------------------------------------

  function Dependents(reverse: map<string, seq<string>>, n: string): seq<string> {
    if n in reverse then reverse[n] else []
  }

  /** reverse lists, once each, exactly the nodes that depend on a node. */
  ghost predicate IsReverse(deps: Deps, reverse: map<string, seq<string>>) {
    forall n :: NoDup(Dependents(reverse, n)) &&
      forall x :: x in Dependents(reverse, n) <==> x in deps && n in deps[x]
  }

  /** Remaining dependencies of each node; a pending node is still owed one decrement. */
  ghost predicate Degrees(deps: Deps, placed: set<string>, pending: set<string>, indegree: map<string, int>) {
    indegree.Keys == deps.Keys &&
    forall n :: n in deps ==> indegree[n] == |deps[n] - placed| + if n in pending then 1 else 0
  }

  ghost function DependentSet(deps: Deps, n: string): set<string> {
    set x | x in deps && n in deps[x]
  }

  lemma PlacingOne(deps: Deps, placed: set<string>, n: string, indegree: map<string, int>)
    requires n !in placed && Degrees(deps, placed, {}, indegree)
    ensures Degrees(deps, placed + {n}, DependentSet(deps, n), indegree)
  {
    forall x | x in deps
      ensures indegree[x] == |deps[x] - (placed + {n})| + if n in deps[x] then 1 else 0
    {
      if n in deps[x] {
        assert deps[x] - placed == (deps[x] - (placed + {n})) + {n};
      } else {
        assert deps[x] - placed == deps[x] - (placed + {n});
      }
    }
  }

  lemma FirstOfSortedIsLeast(ms: seq<Member>, p: Priority, ready: seq<string>)
    requires WellNamed(ms) && IsPriority(ms, p)
    requires ready != [] && SetOf(ready) <= NameSet(ms) && Sorted(p, ready)
    ensures IsLeastOf(p, ready[0], SetOf(ready))
  {
    assert ready[0] in SetOf(ready);
    forall x | x in SetOf(ready) ensures x == ready[0] || Less(p, ready[0], x) {
      var j :| 0 <= j < |ready| && ready[j] == x;
      LessIsStrictTotal(ms, p, ready[0], x);
    }
  }

  /** The nodes without dependencies, in priority order. */
  method InitialReady(deps: Deps, p: Priority) returns (ready: seq<string>)
    ensures NoDup(ready) && SetOf(ready) == Available(deps, {}) && Sorted(p, ready)
  {
    ready := [];
    var unseen := deps.Keys;
    while unseen != {}
      invariant unseen <= deps.Keys
      invariant NoDup(ready) && SetOf(ready) == Available(deps, {}) - unseen
    {
      var name :| name in unseen;
      unseen := unseen - {name};
      if |deps[name]| == 0 {
        SetOfAppend(ready, name);
        ready := ready + [name];
      }
    }
    ghost var unsorted := ready;
    ready := SortReady(ready, p);
    Rearranged(unsorted, ready);
  }

  ghost predicate Closed(deps: Deps, placed: set<string>) {
    forall y :: y in placed ==> y in deps && deps[y] <= placed
  }

  /** What the loop keeps: the output is greedy and closed, and the ready names are exactly the available ones. */
  ghost predicate KahnState(deps: Deps, p: Priority, ready: seq<string>, out: seq<string>, indegree: map<string, int>) {
    && NoDup(out) && SetOf(out) <= deps.Keys && Closed(deps, SetOf(out)) && Greedy(deps, p, out)
    && NoDup(ready) && SetOf(ready) == Available(deps, SetOf(out)) && Sorted(p, ready)
    && Degrees(deps, SetOf(out), {}, indegree)
  }

  method Kahn(ghost ms: seq<Member>, deps: Deps, reverse: map<string, seq<string>>, p: Priority)
    returns (out: seq<string>, indegree: map<string, int>)
    requires WellNamed(ms) && IsPriority(ms, p) && deps.Keys == NameSet(ms)
    requires IsReverse(deps, reverse) && forall n :: n in deps ==> n !in deps[n]
    ensures NoDup(out) && SetOf(out) <= deps.Keys && Closed(deps, SetOf(out)) && Greedy(deps, p, out)
    ensures Available(deps, SetOf(out)) == {}
    ensures Degrees(deps, SetOf(out), {}, indegree)
  {
    indegree := map n | n in deps :: |deps[n]|;
    var ready := InitialReady(deps, p);
    out := [];
    assert forall n :: n in deps ==> deps[n] - SetOf<string>([]) == deps[n];
    while |ready| > 0
      invariant KahnState(deps, p, ready, out, indegree)
      decreases deps.Keys - SetOf(out)
    {
      ready, out, indegree := PlaceNext(ms, deps, reverse, p, ready, out, indegree);
    }
    assert ready == [];
  }

  /** One turn of the loop: place the first ready name and release its dependents. */
  method PlaceNext(ghost ms: seq<Member>, deps: Deps, reverse: map<string, seq<string>>, p: Priority,
                   ready: seq<string>, out: seq<string>, indegree: map<string, int>)
    returns (ready': seq<string>, out': seq<string>, indegree': map<string, int>)
    requires WellNamed(ms) && IsPriority(ms, p) && deps.Keys == NameSet(ms)
    requires IsReverse(deps, reverse) && forall n :: n in deps ==> n !in deps[n]
    requires |ready| > 0 && KahnState(deps, p, ready, out, indegree)
    ensures KahnState(deps, p, ready', out', indegree') && out' == out + [ready[0]]
    ensures SetOf(out') == SetOf(out) + {ready[0]} && ready[0] in deps && ready[0] !in SetOf(out)
  {
    FirstOfSortedIsLeast(ms, p, ready);
    ready', out' := Pop(deps, p, ready, out);
    PlacingOne(deps, SetOf(out), ready[0], indegree);
    ready', indegree' := ReleaseDependents(deps, reverse, p, ready[0], SetOf(out'), ready', indegree);
  }

  /** Move the first ready node to the output. */
  method Pop(ghost deps: Deps, ghost p: Priority, ready: seq<string>, out: seq<string>)
    returns (ready': seq<string>, out': seq<string>)
    requires ready != [] && NoDup(ready) && NoDup(out) && Sorted(p, ready)
    requires SetOf(ready) == Available(deps, SetOf(out)) && Greedy(deps, p, out)
    requires IsLeastOf(p, ready[0], SetOf(ready)) && Closed(deps, SetOf(out))
    ensures ready' == ready[1..] && out' == out + [ready[0]]
    ensures ready[0] in deps && ready[0] !in SetOf(out)
    ensures NoDup(ready') && NoDup(out') && Sorted(p, ready') && Greedy(deps, p, out')
    ensures SetOf(out') == SetOf(out) + {ready[0]} && Closed(deps, SetOf(out'))
    ensures DependentSet(deps, ready[0]) !! SetOf(out')
    ensures SetOf(ready') == Available(deps, SetOf(out')) - DependentSet(deps, ready[0])
  {
    var n := ready[0];
    assert n in SetOf(ready);
    SetOfAppend(out, n);
    ready', out' := ready[1..], out + [n];
    forall k | 0 <= k < |out'|
      ensures IsLeastOf(p, out'[k], Available(deps, SetOf(out'[..k])))
    {
      assert k < |out| ==> out'[..k] == out[..k];
      assert k == |out| ==> out'[..k] == out;
    }
    assert ready == [n] + ready';
    assert SetOf(ready') == SetOf(ready) - {n};
  }

  /** Decrement one dependent still owed a decrement; at zero it becomes ready. */
  method ReleaseOne(deps: Deps, p: Priority, dep: string, ghost placed: set<string>, ghost pending: set<string>,
                    ready0: seq<string>, indegree0: map<string, int>)
    returns (ready: seq<string>, indegree: map<string, int>)
    requires dep in deps && dep !in placed && dep in pending
    requires NoDup(ready0) && Sorted(p, ready0) && SetOf(ready0) == Available(deps, placed) - pending
    requires Degrees(deps, placed, pending, indegree0)
    ensures NoDup(ready) && Sorted(p, ready) && SetOf(ready) == Available(deps, placed) - (pending - {dep})
    ensures Degrees(deps, placed, pending - {dep}, indegree)
  {
    indegree := indegree0[dep := indegree0[dep] - 1];
    if indegree[dep] == 0 {
      assert |deps[dep] - placed| == 0;
      assert deps[dep] - placed == {};
      assert forall d :: d in deps[dep] ==> d !in deps[dep] - placed;
      assert dep in Available(deps, placed) && dep !in SetOf(ready0);
      SetOfAppend(ready0, dep);
      ready := SortReady(ready0 + [dep], p);
      Rearranged(ready0 + [dep], ready);
      assert SetOf(ready) == SetOf(ready0) + {dep};
    } else {
      ready := ready0;
      assert deps[dep] - placed != {};
      assert dep !in Available(deps, placed);
    }
  }

  lemma OneLessPending(todo: seq<string>, i: nat)
    requires NoDup(todo) && i < |todo|
    ensures todo[i] in SetOf(todo[i..]) && SetOf(todo[i..]) - {todo[i]} == SetOf(todo[i + 1..])
  {
    assert todo[i..] == [todo[i]] + todo[i + 1..];
  }

  /** Decrement the dependents of a placed node; those that reach zero become ready. */
  method ReleaseDependents(deps: Deps, reverse: map<string, seq<string>>, p: Priority, n: string,
                           ghost placed: set<string>, ready0: seq<string>, indegree0: map<string, int>)
    returns (ready: seq<string>, indegree: map<string, int>)
    requires IsReverse(deps, reverse) && DependentSet(deps, n) !! placed
    requires NoDup(ready0) && Sorted(p, ready0)
    requires SetOf(ready0) == Available(deps, placed) - DependentSet(deps, n)
    requires Degrees(deps, placed, DependentSet(deps, n), indegree0)
    ensures NoDup(ready) && SetOf(ready) == Available(deps, placed) && Sorted(p, ready)
    ensures Degrees(deps, placed, {}, indegree)
  {
    ready, indegree := ready0, indegree0;
    var todo := Dependents(reverse, n);
    DependentsAreTheSet(deps, reverse, n);
    for i := 0 to |todo|
      invariant SetOf(todo[i..]) <= DependentSet(deps, n)
      invariant NoDup(ready) && Sorted(p, ready) && SetOf(ready) == Available(deps, placed) - SetOf(todo[i..])
      invariant Degrees(deps, placed, SetOf(todo[i..]), indegree)
    {
      OneLessPending(todo, i);
      ready, indegree := ReleaseOne(deps, p, todo[i], placed, SetOf(todo[i..]), ready, indegree);
    }
    assert SetOf(todo[|todo|..]) == {};
  }

  lemma DependentsAreTheSet(deps: Deps, reverse: map<string, seq<string>>, n: string)
    requires IsReverse(deps, reverse)
    ensures var todo := Dependents(reverse, n);
      NoDup(todo) && todo[0..] == todo && SetOf(todo) == DependentSet(deps, n)
  {
  }

  // ---------------------------------------------------------------------------
  // Extracting a cycle from the nodes Kahn left behind
  // ---------------------------------------------------------------------------

  datatype Color = Gray | Black

  /** Nodes without repetition, each after its live dependencies. */
  ghost predicate DependenciesFirst(deps: Deps, alive: set<string>, s: seq<string>) {
    NoDup(s) && forall i :: 0 <= i < |s| ==> s[i] in deps && deps[s[i]] * alive <= SetOf(s[..i])
  }

  lemma DependenciesFirstGrows(deps: Deps, alive: set<string>, s: seq<string>, n: string)
    requires DependenciesFirst(deps, alive, s) && n in deps && n !in s
    requires forall d :: d in deps[n] && d in alive ==> d in s
    ensures DependenciesFirst(deps, alive, s + [n])
  {
    var t := s + [n];
    forall i | 0 <= i < |t| ensures t[i] in deps && deps[t[i]] * alive <= SetOf(t[..i]) {
      assert t[..i] == s[..i];
      assert s[..|s|] == s;
    }
  }

  /** The search state of findCyclePath; a node without a color is white. */
  class CycleFinder {
    const deps: Deps
    const alive: set<string>
    var color: map<string, Color>
    var stack: seq<string>
    ghost var finished: seq<string>  // black nodes, in the order they turned black

    ghost predicate Valid()
      reads this
    {
      && color.Keys <= alive <= deps.Keys
      && NoDup(stack) && (forall n :: n in stack <==> n in color && color[n].Gray?)
      && (forall i :: 0 <= i < |stack| - 1 ==> stack[i] in deps && stack[i + 1] in deps[stack[i]])
      && (forall n :: n in finished <==> n in color && color[n].Black?)
      && DependenciesFirst(deps, alive, finished)
    }

    constructor (deps: Deps, alive: set<string>)
      requires alive <= deps.Keys
      ensures this.deps == deps && this.alive == alive
      ensures Valid() && stack == [] && color == map[] && finished == []
    {
      this.deps, this.alive := deps, alive;
      color, stack, finished := map[], [], [];
    }

    /** Color a node gray and push it. */
    method Enter(n: string)
      requires Valid() && n in alive && n !in color
      requires stack != [] ==> stack[|stack| - 1] in deps && n in deps[stack[|stack| - 1]]
      modifies this
      ensures Valid() && stack == old(stack) + [n] && finished == old(finished)
      ensures color.Keys == old(color.Keys) + {n}
    {
      color := color[n := Gray];
      stack := stack + [n];
    }

    /** Pop a node whose live dependencies are all black, and color it black. */
    method Leave()
      requires Valid() && stack != [] && stack[|stack| - 1] in deps
      requires forall d :: d in deps[stack[|stack| - 1]] && d in alive ==> d in finished
      modifies this
      ensures Valid() && stack == old(stack)[..|old(stack)| - 1]
      ensures finished == old(finished) + [old(stack)[|old(stack)| - 1]] && color.Keys == old(color.Keys)
    {
      var n := stack[|stack| - 1];
      WithoutLast(stack);
      DependenciesFirstGrows(deps, alive, finished, n);
      stack := stack[..|stack| - 1];
      color := color[n := Black];
      finished := finished + [n];
    }

    /** The stack from the given gray node on, closed by that node. */
    method CycleFrom(d: string) returns (c: seq<string>)
      requires Valid() && d in stack && d in deps[stack[|stack| - 1]]
      ensures IsSimpleCycle(deps, c) && SetOf(c) <= alive
    {
      var i := 0;
      while stack[i] != d
        invariant 0 <= i < |stack| && d in stack[i..]
        decreases |stack| - i
      {
        i := i + 1;
      }
      c := stack[i..] + [d];
      CloseCycle(i, d);
    }

    /** What a search that found no cycle leaves behind. */
    twostate predicate Explored(n: string)
      reads this
    {
      && Valid() && stack == old(stack) && n in finished
      && old(color.Keys) <= color.Keys && forall b :: b in old(finished) ==> b in finished
    }

    /**
     * Depth-first search from a white node. Either the path found is a simple
     * cycle among the live nodes, or the node and all it reaches turn black.
     */
    method Visit(n: string) returns (path: Option<seq<string>>)
      requires Valid() && n in alive && n !in color
      requires stack != [] ==> stack[|stack| - 1] in deps && n in deps[stack[|stack| - 1]]
      modifies this
      ensures path.Some? ==> IsSimpleCycle(deps, path.value) && SetOf(path.value) <= alive
      ensures path.None? ==> Explored(n)
      decreases alive - color.Keys, 1
    {
      Enter(n);
      path := VisitDependencies(n);
      if path.None? {
        Leave();
        assert stack == old(stack);
      }
    }

    /** The loop over what the node on top of the stack depends on. */
    method VisitDependencies(n: string) returns (path: Option<seq<string>>)
      requires Valid() && stack != [] && stack[|stack| - 1] == n && n in deps
      modifies this
      ensures path.Some? ==> IsSimpleCycle(deps, path.value) && SetOf(path.value) <= alive
      ensures path.None? ==>
        && Valid() && stack == old(stack) && old(color.Keys) <= color.Keys
        && (forall b :: b in old(finished) ==> b in finished)
        && forall d :: d in deps[n] && d in alive ==> d in finished
      decreases alive - color.Keys, 3
    {
      var rest := deps[n];
      while rest != {}
        invariant Valid() && stack == old(stack) && rest <= deps[n]
        invariant old(color.Keys) <= color.Keys && forall b :: b in old(finished) ==> b in finished
        invariant forall d :: d in deps[n] && d !in rest && d in alive ==> d in finished
        decreases rest
      {
        var d :| d in rest;
        rest := rest - {d};
        if d in alive {
          var p := Follow(d);
          if p.Some? {
            return p;
          }
        }
      }
      path := None;
    }

    /** One edge from the node on top of the stack to a live node. */
    method Follow(d: string) returns (path: Option<seq<string>>)
      requires Valid() && stack != [] && d in alive
      requires stack[|stack| - 1] in deps && d in deps[stack[|stack| - 1]]
      modifies this
      ensures path.Some? ==> IsSimpleCycle(deps, path.value) && SetOf(path.value) <= alive
      ensures path.None? ==> Explored(d)
      decreases alive - color.Keys, 2
    {
      if d in color && color[d].Gray? {
        var c := CycleFrom(d);
        return Some(c);
      } else if d !in color {
        path := Visit(d);
      } else {
        path := None;
      }
    }

    lemma CloseCycle(i: nat, d: string)
      requires Valid() && i < |stack| && stack[i] == d && d in deps[stack[|stack| - 1]]
      ensures IsSimpleCycle(deps, stack[i..] + [d]) && SetOf(stack[i..] + [d]) <= alive
    {
      var c := stack[i..] + [d];
      assert c[..|c| - 1] == stack[i..];
      forall k | 0 <= k < |c| - 1 ensures c[k] in deps && c[k + 1] in deps[c[k]] {
        assert c[k] == stack[i + k];
      }
      forall x | x in c ensures x in alive {
        assert x in stack;
      }
    }
  }

  /**
   * A simple cycle among the live nodes, or none exactly when they can be
   * ordered; the roots are tried in any order.
   */
  method FindCyclePath(deps: Deps, alive: set<string>) returns (path: Option<seq<string>>)
    requires alive <= deps.Keys
    ensures path.Some? ==> IsSimpleCycle(deps, path.value) && SetOf(path.value) <= alive
    ensures path.None? ==> exists order :: Topological(Restrict(deps, alive), order)
  {
    var finder := new CycleFinder(deps, alive);
    var roots := alive;
    while roots != {}
      invariant finder.deps == deps && finder.alive == alive && finder.Valid() && finder.stack == []
      invariant roots <= alive && forall b :: b in alive && b !in roots ==> b in finder.finished
      decreases roots
    {
      var n :| n in roots;
      roots := roots - {n};
      if n !in finder.color {
        var p := finder.Visit(n);
        if p.Some? {
          return p;
        }
      }
    }
    assert Topological(Restrict(deps, alive), finder.finished);
    path := None;
  }

  /** Kahn stalls only on nodes that still wait for one another, so they cannot be ordered. */
  lemma StalledCannotBeOrdered(deps: Deps, alive: set<string>, order: seq<string>)
    requires alive <= deps.Keys && alive != {}
    requires forall n :: n in alive ==> deps[n] * alive != {}
    ensures !Topological(Restrict(deps, alive), order)
  {
    if SetOf(order) == alive {
      assert order != [];
      assert order[0] in SetOf(order);
      assert SetOf(order[..0]) == {};
      assert Restrict(deps, alive)[order[0]] == deps[order[0]] * alive;
    }
  }

  // ---------------------------------------------------------------------------
  // startOrder
  // ---------------------------------------------------------------------------

  ghost predicate BadEdge(ms: seq<Member>, i: int, j: int)
    requires 0 <= i < |ms| && 0 <= j < |ms[i].dependsOn|
  {
    ms[i].dependsOn[j] == ms[i].name || ms[i].dependsOn[j] !in NameSet(ms)
  }

  /** The offending edge at (i, j) comes before every other offending edge. */
  ghost predicate FirstBadEdge(ms: seq<Member>, i: int, j: int) {
    0 <= i < |ms| && 0 <= j < |ms[i].dependsOn| && BadEdge(ms, i, j) && NoneBadBefore(ms, i, j)
  }

  ghost predicate NoneBadBefore(ms: seq<Member>, i: int, j: int) {
    forall k, l :: 0 <= k < |ms| && 0 <= l < |ms[k].dependsOn| && (k < i || (k == i && l < j)) ==> !BadEdge(ms, k, l)
  }

  /** Which error a member list that breaks a rule gets: the first one broken. */
  ghost predicate ErrorFits(ms: seq<Member>, e: StartError) {
    match e
    case EmptyName(i) => i < |ms| && WellNamed(ms[..i]) && ms[i].name == ""
    case DuplicateName(n) =>
      exists i :: 0 <= i < |ms| && WellNamed(ms[..i]) && n != "" && ms[i].name == n && n in NameSet(ms[..i])
    case SelfDependency(n) =>
      WellNamed(ms) && exists i, j :: FirstBadEdge(ms, i, j) && ms[i].dependsOn[j] == n == ms[i].name
    case UnknownDependency(n, d) =>
      && WellNamed(ms) && d !in NameSet(ms)
      && exists i, j :: FirstBadEdge(ms, i, j) && ms[i].dependsOn[j] == d && ms[i].name == n
    case Cycle(c) =>
      WellNamed(ms) && KnownDependencies(ms) && IsSimpleCycle(Graph(ms), c) && |c| >= 3
  }

  lemma IndexOne(ms: seq<Member>, i: nat, p: Priority)
    requires i < |ms| && WellNamed(ms[..i]) && IsPriority(ms[..i], p)
    requires ms[i].name != "" && ms[i].name !in NameSet(ms[..i])
    ensures WellNamed(ms[..i + 1]) && NameSet(ms[..i + 1]) == NameSet(ms[..i]) + {ms[i].name}
    ensures IsPriority(ms[..i + 1], Priority(p.memberOrder[ms[i].name := ms[i].order], p.orderIndex[ms[i].name := i]))
  {
    var before, after := ms[..i], ms[..i + 1];
    assert after == before + [ms[i]];
    assert forall k :: 0 <= k < i ==> before[k] in before && before[k].name in NameSet(before);
  }

  /** The members' names, their two tie-break keys, and an empty dependency set for each. */
  method IndexNames(ms: seq<Member>) returns (error: Option<StartError>, deps: Deps, p: Priority)
    ensures error.Some? ==> !WellNamed(ms) && ErrorFits(ms, error.value)
    ensures error.None? ==> WellNamed(ms) && IsPriority(ms, p)
    ensures error.None? ==> deps.Keys == NameSet(ms) && forall n :: n in deps ==> deps[n] == {}
  {
    error, deps, p := None, map[], Priority(map[], map[]);
    for i := 0 to |ms|
      invariant WellNamed(ms[..i]) && IsPriority(ms[..i], p)
      invariant deps.Keys == NameSet(ms[..i]) && forall n :: n in deps ==> deps[n] == {}
    {
      var m := ms[i];
      if m.name == "" {
        return Some(EmptyName(i)), deps, p;
      }
      if m.name in deps {
        return Some(DuplicateName(m.name)), deps, p;
      }
      IndexOne(ms, i, p);
      deps := deps[m.name := {}];
      p := Priority(p.memberOrder[m.name := m.order], p.orderIndex[m.name := i]);
    }
    assert ms[..|ms|] == ms;
  }

  /** deps holds the edges of the members before i, and of member i its first j edges. */
  ghost predicate EdgesUpTo(ms: seq<Member>, deps: Deps, i: nat, j: nat)
    requires i <= |ms| && (i < |ms| ==> j <= |ms[i].dependsOn|)
  {
    && deps.Keys == NameSet(ms)
    && (forall k :: 0 <= k < i ==> ms[k].name in deps && deps[ms[k].name] == SetOf(ms[k].dependsOn))
    && (i < |ms| ==> ms[i].name in deps && deps[ms[i].name] == SetOf(ms[i].dependsOn[..j]))
    && (forall k :: i < k < |ms| ==> ms[k].name in deps && deps[ms[k].name] == {})
  }

  lemma AllEdgesAreTheGraph(ms: seq<Member>, deps: Deps)
    requires WellNamed(ms) && EdgesUpTo(ms, deps, |ms|, 0)
    ensures deps == Graph(ms)
  {
    forall n | n in NameSet(ms) ensures deps[n] == Graph(ms)[n] {
      var k :| 0 <= k < |ms| && ms[k].name == n;
      assert forall m :: m in ms && m.name == n ==> m == ms[k];
      assert ms[k] in ms;
    }
  }

  method AddEdge(deps: Deps, reverse: map<string, seq<string>>, name: string, d: string)
    returns (deps': Deps, reverse': map<string, seq<string>>)
    requires name in deps && IsReverse(deps, reverse)
    ensures deps' == deps[name := deps[name] + {d}] && IsReverse(deps', reverse')
  {
    deps', reverse' := deps, reverse;
    if d in deps[name] {
      assert deps[name] + {d} == deps[name];
      return;
    }
    deps' := deps[name := deps[name] + {d}];
    SetOfAppend(Dependents(reverse, d), name);
    reverse' := reverse[d := Dependents(reverse, d) + [name]];
    forall n
      ensures NoDup(Dependents(reverse', n))
      ensures forall x :: x in Dependents(reverse', n) <==> x in deps' && n in deps'[x]
    {
      assert Dependents(reverse', n) == Dependents(reverse, n) + if n == d then [name] else [];
    }
  }

  /** Check every edge in input order and build the two adjacency maps, repeated edges once. */
  method BuildEdges(ms: seq<Member>, deps0: Deps)
    returns (error: Option<StartError>, deps: Deps, reverse: map<string, seq<string>>)
    requires WellNamed(ms) && deps0.Keys == NameSet(ms) && forall n :: n in deps0 ==> deps0[n] == {}
    ensures error.Some? ==> ErrorFits(ms, error.value) && !error.value.Cycle?
    ensures error.Some? ==> exists i, j :: FirstBadEdge(ms, i, j)
    ensures error.None? ==> KnownDependencies(ms) && deps == Graph(ms) && IsReverse(deps, reverse)
    ensures error.None? ==> forall n :: n in deps ==> n !in deps[n]
  {
    error, deps, reverse := None, deps0, map[];
    for i := 0 to |ms|
      invariant error.None?
      invariant EdgesUpTo(ms, deps, i, 0) && IsReverse(deps, reverse) && NoneBadBefore(ms, i, 0)
    {
      error, deps, reverse := BuildMember(ms, i, deps, reverse);
      if error.Some? {
        return;
      }
    }
    AllEdgesAreTheGraph(ms, deps);
    EveryEdgeIsGood(ms);
  }

  /** The edges of one member. */
  method BuildMember(ms: seq<Member>, i: nat, deps0: Deps, reverse0: map<string, seq<string>>)
    returns (error: Option<StartError>, deps: Deps, reverse: map<string, seq<string>>)
    requires WellNamed(ms) && i < |ms|
    requires EdgesUpTo(ms, deps0, i, 0) && IsReverse(deps0, reverse0) && NoneBadBefore(ms, i, 0)
    ensures error.Some? ==> ErrorFits(ms, error.value) && !error.value.Cycle?
    ensures error.Some? ==> exists i, j :: FirstBadEdge(ms, i, j)
    ensures error.None? ==> EdgesUpTo(ms, deps, i + 1, 0) && IsReverse(deps, reverse) && NoneBadBefore(ms, i + 1, 0)
  {
    error, deps, reverse := None, deps0, reverse0;
    var m := ms[i];
    for j := 0 to |m.dependsOn|
      invariant EdgesUpTo(ms, deps, i, j) && IsReverse(deps, reverse) && NoneBadBefore(ms, i, j)
    {
      var d := m.dependsOn[j];
      if d == m.name {
        assert FirstBadEdge(ms, i, j);
        return Some(SelfDependency(m.name)), deps, reverse;
      }
      if d !in deps {
        assert FirstBadEdge(ms, i, j);
        return Some(UnknownDependency(m.name, d)), deps, reverse;
      }
      OneMoreEdge(ms, deps, i, j);
      OneMoreGoodEdge(ms, i, j);
      deps, reverse := AddEdge(deps, reverse, m.name, d);
    }
    NextMember(ms, deps, i);
  }

  lemma OneMoreGoodEdge(ms: seq<Member>, i: nat, j: nat)
    requires i < |ms| && j < |ms[i].dependsOn| && NoneBadBefore(ms, i, j) && !BadEdge(ms, i, j)
    ensures NoneBadBefore(ms, i, j + 1)
  {
  }

  lemma OneMoreEdge(ms: seq<Member>, deps: Deps, i: nat, j: nat)
    requires WellNamed(ms) && i < |ms| && j < |ms[i].dependsOn| && EdgesUpTo(ms, deps, i, j)
    ensures EdgesUpTo(ms, deps[ms[i].name := deps[ms[i].name] + {ms[i].dependsOn[j]}], i, j + 1)
  {
    var edges := ms[i].dependsOn;
    assert edges[..j + 1] == edges[..j] + [edges[j]];
    SetOfAppend(edges[..j], edges[j]);
  }

  lemma NextMember(ms: seq<Member>, deps: Deps, i: nat)
    requires i < |ms| && EdgesUpTo(ms, deps, i, |ms[i].dependsOn|) && NoneBadBefore(ms, i, |ms[i].dependsOn|)
    ensures EdgesUpTo(ms, deps, i + 1, 0) && NoneBadBefore(ms, i + 1, 0)
  {
    assert ms[i].dependsOn[..|ms[i].dependsOn|] == ms[i].dependsOn;
  }

  lemma EveryEdgeIsGood(ms: seq<Member>)
    requires NoneBadBefore(ms, |ms|, 0)
    ensures KnownDependencies(ms) && forall n :: n in Graph(ms) ==> n !in Graph(ms)[n]
  {
    forall m, d | m in ms && d in m.dependsOn ensures d in NameSet(ms) && d != m.name {
      var k :| 0 <= k < |ms| && ms[k] == m;
      var l :| 0 <= l < |m.dependsOn| && m.dependsOn[l] == d;
      assert !BadEdge(ms, k, l);
    }
  }

  /** A bad edge is either a one-member cycle or a dependency on no member. */
  lemma BadEdgeMeansCycle(ms: seq<Member>, i: int, j: int)
    requires FirstBadEdge(ms, i, j) && KnownDependencies(ms)
    ensures IsCycle(Graph(ms), [ms[i].name, ms[i].name])
  {
    assert ms[i] in ms && ms[i].dependsOn[j] in ms[i].dependsOn;
  }

  lemma StartOrderDecided(ms: seq<Member>, deps: Deps, p: Priority, out: seq<string>)
    requires WellNamed(ms) && deps.Keys == NameSet(ms)
    requires NoDup(out) && SetOf(out) <= deps.Keys && Greedy(deps, p, out)
    ensures |out| == |ms| ==> LeastTopological(deps, p, out)
    ensures |out| != |ms| ==> deps.Keys - SetOf(out) != {}
  {
    NoDupSize(out);
    var names := seq(|ms|, i requires 0 <= i < |ms| => ms[i].name);
    assert NoDup(names);
    assert SetOf(names) == NameSet(ms) by {
      forall n | n in NameSet(ms) ensures n in names {
        var i :| 0 <= i < |ms| && ms[i].name == n;
        assert names[i] == n;
      }
    }
    NoDupSize(names);
    SubsetSameSize(SetOf(out), deps.Keys);
    if |out| == |ms| {
      GreedyIsLeast(deps, p, out);
    }
  }

  lemma GraphHasNoEdgeOut(ms: seq<Member>)
    requires KnownDependencies(ms)
    ensures forall n :: n in Graph(ms) ==> Graph(ms)[n] <= NameSet(ms)
  {
  }

  /** The subgraph Kahn left has an edge out of every node, so it holds a cycle. */
  method ReportCycle(ms: seq<Member>, deps: Deps, indegree: map<string, int>, ghost out: seq<string>)
    returns (path: seq<string>)
    requires WellNamed(ms) && KnownDependencies(ms) && deps == Graph(ms)
    requires forall n :: n in deps ==> n !in deps[n]
    requires Degrees(deps, SetOf(out), {}, indegree) && Available(deps, SetOf(out)) == {}
    requires Closed(deps, SetOf(out)) && deps.Keys - SetOf(out) != {}
    ensures IsSimpleCycle(deps, path) && |path| >= 3 && SetOf(path) !! SetOf(out)
  {
    var alive := set n | n in indegree && indegree[n] > 0;
    GraphHasNoEdgeOut(ms);
    AliveAreTheRest(deps, indegree, SetOf(out), alive);
    forall order ensures !Topological(Restrict(deps, alive), order) {
      RestCannotBeOrdered(deps, SetOf(out), order);
    }
    var found := FindCyclePath(deps, alive);
    path := found.value;
    assert path[0 + 1] in deps[path[0]];
  }

  lemma AliveAreTheRest(deps: Deps, indegree: map<string, int>, placed: set<string>, alive: set<string>)
    requires Degrees(deps, placed, {}, indegree) && Available(deps, placed) == {} && Closed(deps, placed)
    requires alive == set n | n in indegree && indegree[n] > 0
    ensures alive == deps.Keys - placed
  {
    forall n | n in deps ensures n in alive <==> n !in placed {
      StillCounted(deps, placed, indegree, n);
    }
  }

  lemma RestCannotBeOrdered(deps: Deps, placed: set<string>, order: seq<string>)
    requires forall n :: n in deps ==> deps[n] <= deps.Keys
    requires Available(deps, placed) == {} && deps.Keys - placed != {}
    ensures !Topological(Restrict(deps, deps.Keys - placed), order)
  {
    forall n | n in deps.Keys - placed ensures deps[n] * (deps.Keys - placed) != {} {
      StillWaiting(deps, placed, n);
    }
    StalledCannotBeOrdered(deps, deps.Keys - placed, order);
  }

  lemma StillCounted(deps: Deps, placed: set<string>, indegree: map<string, int>, n: string)
    requires Degrees(deps, placed, {}, indegree) && Available(deps, placed) == {}
    requires Closed(deps, placed) && n in deps
    ensures indegree[n] > 0 <==> n !in placed
  {
    if n in placed {
      assert deps[n] - placed == {};
    } else {
      assert n !in Available(deps, placed);
      var d :| d in deps[n] && d !in placed;
      assert d in deps[n] - placed;
    }
  }

  lemma StillWaiting(deps: Deps, placed: set<string>, n: string)
    requires n in deps && deps[n] <= deps.Keys && Available(deps, placed) == {} && n !in placed
    ensures deps[n] * (deps.Keys - placed) != {}
  {
    assert n !in Available(deps, placed);
    var d :| d in deps[n] && d !in placed;
    assert d in deps[n] * (deps.Keys - placed);
  }

  method StartOrder(ms: seq<Member>) returns (r: StartResult)
    ensures r.Ok? ==> WellNamed(ms) && KnownDependencies(ms)
    ensures r.Ok? ==> IsStartOrder(ms, r.order)
    ensures r.Ok? ==> EachAfterItsDependencies(ms, r.order) && EarliestFirst(ms, r.order)
    ensures r.Ok? ==>
      forall k, l, i, j ::
        0 <= k < l < |r.order| && l == k + 1 && 0 <= i < |ms| && 0 <= j < |ms| &&
        r.order[k] == ms[i].name && r.order[l] == ms[j].name ==>
          ms[i].name in ms[j].dependsOn || ms[i].order < ms[j].order || (ms[i].order == ms[j].order && i < j)
    ensures r.Err? ==> ErrorFits(ms, r.error)
    ensures WellNamed(ms) && KnownDependencies(ms) ==> (r.Err? <==> exists c :: IsCycle(Graph(ms), c))
  {
    if |ms| == 0 {
      r := Ok([]);
      NothingToOrder();
      return;
    }
    var error, deps, p := IndexNames(ms);
    if error.Some? {
      return Err(error.value);
    }
    var reverse;
    error, deps, reverse := BuildEdges(ms, deps);
    if error.Some? {
      ghost var i, j :| FirstBadEdge(ms, i, j);
      if KnownDependencies(ms) {
        BadEdgeMeansCycle(ms, i, j);
      }
      return Err(error.value);
    }
    var out, indegree := Kahn(ms, deps, reverse, p);
    StartOrderDecided(ms, deps, p, out);
    if |out| != |ms| {
      var path := ReportCycle(ms, deps, indegree, out);
      return Err(Cycle(path));
    }
    forall c ensures !IsCycle(deps, c) {
      TopologicalMeansAcyclic(deps, out, c);
    }
    OrderFollowsTheFields(ms, out);
    GreedyFollowsTheFields(ms, p, out);
    AllNeighboursInOrder(ms, out);
    r := Ok(out);
  }

  // What a start order is, in the fields and positions of the members alone.

  /** Every member once, each after everything it depends on. */
  ghost predicate EachAfterItsDependencies(ms: seq<Member>, order: seq<string>) {
    && |order| == |ms| && NoDup(order)
    && (forall i :: 0 <= i < |ms| ==> ms[i].name in order)
    && forall i, k, d ::
         0 <= i < |ms| && 0 <= k < |order| && order[k] == ms[i].name && d in ms[i].dependsOn ==> d in order[..k]
  }

  /** A member that could have started at a turn and did not has a higher order, or the same and a later position. */
  ghost predicate EarliestFirst(ms: seq<Member>, order: seq<string>) {
    forall i, j, k, l ::
      0 <= i < |ms| && 0 <= j < |ms| && 0 <= k < l < |order| && order[k] == ms[i].name && order[l] == ms[j].name &&
      SetOf(ms[j].dependsOn) <= SetOf(order[..k]) ==>
        ms[i].order < ms[j].order || (ms[i].order == ms[j].order && i < j)
  }

  lemma DependenciesInGraph(ms: seq<Member>, i: nat)
    requires WellNamed(ms) && i < |ms|
    ensures ms[i].name in Graph(ms) && Graph(ms)[ms[i].name] == SetOf(ms[i].dependsOn)
  {
    assert ms[i] in ms;
    assert forall m :: m in ms && m.name == ms[i].name ==> m == ms[i];
  }

  lemma OrderFollowsTheFields(ms: seq<Member>, order: seq<string>)
    requires WellNamed(ms) && Topological(Graph(ms), order) && |order| == |ms|
    ensures EachAfterItsDependencies(ms, order)
  {
    forall i | 0 <= i < |ms| ensures ms[i].name in order {
      DependenciesInGraph(ms, i);
      assert ms[i].name in SetOf(order);
    }
    forall i, k, d | 0 <= i < |ms| && 0 <= k < |order| && order[k] == ms[i].name && d in ms[i].dependsOn
      ensures d in order[..k]
    {
      DependenciesInGraph(ms, i);
      assert d in Graph(ms)[order[k]];
      assert d in SetOf(order[..k]);
    }
  }

  lemma GreedyFollowsTheFields(ms: seq<Member>, p: Priority, order: seq<string>)
    requires WellNamed(ms) && IsPriority(ms, p) && Greedy(Graph(ms), p, order) && NoDup(order)
    ensures EarliestFirst(ms, order)
  {
    forall i, j, k, l |
      0 <= i < |ms| && 0 <= j < |ms| && 0 <= k < l < |order| && order[k] == ms[i].name && order[l] == ms[j].name &&
      SetOf(ms[j].dependsOn) <= SetOf(order[..k])
      ensures ms[i].order < ms[j].order || (ms[i].order == ms[j].order && i < j)
    {
      DependenciesInGraph(ms, j);
      assert ms[j].name in Available(Graph(ms), SetOf(order[..k]));
      assert IsLeastOf(p, order[k], Available(Graph(ms), SetOf(order[..k])));
      assert Less(p, ms[i].name, ms[j].name);
    }
  }

  /** Of two neighbours the later waits for the earlier, or has the higher order, or the same and a later position. */
  lemma NeighboursInOrder(ms: seq<Member>, order: seq<string>, k: nat, i: nat, j: nat)
    requires WellNamed(ms) && EachAfterItsDependencies(ms, order) && EarliestFirst(ms, order)
    requires k + 1 < |order| && i < |ms| && j < |ms| && order[k] == ms[i].name && order[k + 1] == ms[j].name
    ensures ms[i].name in ms[j].dependsOn ||
      ms[i].order < ms[j].order || (ms[i].order == ms[j].order && i < j)
  {
    if ms[i].name !in ms[j].dependsOn {
      assert order[..k + 1] == order[..k] + [order[k]];
      forall d | d in ms[j].dependsOn ensures d in SetOf(order[..k]) {
        assert d in order[..k + 1];
      }
    }
  }

  lemma AllNeighboursInOrder(ms: seq<Member>, order: seq<string>)
    requires WellNamed(ms) && EachAfterItsDependencies(ms, order) && EarliestFirst(ms, order)
    ensures forall k, l, i, j ::
      0 <= k < l < |order| && l == k + 1 && 0 <= i < |ms| && 0 <= j < |ms| &&
      order[k] == ms[i].name && order[l] == ms[j].name ==>
        ms[i].name in ms[j].dependsOn || ms[i].order < ms[j].order || (ms[i].order == ms[j].order && i < j)
  {
    forall k, l, i, j |
      0 <= k < l < |order| && l == k + 1 && 0 <= i < |ms| && 0 <= j < |ms| &&
      order[k] == ms[i].name && order[l] == ms[j].name
      ensures ms[i].name in ms[j].dependsOn || ms[i].order < ms[j].order || (ms[i].order == ms[j].order && i < j)
    {
      NeighboursInOrder(ms, order, k, i, j);
    }
  }

  lemma NothingToOrder()
    ensures IsPriority([], Priority(map[], map[])) && LeastTopological(Graph([]), Priority(map[], map[]), [])
    ensures forall c :: !IsCycle(Graph([]), c)
  {
    GreedyIsLeast(Graph([]), Priority(map[], map[]), []);
  }

  // ---------------------------------------------------------------------------
  // The registry
  // ---------------------------------------------------------------------------

  datatype Group = Group(id: string, name: string, projectID: string, members: seq<Member>)

  datatype RegistryError =
    | EmptyGroupName
    | NoFreshId
    | InvalidId(id: string)
    | Exists(id: string)
    | NotFound(id: string)
    | BadMembers(error: StartError)

  datatype Result<+T> = Success(value: T) | Failure(error: RegistryError)

  /** Members that some order can start. */
  ghost predicate Startable(ms: seq<Member>) {
    WellNamed(ms) && KnownDependencies(ms) && forall c :: !IsCycle(Graph(ms), c)
  }

  /** Reversing a start order puts every dependent before what it depends on, and back. */
  lemma StopOrderPutsDependentsFirst(deps: Deps, order: seq<string>)
    requires Topological(deps, order)
    ensures NoDup(Reversed(order)) && SetOf(Reversed(order)) == deps.Keys
    ensures forall i, d :: 0 <= i < |order| && d in deps[Reversed(order)[i]] ==> d in Reversed(order)[i + 1..]
    ensures Reversed(Reversed(order)) == order
  {
    var r, n := Reversed(order), |order|;
    forall x | x in order ensures x in r {
      var i :| 0 <= i < n && order[i] == x;
      assert r[n - 1 - i] == x;
    }
    forall i, d | 0 <= i < n && d in deps[r[i]] ensures d in r[i + 1..] {
      assert d in SetOf(order[..n - 1 - i]);
      var j :| 0 <= j < n - 1 - i && order[..n - 1 - i][j] == d;
      assert r[i + 1..][n - 1 - j - (i + 1)] == d;
    }
  }

  class Registry {
    var byID: map<string, Group>

    /** Every stored group sits under its own id, is named, and can be started. */
    ghost predicate Valid()
      reads this
    {
      forall k :: k in byID ==> byID[k].id == k && byID[k].name != "" && Startable(byID[k].members)
    }

    constructor ()
      ensures Valid() && byID == map[]
    {
      byID := map[];
    }

    /**
     * Register a group. freshId is what the id generator answered, hasPrefix the
     * test that an id is a well-formed group id.
     */
    method Create(g: Group, freshId: Option<string>, hasPrefix: string -> bool) returns (r: Result<Group>)
      requires Valid()
      modifies this
      ensures Valid()
      ensures r.Success? ==>
        && (g.id == "" ==> freshId.Some?)
        && r.value == (if g.id == "" then g.(id := freshId.value) else g)
        && r.value.id !in old(byID) && byID == old(byID)[r.value.id := r.value]
      ensures r.Success? <==>
        && g.name != "" && (if g.id == "" then freshId.Some? else hasPrefix(g.id))
        && (if g.id == "" then freshId.value else g.id) !in old(byID) && Startable(g.members)
      ensures r.Failure? ==> byID == old(byID)
      ensures r == Failure(EmptyGroupName) <==> g.name == ""
      ensures r.Failure? && r.error.Exists? ==> r.error.id in byID
      ensures r.Failure? && r.error.BadMembers? ==> ErrorFits(g.members, r.error.error)
    {
      if g.name == "" {
        return Failure(EmptyGroupName);
      }
      var stored := g;
      if g.id == "" {
        if freshId.None? {
          return Failure(NoFreshId);
        }
        stored := g.(id := freshId.value);
      } else if !hasPrefix(g.id) {
        return Failure(InvalidId(g.id));
      }
      if stored.id in byID {
        return Failure(Exists(stored.id));
      }
      var order := StartOrder(stored.members);
      if order.Err? {
        BadMembersCannotStart(stored.members, order.error);
        return Failure(BadMembers(order.error));
      }
      byID := byID[stored.id := stored];
      r := Success(stored);
    }

    /** What is found under an id is the group created with that id, and it can be started. */
    method Get(groupID: string) returns (r: Result<Group>)
      requires Valid()
      ensures r.Success? <==> groupID in byID
      ensures r.Success? ==> r.value == byID[groupID] && r.value.id == groupID && Startable(r.value.members)
      ensures r.Failure? ==> r.error == NotFound(groupID)
    {
      if groupID !in byID {
        return Failure(NotFound(groupID));
      }
      r := Success(byID[groupID]);
    }

    method Remove(groupID: string) returns (r: Result<()>)
      requires Valid()
      modifies this
      ensures Valid() && byID == old(byID) - {groupID}
      ensures r == if groupID in old(byID) then Success(()) else Failure(NotFound(groupID))
    {
      if groupID !in byID {
        assert byID - {groupID} == byID;
        return Failure(NotFound(groupID));
      }
      byID := byID - {groupID};
      r := Success(());
    }

    /** A stored group always has its start order: bad members never got in. */
    method StartOrderOf(groupID: string) returns (r: Result<seq<string>>)
      requires Valid()
      ensures groupID in byID ==> r.Success? && IsStartOrder(byID[groupID].members, r.value)
      ensures groupID in byID ==>
        EachAfterItsDependencies(byID[groupID].members, r.value) && EarliestFirst(byID[groupID].members, r.value)
      ensures groupID !in byID ==> r == Failure(NotFound(groupID))
    {
      if groupID !in byID {
        return Failure(NotFound(groupID));
      }
      var order := StartOrder(byID[groupID].members);
      match order
      case Ok(names) => r := Success(names);
      case Err(e) => r := Failure(BadMembers(e));
    }

    method StopOrderOf(groupID: string) returns (r: Result<seq<string>>)
      requires Valid()
      ensures groupID in byID ==> r.Success? && IsStartOrder(byID[groupID].members, Reversed(r.value))
      ensures groupID in byID ==> EachAfterItsDependencies(byID[groupID].members, Reversed(r.value))
      ensures groupID !in byID ==> r == Failure(NotFound(groupID))
    {
      r := StartOrderOf(groupID);
      if r.Failure? {
        return;
      }
      var names := InReverse(r.value);
      r := Success(names);
    }
  }

  method InReverse(names: seq<string>) returns (reversed: seq<string>)
    ensures Reversed(reversed) == names
  {
    var order := new string[|names|](i requires 0 <= i < |names| => names[i]);
    assert order[..] == names;
    ReverseInPlace(order);
    reversed := order[..];
    assert Reversed(reversed) == names;
  }

  method ReverseInPlace(order: array<string>)
    modifies order
    ensures order[..] == Reversed(old(order[..]))
  {
    var i, j := 0, order.Length - 1;
    while i < j
      invariant 0 <= i <= j + 1 && i + j == order.Length - 1
      invariant forall k :: 0 <= k < order.Length ==>
        order[k] == if i <= k <= j then old(order[k]) else old(order[order.Length - 1 - k])
    {
      order[i], order[j] := order[j], order[i];
      i, j := i + 1, j - 1;
    }
  }

  lemma BadMembersCannotStart(ms: seq<Member>, e: StartError)
    requires ErrorFits(ms, e)
    requires WellNamed(ms) && KnownDependencies(ms) ==> exists c :: IsCycle(Graph(ms), c)
    ensures !Startable(ms)
  {
  }
}
