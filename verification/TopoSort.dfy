/**
  The dependency ordering of scripts/generate-uefi-headers-v2.py: Kahn's
  algorithm over the member types of struct blocks, with the cyclic blocks
  appended at the end, and the emission order of a whole header.
 */
module TopoSort {
  import opened Outcomes
  import opened Sequences

  /** A graph: node `i` depends on the nodes in `g[i]`. */
  type Graph = seq<set<nat>>

  ghost predicate WellFormed(g: Graph)
  {
    forall i, d :: 0 <= i < |g| && d in g[i] ==> d < |g|
  }

  ghost predicate Increasing(s: seq<nat>)
  {
    forall i, j :: 0 <= i < j < |s| ==> s[i] < s[j]
  }

  /** `s` lists every node below `n` exactly once. */
  ghost predicate IsPermutation(s: seq<nat>, n: nat)
  {
    && |s| == n && NoRepeats(s)
    && (forall k :: 0 <= k < n ==> k in s)
    && (forall k :: k in s ==> k < n)
  }

  // --- Cycles ---------------------------------------------------------------------

  /** `j` is a dependency of a dependency ... of `i`, `n` steps away. */
  ghost predicate Path(g: Graph, i: nat, j: nat, n: nat)
    decreases n
  {
    if n == 0 then i == j else i < |g| && exists d :: d in g[i] && Path(g, d, j, n - 1)
  }

  ghost predicate DependsOn(g: Graph, i: nat, j: nat)
  {
    exists n :: n > 0 && Path(g, i, j, n)
  }

  /** `i` lies on a cycle, or depends, directly or not, on a node that does. */
  ghost predicate ReachesCycle(g: Graph, i: nat)
  {
    exists j :: (i == j || DependsOn(g, i, j)) && DependsOn(g, j, j)
  }

  /** Every node of `order` comes after all its dependencies. */
  ghost predicate DependenciesFirst(g: Graph, order: seq<nat>)
  {
    forall k :: 0 <= k < |order| ==> order[k] < |g| && g[order[k]] <= Range(order[..k])
  }

  lemma {:induction false} PathDescends(g: Graph, order: seq<nat>, at: nat, j: nat, n: nat)
    requires DependenciesFirst(g, order) && at < |order|
    requires n > 0 && Path(g, order[at], j, n)
    ensures j in order[..at]
    decreases n
  {
    var d :| d in g[order[at]] && Path(g, d, j, n - 1);
    assert d in Range(order[..at]);
    if n > 1 {
      var next :| 0 <= next < at && order[next] == d;
      PathDescends(g, order, next, j, n - 1);
      assert order[..next] == order[..at][..next];
    }
  }

  lemma NoSelfDependence(g: Graph, order: seq<nat>, at: nat)
    requires DependenciesFirst(g, order) && NoRepeats(order) && at < |order|
    ensures !DependsOn(g, order[at], order[at])
  {
    forall n | n > 0 && Path(g, order[at], order[at], n)
      ensures false
    {
      PathDescends(g, order, at, order[at], n);
    }
  }

  /** A node placed after all its dependencies reaches no cycle. */
  lemma OrderedIsAcyclic(g: Graph, order: seq<nat>, at: nat)
    requires DependenciesFirst(g, order) && NoRepeats(order) && at < |order|
    ensures !ReachesCycle(g, order[at])
  {
    NoSelfDependence(g, order, at);
    forall j, n | n > 0 && Path(g, order[at], j, n)
      ensures !DependsOn(g, j, j)
    {
      PathDescends(g, order, at, j, n);
      var next :| 0 <= next < at && order[next] == j;
      NoSelfDependence(g, order, next);
    }
  }

  lemma {:induction false} PathAppend(g: Graph, i: nat, j: nat, n: nat, d: nat)
    requires Path(g, i, j, n) && j < |g| && d in g[j]
    ensures Path(g, i, d, n + 1)
    decreases n
  {
    if n == 0 {
      assert Path(g, d, d, 0);
    } else {
      var e :| e in g[i] && Path(g, e, j, n - 1);
      PathAppend(g, e, j, n - 1, d);
    }
  }

  lemma CyclePrepend(g: Graph, i: nat, d: nat)
    requires i < |g| && d in g[i] && ReachesCycle(g, d)
    ensures ReachesCycle(g, i)
  {
    var j :| (d == j || DependsOn(g, d, j)) && DependsOn(g, j, j);
    if d == j {
      assert Path(g, d, d, 0);
      assert Path(g, i, j, 1);
    } else {
      var n :| n > 0 && Path(g, d, j, n);
      assert Path(g, i, j, n + 1);
    }
  }

  /** `x` has a dependency inside `stuck`. */
  ghost predicate HasDependencyIn(g: Graph, x: nat, stuck: set<nat>)
  {
    x < |g| && exists d :: d in g[x] && d in stuck
  }

  /**
    Following dependencies inside a finite set in which every node has one, a
    node comes up again: `seen` is the trail so far, every member of which
    depends on `i`.
   */
  lemma {:induction false} StuckReachesCycle(g: Graph, stuck: set<nat>, seen: set<nat>, i: nat)
    requires forall x :: x in stuck ==> HasDependencyIn(g, x, stuck)
    requires i in stuck && i !in seen && seen <= stuck
    requires forall x :: x in seen ==> DependsOn(g, x, i)
    ensures ReachesCycle(g, i)
    decreases |stuck - seen|
  {
    assert HasDependencyIn(g, i, stuck);
    var d :| d in g[i] && d in stuck;
    assert Path(g, d, d, 0);
    assert Path(g, i, d, 1);
    var trail := seen + {i};
    forall x | x in trail
      ensures DependsOn(g, x, d)
    {
      if x != i {
        var n :| n > 0 && Path(g, x, i, n);
        PathAppend(g, x, i, n, d);
      }
    }
    if d !in trail {
      assert i in stuck - seen && i !in stuck - trail;
      assert stuck - trail < stuck - seen;
      SmallerSet(stuck - trail, stuck - seen);
      StuckReachesCycle(g, stuck, trail, d);
      CyclePrepend(g, i, d);
    }
  }

  lemma {:induction false} SmallerSet(a: set<nat>, b: set<nat>)
    requires a < b
    ensures |a| < |b|
  {
    var x :| x in b && x !in a;
    assert |b - {x}| == |b| - 1;
    WithinSet(a, b - {x});
  }

  lemma {:induction false} WithinSet(a: set<nat>, b: set<nat>)
    requires a <= b
    ensures |a| <= |b|
    decreases a
  {
    if a != {} {
      var x :| x in a;
      WithinSet(a - {x}, b - {x});
    }
  }

  // --- The sort key ------------------------------------------------------------------

  /** A Python tuple key `(-rank, place)`: higher rank first, then the smaller place. */
  datatype Key = Key(rank: int, place: nat)

  predicate KeyLeq(a: Key, b: Key)
  {
    a.rank > b.rank || (a.rank == b.rank && a.place <= b.place)
  }

  ghost predicate KeysAscend(s: seq<nat>, key: nat -> Key)
  {
    forall i, j :: 0 <= i < j < |s| ==> KeyLeq(key(s[i]), key(s[j]))
  }

  function Insert(x: nat, s: seq<nat>, key: nat -> Key): (r: seq<nat>)
    ensures multiset(r) == multiset(s) + multiset{x}
    ensures |r| == |s| + 1
    ensures forall y :: y in r <==> y == x || y in s
  {
    if s == [] then [x]
    else if KeyLeq(key(x), key(s[0])) then
      assert s == [s[0]] + s[1..];
      [x] + s
    else
      assert s == [s[0]] + s[1..];
      [s[0]] + Insert(x, s[1..], key)
  }

  lemma {:induction false} InsertAscends(x: nat, s: seq<nat>, key: nat -> Key)
    requires KeysAscend(s, key)
    ensures KeysAscend(Insert(x, s, key), key)
  {
    if s != [] && !KeyLeq(key(x), key(s[0])) {
      InsertAscends(x, s[1..], key);
      var rest := Insert(x, s[1..], key);
      forall y | y in rest
        ensures KeyLeq(key(s[0]), key(y))
      {
        if y != x {
          assert y in s[1..];
          var j :| 1 <= j < |s| && s[j] == y;
        }
      }
    }
  }

  /** `sorted(s, key=sort_key)`. */
  function SortBy(s: seq<nat>, key: nat -> Key): (r: seq<nat>)
    ensures multiset(r) == multiset(s)
    ensures |r| == |s|
    ensures forall y :: y in r <==> y in s
  {
    if s == [] then []
    else
      assert s == [s[0]] + s[1..];
      Insert(s[0], SortBy(s[1..], key), key)
  }

  lemma {:induction false} SortByAscends(s: seq<nat>, key: nat -> Key)
    ensures KeysAscend(SortBy(s, key), key)
  {
    if s != [] {
      SortByAscends(s[1..], key);
      InsertAscends(s[0], SortBy(s[1..], key), key);
    }
  }

  lemma {:induction false} InsertKeepsNoRepeats(x: nat, s: seq<nat>, key: nat -> Key)
    requires NoRepeats(s) && x !in s
    ensures NoRepeats(Insert(x, s, key))
  {
    if s != [] && !KeyLeq(key(x), key(s[0])) {
      InsertKeepsNoRepeats(x, s[1..], key);
      assert s[0] !in Insert(x, s[1..], key);
    }
  }

  lemma {:induction false} SortKeepsNoRepeats(s: seq<nat>, key: nat -> Key)
    requires NoRepeats(s)
    ensures NoRepeats(SortBy(s, key))
  {
    if s != [] {
      SortKeepsNoRepeats(s[1..], key);
      assert s[0] !in s[1..];
      InsertKeepsNoRepeats(s[0], SortBy(s[1..], key), key);
    }
  }

  // --- Kahn's algorithm ---------------------------------------------------------------

  ghost predicate AreLeaves(g: Graph, s: seq<nat>)
  {
    forall x: nat :: x in s <==> x < |g| && g[x] == {}
  }

  ghost function Below(n: nat): (s: set<nat>)
    ensures forall x: nat :: x in s <==> x < n
  {
    if n == 0 then {} else Below(n - 1) + {n - 1}
  }

  /** The nodes with no dependency at all, in input order. */
  method Leaves(g: Graph) returns (ready: seq<nat>)
    ensures Increasing(ready) && AreLeaves(g, ready)
  {
    ready := [];
    for i := 0 to |g|
      invariant Increasing(ready) && forall k :: 0 <= k < |ready| ==> ready[k] < i
      invariant forall x: nat :: x in ready <==> x < i && g[x] == {}
    {
      if g[i] == {} {
        ready := ready + [i];
      }
    }
  }

  /** `deps` holds, of each node's dependencies, those not yet placed. */
  ghost predicate Outstanding(g: Graph, deps: Graph, placed: set<nat>)
  {
    |deps| == |g| && forall i :: 0 <= i < |g| ==> deps[i] == g[i] - placed
  }

  /** The inner loop: drop `node` everywhere and collect the nodes it was the last dependency of. */
  method Release(g: Graph, node: nat, placed: set<nat>, before: Graph) returns (deps: Graph, ready: seq<nat>)
    requires Outstanding(g, before, placed) && node !in placed
    ensures Outstanding(g, deps, placed + {node})
    ensures forall x: nat :: x in ready <==>
      x < |g| && x !in placed && x != node && node in before[x] && deps[x] == {}
  {
    deps, ready := before, [];
    for i := 0 to |g|
      invariant |deps| == |g|
      invariant forall k :: 0 <= k < i ==> deps[k] == g[k] - (placed + {node})
      invariant forall k :: i <= k < |g| ==> deps[k] == before[k]
      invariant forall x: nat :: x in ready <==>
        x < i && x !in placed && x != node && node in before[x] && deps[x] == {}
    {
      if node in deps[i] {
        deps := deps[i := deps[i] - {node}];
        if deps[i] == {} && i !in placed + {node} {
          ready := ready + [i];
        }
      }
    }
  }

  /** The place in `order` of the last of these nodes, or -1. */
  ghost function LastIn(order: seq<nat>, nodes: set<nat>): (k: int)
    ensures -1 <= k < |order|
  {
    if order == [] then -1
    else if order[|order| - 1] in nodes then |order| - 1
    else LastIn(order[..|order| - 1], nodes)
  }

  lemma {:induction false} LastInIs(order: seq<nat>, nodes: set<nat>)
    ensures var k := LastIn(order, nodes);
      (k >= 0 ==> order[k] in nodes) && forall j :: k < j < |order| ==> order[j] !in nodes
  {
    if order != [] && order[|order| - 1] !in nodes {
      LastInIs(order[..|order| - 1], nodes);
    }
  }

  lemma LastInNext(order: seq<nat>, node: nat, nodes: set<nat>)
    ensures LastIn(order + [node], nodes) == if node in nodes then |order| else LastIn(order, nodes)
  {
    assert (order + [node])[..|order|] == order;
  }

  /** `x` comes no later than `y`: its last dependency was placed earlier or, with the same one, its key is no greater. */
  ghost predicate NoLater(g: Graph, order: seq<nat>, key: nat -> Key, x: nat, y: nat)
  {
    && x < |g| && y < |g|
    && (LastIn(order, g[x]) < LastIn(order, g[y]) || (LastIn(order, g[x]) == LastIn(order, g[y]) && KeyLeq(key(x), key(y))))
  }

  /** The nodes of `s` are in the order in which placing `order` makes them ready, by key where one node makes several ready. */
  ghost predicate InTurn(g: Graph, order: seq<nat>, key: nat -> Key, s: seq<nat>)
  {
    forall i, j :: 0 <= i < j < |s| ==> NoLater(g, order, key, s[i], s[j])
  }

  lemma InTurnWithout(g: Graph, order: seq<nat>, key: nat -> Key, a: seq<nat>, x: nat, b: seq<nat>)
    requires InTurn(g, order, key, a + ([x] + b))
    ensures InTurn(g, order, key, a + b)
  {
    var all, less := a + ([x] + b), a + b;
    forall i, j | 0 <= i < j < |less|
      ensures NoLater(g, order, key, less[i], less[j])
    {
      var i', j' := if i < |a| then i else i + 1, if j < |a| then j else j + 1;
      assert less[i] == all[i'] && less[j] == all[j'];
    }
  }

  /** Nodes that were ready before stay in turn; those that `node` makes ready come behind them. */
  lemma InTurnNext(g: Graph, order: seq<nat>, key: nat -> Key, node: nat, all: seq<nat>, more: seq<nat>)
    requires InTurn(g, order, key, all) && KeysAscend(more, key)
    requires forall k :: 0 <= k < |all| ==> all[k] < |g| && node !in g[all[k]]
    requires forall k :: 0 <= k < |more| ==> more[k] < |g| && node in g[more[k]]
    ensures InTurn(g, order + [node], key, all + more)
  {
    var next := all + more;
    forall i, j | 0 <= i < j < |next|
      ensures NoLater(g, order + [node], key, next[i], next[j])
    {
      LastInNext(order, node, g[next[i]]);
      LastInNext(order, node, g[next[j]]);
      if j < |all| {
        assert NoLater(g, order, key, all[i], all[j]);
      } else if i >= |all| {
        assert KeyLeq(key(more[i - |all|]), key(more[j - |all|]));
      }
    }
  }

  /** The front of the emission order is the sorted list of dependency-free nodes. */
  ghost predicate LeavesFirst(leaves: seq<nat>, order: seq<nat>, queue: seq<nat>)
  {
    if |order| <= |leaves| then leaves <= order + queue else leaves <= order
  }

  /** The queue holds ready nodes only, and every ready node that is not placed. */
  ghost predicate QueueReady(g: Graph, deps: Graph, queue: seq<nat>, placed: set<nat>)
    requires |deps| == |g|
  {
    && (forall x :: x in queue ==> x < |g| && deps[x] == {})
    && (forall x :: 0 <= x < |g| && deps[x] == {} ==> x in placed || x in queue)
  }

  lemma PlaceNext(g: Graph, deps: Graph, order: seq<nat>, node: nat)
    requires DependenciesFirst(g, order) && NoRepeats(order) && Outstanding(g, deps, Range(order))
    requires node < |g| && deps[node] == {} && node !in order
    ensures DependenciesFirst(g, order + [node]) && NoRepeats(order + [node])
    ensures Range(order + [node]) == Range(order) + {node}
  {
    var next := order + [node];
    forall k | 0 <= k < |next|
      ensures next[k] < |g| && g[next[k]] <= Range(next[..k])
    {
      if k < |order| {
        assert next[..k] == order[..k];
      } else {
        assert next[..k] == order;
        assert g[node] - Range(order) == {};
        forall d | d in g[node]
          ensures d in Range(order)
        {
          assert d !in g[node] - Range(order);
        }
      }
    }
  }

  /** When the queue runs dry, the nodes left over are stuck on each other. */
  lemma LeftOverReachCycle(g: Graph, deps: Graph, placed: set<nat>, i: nat)
    requires WellFormed(g) && Outstanding(g, deps, placed) && QueueReady(g, deps, [], placed)
    requires i < |g| && i !in placed
    ensures ReachesCycle(g, i)
  {
    var stuck := Below(|g|) - placed;
    forall x | x in stuck
      ensures HasDependencyIn(g, x, stuck)
    {
      assert deps[x] != {};
      var d :| d in deps[x];
      assert d in g[x] && d in stuck;
    }
    StuckReachesCycle(g, stuck, {}, i);
  }

  lemma HeadAndTail(s: seq<nat>)
    requires s != []
    ensures s == [s[0]] + s[1..]
  {
  }

  /** What the queue loop keeps. */
  ghost predicate Sorting(g: Graph, deps: Graph, queue: seq<nat>, order: seq<nat>, leaves: seq<nat>)
  {
    && Outstanding(g, deps, Range(order)) && QueueReady(g, deps, queue, Range(order))
    && DependenciesFirst(g, order) && NoRepeats(order)
    && LeavesFirst(leaves, order, queue)
  }

  lemma PrefixEndsBefore(s: seq<nat>, all: seq<nat>, a: nat, b: nat)
    requires s <= all && NoRepeats(s) && a < b < |all| && all[a] == all[b]
    ensures |s| <= b
  {
  }

  /** Skipping a node that is already placed. */
  lemma SkipPlaced(g: Graph, deps: Graph, node: nat, queue: seq<nat>, order: seq<nat>, leaves: seq<nat>)
    requires Sorting(g, deps, [node] + queue, order, leaves) && NoRepeats(leaves) && node in order
    ensures Sorting(g, deps, queue, order, leaves)
  {
    forall x | x in [node] + queue
      ensures x == node || x in queue
    {
    }
    forall x | x in queue
      ensures x in [node] + queue
    {
    }
    var at :| 0 <= at < |order| && order[at] == node;
    var all := order + ([node] + queue);
    if |order| <= |leaves| {
      PrefixEndsBefore(leaves, all, at, |order|);
    }
    assert |order| == |leaves| ==> leaves == all[..|order|] == order;
  }

  lemma PlaceInTurn(g: Graph, deps: Graph, node: nat, queue: seq<nat>, order: seq<nat>, leaves: seq<nat>, key: nat -> Key, more: seq<nat>)
    requires Sorting(g, deps, [node] + queue, order, leaves) && node !in order
    requires InTurn(g, order, key, order + ([node] + queue)) && KeysAscend(more, key)
    requires forall x: nat :: x in more ==> x < |g| && node in deps[x]
    ensures InTurn(g, order + [node], key, order + [node] + (queue + more))
  {
    var all := order + ([node] + queue);
    forall k | 0 <= k < |all|
      ensures all[k] < |g| && node !in g[all[k]]
    {
      if k < |order| {
        assert g[order[k]] <= Range(order[..k]);
        assert node !in order[..k];
      } else {
        assert all[k] in [node] + queue;
        assert deps[all[k]] == g[all[k]] - Range(order) == {};
        assert forall d :: d in g[all[k]] && d !in Range(order) ==> d in g[all[k]] - Range(order);
      }
    }
    forall k | 0 <= k < |more|
      ensures more[k] < |g| && node in g[more[k]]
    {
      assert more[k] in more;
    }
    InTurnNext(g, order, key, node, all, more);
    assert all + more == order + [node] + (queue + more);
  }

  /** Placing a ready node and queueing those it releases. */
  lemma PlaceReady(g: Graph, deps: Graph, node: nat, queue: seq<nat>, order: seq<nat>, leaves: seq<nat>,
                   deps': Graph, more: seq<nat>)
    requires Sorting(g, deps, [node] + queue, order, leaves) && node < |g| && node !in order
    requires Outstanding(g, deps', Range(order) + {node})
    requires forall x: nat :: x in more <==>
      x < |g| && x !in Range(order) && x != node && node in deps[x] && deps'[x] == {}
    ensures Sorting(g, deps', queue + more, order + [node], leaves)
    ensures Range(order + [node]) == Range(order) + {node}
  {
    var next, waiting := order + [node], queue + more;
    assert node in [node] + queue;
    PlaceNext(g, deps, order, node);
    forall x | x in waiting
      ensures x < |g| && deps'[x] == {}
    {
      if x in queue {
        assert x in [node] + queue;
        assert deps'[x] <= deps[x];
      }
    }
    forall x: nat | x < |g| && deps'[x] == {}
      ensures x in Range(next) || x in waiting
    {
      if x !in Range(next) && x !in more {
        assert deps[x] == deps'[x];
        assert x in [node] + queue;
      }
    }
    if |order| <= |leaves| {
      assert order + ([node] + queue) + more == next + waiting;
    }
  }

  lemma StartSorting(g: Graph, queue: seq<nat>)
    requires AreLeaves(g, queue)
    ensures Sorting(g, g, queue, [], queue)
  {
    assert Range<nat>([]) == {};
    assert [] + queue == queue;
    forall x | x in queue
      ensures x < |g| && g[x] == {}
    {
    }
  }

  /** The queue before the loop: the dependency-free nodes, by key. */
  method StartQueue(g: Graph, key: nat -> Key) returns (queue: seq<nat>)
    ensures Sorting(g, g, queue, [], queue)
    ensures NoRepeats(queue) && AreLeaves(g, queue) && KeysAscend(queue, key)
  {
    var start := Leaves(g);
    queue := SortBy(start, key);
    SortByAscends(start, key);
    SortKeepsNoRepeats(start, key);
    StartSorting(g, queue);
  }

  /**
    The queue loop: the nodes it places, dependencies first, are exactly those
    that reach no cycle; the dependency-free ones come first, by key.
   */
  method Kahn(g: Graph, key: nat -> Key) returns (order: seq<nat>)
    requires WellFormed(g)
    ensures DependenciesFirst(g, order) && NoRepeats(order)
    ensures forall i :: 0 <= i < |g| ==> (i in order <==> !ReachesCycle(g, i))
    ensures exists leaves :: leaves <= order && AreLeaves(g, leaves) && KeysAscend(leaves, key)
    ensures InTurn(g, order, key, order)
  {
    var queue := StartQueue(g, key);
    ghost var leaves := queue;
    var deps := g;
    var visited: set<nat> := {};
    order := [];
    StartInTurn(g, queue, key);
    while queue != []
      invariant visited == Range(order)
      invariant Sorting(g, deps, queue, order, leaves)
      invariant InTurn(g, order, key, order + queue)
      decreases Below(|g|) - visited, |queue|
    {
      var node := queue[0];
      assert node in queue;
      HeadAndTail(queue);
      queue := queue[1..];
      if node in visited {
        SkipPlaced(g, deps, node, queue, order, leaves);
        InTurnWithout(g, order, key, order, node, queue);
        continue;
      }
      var before := deps;
      var ready;
      deps, ready := Release(g, node, visited, before);
      SortByAscends(ready, key);
      PlaceInTurn(g, before, node, queue, order, leaves, key, SortBy(ready, key));
      PlaceReady(g, before, node, queue, order, leaves, deps, SortBy(ready, key));
      visited := visited + {node};
      order := order + [node];
      queue := queue + SortBy(ready, key);
    }
    PlacedIffAcyclic(g, deps, order, leaves);
    assert order + queue == order;
  }

  lemma StartInTurn(g: Graph, queue: seq<nat>, key: nat -> Key)
    requires AreLeaves(g, queue) && KeysAscend(queue, key)
    ensures InTurn(g, [], key, [] + queue)
  {
    assert [] + queue == queue;
    forall i, j | 0 <= i < j < |queue|
      ensures NoLater(g, [], key, queue[i], queue[j])
    {
      assert queue[i] in queue && queue[j] in queue;
    }
  }

  lemma PlacedIffAcyclic(g: Graph, deps: Graph, order: seq<nat>, leaves: seq<nat>)
    requires WellFormed(g) && Sorting(g, deps, [], order, leaves)
    ensures forall i :: 0 <= i < |g| ==> (i in order <==> !ReachesCycle(g, i))
    ensures leaves <= order
  {
    forall i | 0 <= i < |g|
      ensures i in order <==> !ReachesCycle(g, i)
    {
      if i in order {
        var at :| 0 <= at < |order| && order[at] == i;
        OrderedIsAcyclic(g, order, at);
      } else {
        LeftOverReachCycle(g, deps, Range(order), i);
      }
    }
    assert order + [] == order;
  }

  /** `order` is a dependency order of `g` whose first `placed` entries come from the queue. */
  ghost predicate IsTopoOrder(g: Graph, order: seq<nat>, placed: nat)
  {
    && IsPermutation(order, |g|) && placed <= |order|
    && DependenciesFirst(g, order[..placed])
    && Increasing(order[placed..])
    && (forall k :: 0 <= k < |order| ==> (placed <= k <==> ReachesCycle(g, order[k])))
  }

  ghost predicate Orders(g: Graph, order: seq<nat>)
  {
    exists placed: nat :: IsTopoOrder(g, order, placed)
  }

  /** The loop over what the queue left out, in input order. */
  method AppendCyclic(g: Graph, front: seq<nat>) returns (order: seq<nat>)
    requires DependenciesFirst(g, front) && NoRepeats(front)
    requires forall i :: 0 <= i < |g| ==> (i in front <==> !ReachesCycle(g, i))
    ensures IsTopoOrder(g, order, |front|) && front <= order
  {
    order := front;
    for i := 0 to |g|
      invariant front <= order
      invariant NoRepeats(order) && Increasing(order[|front|..])
      invariant forall k :: |front| <= k < |order| ==> order[k] < i && order[k] !in front
      invariant forall x :: 0 <= x < i ==> x in order
    {
      if i !in front {
        order := order + [i];
      }
    }
    forall k | 0 <= k < |order|
      ensures order[k] < |g| && (|front| <= k <==> ReachesCycle(g, order[k]))
    {
      if k < |front| {
        assert order[k] == front[k];
        assert front[k] in front;
      }
    }
    Enumerates(order, |g|);
    assert order[..|front|] == front;
  }

  /** A list without repeats of all the numbers below `n` and no others has length `n`. */
  lemma {:induction false} Enumerates(s: seq<nat>, n: nat)
    requires NoRepeats(s) && forall k :: 0 <= k < |s| ==> s[k] < n
    requires forall x :: 0 <= x < n ==> x in s
    ensures |s| == n
    decreases n
  {
    assert (if s == [] then 0 else s[0] + 1) <= n;
    if n > 0 {
      assert n - 1 in s;
      var at :| 0 <= at < |s| && s[at] == n - 1;
      var rest := s[..at] + s[at + 1..];
      forall x | 0 <= x < n - 1
        ensures x in rest
      {
        assert x in s;
        var k :| 0 <= k < |s| && s[k] == x;
        assert if k < at then rest[k] == x else rest[k - 1] == x;
      }
      Enumerates(rest, n - 1);
    }
  }

  /**
    The whole sort: a permutation, in which the blocks free of cycles come
    first, each after its dependencies, and the others follow in input order.
   */
  method TopoOrder(g: Graph, key: nat -> Key) returns (order: seq<nat>)
    requires WellFormed(g)
    ensures Orders(g, order)
    ensures exists leaves :: leaves <= order && AreLeaves(g, leaves) && KeysAscend(leaves, key)
    ensures exists placed: nat :: IsTopoOrder(g, order, placed) && InTurn(g, order[..placed], key, order[..placed])
  {
    var front := Kahn(g, key);
    order := AppendCyclic(g, front);
    assert order[..|front|] == front;
    assert IsTopoOrder(g, order, |front|) && InTurn(g, order[..|front|], key, order[..|front|]);
    ghost var leaves :| leaves <= front && AreLeaves(g, leaves) && KeysAscend(leaves, key);
    assert leaves <= order;
  }

  /** An acyclic graph is ordered completely. */
  lemma AcyclicIsOrdered(g: Graph, order: seq<nat>)
    requires Orders(g, order)
    ensures DependenciesFirst(g, order) <==> forall i :: 0 <= i < |g| ==> !ReachesCycle(g, i)
  {
    var placed: nat :| IsTopoOrder(g, order, placed);
    if placed < |order| {
      assert order[placed] in order && ReachesCycle(g, order[placed]);
    }
    if forall i :: 0 <= i < |g| ==> !ReachesCycle(g, i) {
      assert order[..placed] == order;
    } else {
      var i :| 0 <= i < |g| && ReachesCycle(g, i);
      if DependenciesFirst(g, order) {
        assert i in order;
        var at :| 0 <= at < |order| && order[at] == i;
        OrderedIsAcyclic(g, order, at);
      }
    }
  }

  // --- Struct blocks -----------------------------------------------------------------

  /** A block as the scraper reports it: its class, declared name and member types. */
  datatype Block = Block(priority: nat, name: Option<string>, members: set<string>)

  const STRUCT: nat := 3

  /** `d` is the block a member type `t` refers to: the last one declaring it. */
  ghost predicate Declares(blocks: seq<Block>, d: nat, t: string)
  {
    && d < |blocks| && blocks[d].name == Some(t)
    && forall k :: d < k < |blocks| ==> blocks[k].name != Some(t)
  }

  /** Block `i` has a member whose type block `d`, another one, declares. */
  ghost predicate UsesBlock(blocks: seq<Block>, i: nat, d: nat)
    requires i < |blocks|
  {
    d != i && DeclaresOne(blocks, d, blocks[i].members)
  }

  ghost predicate DeclaresOne(blocks: seq<Block>, d: nat, types: set<string>)
  {
    exists t :: t in types && Declares(blocks, d, t)
  }

  ghost predicate IsNameTable(blocks: seq<Block>, table: map<string, nat>)
  {
    && (forall t :: t in table ==> Declares(blocks, table[t], t))
    && (forall d, t :: Declares(blocks, d, t) ==> t in table && table[t] == d)
  }

  ghost function UsedBlocks(blocks: seq<Block>, i: nat): set<nat>
    requires i < |blocks|
  {
    set d: nat | d < |blocks| && UsesBlock(blocks, i, d)
  }

  /** The graph of the blocks: who uses whom. */
  ghost function GraphOf(blocks: seq<Block>): (g: Graph)
    ensures |g| == |blocks| && WellFormed(g)
    ensures forall i, d :: 0 <= i < |g| ==> (d in g[i] <==> UsesBlock(blocks, i, d))
  {
    seq(|blocks|, i requires 0 <= i < |blocks| => UsedBlocks(blocks, i))
  }

  /** `name_to_idx`: later declarations overwrite earlier ones. */
  method NameTable(blocks: seq<Block>) returns (table: map<string, nat>)
    ensures IsNameTable(blocks, table)
  {
    table := map[];
    for i := 0 to |blocks|
      invariant IsNameTable(blocks[..i], table)
    {
      ghost var was := table;
      if blocks[i].name.Some? {
        table := table[blocks[i].name.value := i];
      }
      TableNext(blocks, i, was, table);
    }
    assert blocks[..|blocks|] == blocks;
  }

  lemma TableNext(blocks: seq<Block>, i: nat, was: map<string, nat>, table: map<string, nat>)
    requires i < |blocks| && IsNameTable(blocks[..i], was)
    requires table == if blocks[i].name.Some? then was[blocks[i].name.value := i] else was
    ensures IsNameTable(blocks[..i + 1], table)
  {
    var next := blocks[..i + 1];
    forall t | t in table
      ensures Declares(blocks[..i + 1], table[t], t)
    {
      DeclaresNext(blocks, i, table[t], t);
    }
    forall d, t | Declares(next, d, t)
      ensures t in table && table[t] == d
    {
      DeclaresNext(blocks, i, d, t);
    }
  }

  lemma DeclaresNext(blocks: seq<Block>, i: nat, d: nat, t: string)
    requires i < |blocks|
    ensures Declares(blocks[..i + 1], d, t) <==>
      if blocks[i].name == Some(t) then d == i else Declares(blocks[..i], d, t)
  {
    var now, next := blocks[..i], blocks[..i + 1];
    assert next[i] == blocks[i];
    assert forall k :: 0 <= k < i ==> next[k] == now[k];
  }

  /** One block's dependency set. */
  method BlockDeps(blocks: seq<Block>, table: map<string, nat>, i: nat) returns (deps: set<nat>)
    requires i < |blocks|
    requires IsNameTable(blocks, table)
    ensures forall d :: d in deps <==> UsesBlock(blocks, i, d)
  {
    deps := {};
    var todo := blocks[i].members;
    while todo != {}
      invariant todo <= blocks[i].members
      invariant forall d: nat :: d in deps <==> d != i && DeclaresOne(blocks, d, blocks[i].members - todo)
    {
      var t :| t in todo;
      ghost var done := blocks[i].members - todo;
      todo := todo - {t};
      assert blocks[i].members - todo == done + {t};
      if t in table && table[t] != i {
        deps := deps + {table[t]};
      }
    }
  }

  lemma GraphIs(blocks: seq<Block>, g: Graph)
    requires |g| == |blocks|
    requires forall k, d :: 0 <= k < |g| ==> (d in g[k] <==> UsesBlock(blocks, k, d))
    ensures g == GraphOf(blocks)
  {
    forall k | 0 <= k < |g|
      ensures g[k] == GraphOf(blocks)[k]
    {
      assert forall d :: d in g[k] <==> d in GraphOf(blocks)[k];
    }
  }

  method BuildGraph(blocks: seq<Block>) returns (g: Graph)
    ensures g == GraphOf(blocks)
  {
    var table := NameTable(blocks);
    g := [];
    for i := 0 to |blocks|
      invariant |g| == i
      invariant forall k, d :: 0 <= k < i ==> (d in g[k] <==> UsesBlock(blocks, k, d))
    {
      var deps := BlockDeps(blocks, table, i);
      g := g + [deps];
    }
    GraphIs(blocks, g);
  }

  /** How many blocks depend on `d`. */
  ghost function Dependents(g: Graph, d: nat): nat
  {
    if g == [] then 0
    else Dependents(g[..|g| - 1], d) + if d in g[|g| - 1] then 1 else 0
  }

  method CountDependents(g: Graph) returns (count: seq<nat>)
    requires WellFormed(g)
    ensures |count| == |g| && forall d :: 0 <= d < |g| ==> count[d] == Dependents(g, d)
  {
    count := seq(|g|, _ => 0);
    for i := 0 to |g|
      invariant |count| == |g|
      invariant forall d :: 0 <= d < |g| ==> count[d] == Dependents(g[..i], d)
    {
      ghost var was := count;
      var todo := g[i];
      while todo != {}
        invariant todo <= g[i] && |count| == |g|
        invariant forall d :: 0 <= d < |g| ==> count[d] == was[d] + if d in g[i] - todo then 1 else 0
      {
        var d :| d in todo;
        todo := todo - {d};
        count := count[d := count[d] + 1];
      }
      assert g[..i + 1][..i] == g[..i];
    }
    assert g[..|g|] == g;
  }

  /** The key of struct `i`, whose place in the document is `places[i]`. */
  function SortKey(count: seq<nat>, places: seq<nat>): (key: nat -> Key)
    requires |count| == |places|
  {
    (i: nat) => if i < |count| then Key(count[i], places[i]) else Key(0, 0)
  }

  /**
    `topo_sort_structs`: the struct blocks, given with their places in the
    document, in dependency order.
   */
  method TopoSortStructs(places: seq<nat>, blocks: seq<Block>)
    returns (order: seq<nat>)
    requires |places| == |blocks|
    ensures Orders(GraphOf(blocks), order)
    ensures exists leaves :: leaves <= order && AreLeaves(GraphOf(blocks), leaves)
                             && RankedFirst(GraphOf(blocks), places, leaves)
    ensures OrdersInTurn(GraphOf(blocks), places, order)
  {
    var g := BuildGraph(blocks);
    var count := CountDependents(g);
    order := TopoOrder(g, SortKey(count, places));
    ghost var leaves :| leaves <= order && AreLeaves(g, leaves) && KeysAscend(leaves, SortKey(count, places));
    KeysRank(g, count, places, leaves);
    ghost var placed: nat :| IsTopoOrder(g, order, placed) && InTurn(g, order[..placed], SortKey(count, places), order[..placed]);
    TurnsRank(g, count, places, order[..placed]);
  }

  /** Behind the front that comes from the queue, in turn, the blocks that reach a cycle. */
  ghost predicate OrdersInTurn(g: Graph, places: seq<nat>, order: seq<nat>)
    requires |places| == |g|
  {
    exists placed: nat :: IsTopoOrder(g, order, placed) && RankedInTurn(g, places, order[..placed])
  }

  /**
    Each block comes in the turn of the last of its dependencies; of the blocks
    with the same one, those with more dependents come first, and those with
    equally many in document order.
   */
  ghost predicate RankedInTurn(g: Graph, places: seq<nat>, s: seq<nat>)
    requires |places| == |g|
  {
    && (forall k :: 0 <= k < |s| ==> s[k] < |g|)
    && forall i, j :: 0 <= i < j < |s| ==>
      || LastIn(s, g[s[i]]) < LastIn(s, g[s[j]])
      || (LastIn(s, g[s[i]]) == LastIn(s, g[s[j]])
          && (|| Dependents(g, s[i]) > Dependents(g, s[j])
              || (Dependents(g, s[i]) == Dependents(g, s[j]) && places[s[i]] <= places[s[j]])))
  }

  lemma TurnsRank(g: Graph, count: seq<nat>, places: seq<nat>, s: seq<nat>)
    requires |places| == |g| == |count| && InTurn(g, s, SortKey(count, places), s) && forall k :: 0 <= k < |s| ==> s[k] < |g|
    requires forall d :: 0 <= d < |g| ==> count[d] == Dependents(g, d)
    ensures RankedInTurn(g, places, s)
  {
    var key := SortKey(count, places);
    forall i, j | 0 <= i < j < |s|
      ensures LastIn(s, g[s[i]]) < LastIn(s, g[s[j]])
        || (LastIn(s, g[s[i]]) == LastIn(s, g[s[j]])
            && (|| Dependents(g, s[i]) > Dependents(g, s[j])
                || (Dependents(g, s[i]) == Dependents(g, s[j]) && places[s[i]] <= places[s[j]])))
    {
      assert NoLater(g, s, key, s[i], s[j]);
    }
  }

  /** The number of blocks that depend on `d`. */
  lemma {:induction false} DependentsAre(g: Graph, d: nat)
    ensures Dependents(g, d) == |set i | 0 <= i < |g| && d in g[i]|
  {
    if g != [] {
      var n := |g| - 1;
      DependentsAre(g[..n], d);
      var now, was := set i | 0 <= i < |g| && d in g[i], set i | 0 <= i < n && d in g[..n][i];
      assert now == was + if d in g[n] then {n} else {};
    }
  }

  /** An edge: another block, the last of that name, declares the type of a member. */
  lemma EdgeIff(blocks: seq<Block>, i: nat, d: nat)
    requires i < |blocks|
    ensures d in GraphOf(blocks)[i] <==>
      && d != i && d < |blocks| && blocks[d].name.Some? && blocks[d].name.value in blocks[i].members
      && forall k :: d < k < |blocks| ==> blocks[k].name != blocks[d].name
  {
    if d < |blocks| && blocks[d].name.Some? && blocks[d].name.value in blocks[i].members
       && forall k :: d < k < |blocks| ==> blocks[k].name != blocks[d].name {
      assert Declares(blocks, d, blocks[d].name.value);
    }
  }

  /** Blocks with more dependents come first, blocks with equally many in document order. */
  ghost predicate RankedFirst(g: Graph, places: seq<nat>, s: seq<nat>)
    requires |places| == |g|
  {
    && (forall k :: 0 <= k < |s| ==> s[k] < |g|)
    && forall i, j :: 0 <= i < j < |s| ==>
      || Dependents(g, s[i]) > Dependents(g, s[j])
      || (Dependents(g, s[i]) == Dependents(g, s[j]) && places[s[i]] <= places[s[j]])
  }

  lemma KeysRank(g: Graph, count: seq<nat>, places: seq<nat>, s: seq<nat>)
    requires |places| == |g| == |count| && AreLeaves(g, s) && KeysAscend(s, SortKey(count, places))
    requires forall d :: 0 <= d < |g| ==> count[d] == Dependents(g, d)
    ensures RankedFirst(g, places, s)
  {
    forall k | 0 <= k < |s|
      ensures s[k] < |g|
    {
      assert s[k] in s;
    }
    var key := SortKey(count, places);
    forall i, j | 0 <= i < j < |s|
      ensures || Dependents(g, s[i]) > Dependents(g, s[j])
              || (Dependents(g, s[i]) == Dependents(g, s[j]) && places[s[i]] <= places[s[j]])
    {
      assert KeyLeq(key(s[i]), key(s[j]));
    }
  }

  // --- The whole header --------------------------------------------------------------

  /** The indices of the blocks of one side of the split, in document order. */
  ghost predicate IsSplit(blocks: seq<Block>, s: seq<nat>, structs: bool)
  {
    && Increasing(s)
    && forall i: nat :: i in s <==> i < |blocks| && (blocks[i].priority == STRUCT) == structs
  }

  /** Lower priorities first, and document order within one priority. */
  ghost predicate InPriorityOrder(blocks: seq<Block>, s: seq<nat>)
  {
    && (forall k :: 0 <= k < |s| ==> s[k] < |blocks|)
    && forall i, j :: 0 <= i < j < |s| ==>
      || blocks[s[i]].priority < blocks[s[j]].priority
      || (blocks[s[i]].priority == blocks[s[j]].priority && s[i] < s[j])
  }

  function PriorityKey(blocks: seq<Block>): (key: nat -> Key)
  {
    (i: nat) => if i < |blocks| then Key(0 - blocks[i].priority, i) else Key(0, 0)
  }

  lemma SortsByPriority(blocks: seq<Block>, s: seq<nat>)
    requires IsSplit(blocks, s, false)
    ensures InPriorityOrder(blocks, SortBy(s, PriorityKey(blocks)))
    ensures NoRepeats(SortBy(s, PriorityKey(blocks)))
  {
    var key := PriorityKey(blocks);
    var r := SortBy(s, key);
    SortByAscends(s, key);
    SortKeepsNoRepeats(s, key);
    forall k | 0 <= k < |r|
      ensures r[k] < |blocks|
    {
      assert r[k] in r;
    }
    forall i, j | 0 <= i < j < |r|
      ensures || blocks[r[i]].priority < blocks[r[j]].priority
              || (blocks[r[i]].priority == blocks[r[j]].priority && r[i] < r[j])
    {
      assert KeyLeq(key(r[i]), key(r[j]));
    }
  }

  /** The classification loop. */
  method Split(blocks: seq<Block>) returns (others: seq<nat>, structs: seq<nat>)
    ensures IsSplit(blocks, others, false) && IsSplit(blocks, structs, true)
  {
    others, structs := [], [];
    for i := 0 to |blocks|
      invariant IsSplit(blocks[..i], others, false) && IsSplit(blocks[..i], structs, true)
    {
      ghost var now, next := blocks[..i], blocks[..i + 1];
      assert forall k :: 0 <= k < i ==> next[k] == now[k];
      assert next[i] == blocks[i];
      if blocks[i].priority == STRUCT {
        SplitNext(blocks, structs, i);
        structs := structs + [i];
      } else {
        SplitNext(blocks, others, i);
        others := others + [i];
      }
    }
    assert blocks[..|blocks|] == blocks;
  }

  lemma SplitNext(blocks: seq<Block>, s: seq<nat>, i: nat)
    requires i < |blocks| && IsSplit(blocks[..i], s, blocks[i].priority == STRUCT)
    ensures IsSplit(blocks[..i + 1], s + [i], blocks[i].priority == STRUCT)
  {
    forall k | 0 <= k < |s|
      ensures s[k] < i
    {
      assert s[k] in s;
    }
    var now, next := blocks[..i], blocks[..i + 1];
    assert forall k :: 0 <= k < i ==> next[k] == now[k];
    assert next[i] == blocks[i];
  }

  /** Entry `k` of `s`, for each `k` of `order`. */
  function Picked<T>(s: seq<T>, order: seq<nat>): (r: seq<T>)
    requires forall k :: 0 <= k < |order| ==> order[k] < |s|
  {
    seq(|order|, k requires 0 <= k < |order| => s[order[k]])
  }

  /** What the emission order of a header promises. */
  ghost predicate IsEmission(blocks: seq<Block>, order: seq<nat>, others: nat)
  {
    && IsPermutation(order, |blocks|) && others <= |order|
    && InPriorityOrder(blocks, order[..others])
    && (forall k :: 0 <= k < |order| ==>
      order[k] < |blocks| && (others <= k <==> blocks[order[k]].priority == STRUCT))
  }

  /** The two halves together hold every block once. */
  lemma HalvesMakeAll(blocks: seq<Block>, front: seq<nat>, places: seq<nat>, topo: seq<nat>)
    requires forall i: nat :: i in front <==> i < |blocks| && blocks[i].priority != STRUCT
    requires NoRepeats(front) && IsSplit(blocks, places, true) && IsPermutation(topo, |places|)
    requires forall k :: 0 <= k < |topo| ==> topo[k] < |places|
    ensures IsPermutation(front + Picked<nat>(places, topo), |blocks|)
    ensures forall k :: 0 <= k < |topo| ==> Picked<nat>(places, topo)[k] in places
  {
    var back := Picked<nat>(places, topo);
    var all := front + back;
    forall k | 0 <= k < |back|
      ensures back[k] in places
    {
      assert back[k] == places[topo[k]];
    }
    forall k | 0 <= k < |all|
      ensures all[k] in all && all[k] < |blocks|
    {
      assert k < |front| ==> all[k] in front;
      assert k >= |front| ==> all[k] == back[k - |front|];
    }
    forall x: nat | x < |blocks|
      ensures x in all
    {
      if x in places {
        var i :| 0 <= i < |places| && places[i] == x;
        assert i in topo;
        var k :| 0 <= k < |topo| && topo[k] == i;
        assert back[k] == x;
      } else {
        assert x in front;
      }
    }
    forall i, j | 0 <= i < j < |all|
      ensures all[i] != all[j]
    {
      if i < |front| <= j {
        assert all[i] in front && back[j - |front|] in places;
      } else if |front| <= i {
        assert topo[i - |front|] != topo[j - |front|];
        assert back[i - |front|] == all[i] && back[j - |front|] == all[j];
      }
    }
    Enumerates(all, |blocks|);
  }

  ghost predicate AllBelow(s: seq<nat>, n: nat)
  {
    forall k :: 0 <= k < |s| ==> s[k] < n
  }

  /** The header comes out as `others` plain blocks, then the structs, found at `places`, in the order `topo`. */
  ghost predicate EmittedAs(blocks: seq<Block>, order: seq<nat>, others: nat, places: seq<nat>, topo: seq<nat>)
  {
    && IsEmission(blocks, order, others)
    && IsSplit(blocks, places, true) && AllBelow(places, |blocks|) && AllBelow(topo, |places|)
    && Orders(GraphOf(Picked(blocks, places)), topo)
    && OrdersInTurn(GraphOf(Picked(blocks, places)), places, topo)
    && order[others..] == Picked<nat>(places, topo)
  }

  /**
    `reorder_blocks`: every block once; macros, typedefs and function pointers
    by priority in document order; then the structs, each that reaches no
    cycle after the structs its members name, and the others in document order.
   */
  method ReorderBlocks(blocks: seq<Block>) returns (order: seq<nat>)
    ensures exists others, places, topo :: EmittedAs(blocks, order, others, places, topo)
  {
    var plain, structs := Split(blocks);
    assert AllBelow(structs, |blocks|) by {
      forall k | 0 <= k < |structs|
        ensures structs[k] < |blocks|
      {
        assert structs[k] in structs;
      }
    }
    SortsByPriority(blocks, plain);
    var front := SortBy(plain, PriorityKey(blocks));
    var back := TopoSortStructs(structs, Picked(blocks, structs));
    OrderBelow(GraphOf(Picked(blocks, structs)), back);
    HalvesMakeAll(blocks, front, structs, back);
    order := front + Picked<nat>(structs, back);
    EmissionHolds(blocks, front, structs, back);
    assert EmittedAs(blocks, order, |front|, structs, back);
  }

  lemma OrderBelow(g: Graph, order: seq<nat>)
    requires Orders(g, order)
    ensures IsPermutation(order, |g|) && AllBelow(order, |g|)
  {
    forall k | 0 <= k < |order|
      ensures order[k] < |g|
    {
      assert order[k] in order;
    }
  }

  lemma EmissionHolds(blocks: seq<Block>, front: seq<nat>, places: seq<nat>, topo: seq<nat>)
    requires forall i: nat :: i in front <==> i < |blocks| && blocks[i].priority != STRUCT
    requires InPriorityOrder(blocks, front) && IsSplit(blocks, places, true)
    requires forall k :: 0 <= k < |topo| ==> topo[k] < |places|
    requires IsPermutation(front + Picked<nat>(places, topo), |blocks|)
    requires forall k :: 0 <= k < |topo| ==> Picked<nat>(places, topo)[k] in places
    ensures IsEmission(blocks, front + Picked<nat>(places, topo), |front|)
    ensures (front + Picked<nat>(places, topo))[|front|..] == Picked<nat>(places, topo)
  {
    var order := front + Picked<nat>(places, topo);
    assert order[..|front|] == front;
    forall k | 0 <= k < |order|
      ensures order[k] < |blocks| && (|front| <= k <==> blocks[order[k]].priority == STRUCT)
    {
      assert k < |front| ==> order[k] in front;
      assert k >= |front| ==> order[k] in places;
    }
  }
}
