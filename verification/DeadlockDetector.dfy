/** The wait-for graph of src/txn/conflict.rs and its depth-first cycle search. */
module Deadlock {
  import opened Wrappers
  import opened Collections
  import opened Transactions

  /** An edge from `a` to `b` means that `a` waits for a lock held by `b`. */
  type Graph = map<TransactionId, seq<TransactionId>>

  // ---------------------------------------------------------------------------
  // Graph theory, independent of the search
  // ---------------------------------------------------------------------------

  predicate Edge(g: Graph, a: TransactionId, b: TransactionId) {
    a in g && b in g[a]
  }

  predicate Walk(g: Graph, w: seq<TransactionId>) {
    forall i | 0 <= i < |w| - 1 :: Edge(g, w[i], w[i + 1])
  }

  /** A simple cycle: distinct transactions, each waiting for the next and the last for the first. */
  predicate IsCycle(g: Graph, c: seq<TransactionId>) {
    && c != []
    && Distinct(c)
    && Walk(g, c)
    && Edge(g, c[|c| - 1], c[0])
  }

  /** A closed walk may revisit nodes, so its absence is the strongest form of acyclicity. */
  predicate ClosedWalk(g: Graph, w: seq<TransactionId>) {
    |w| >= 2 && Walk(g, w) && w[0] == w[|w| - 1]
  }

  ghost predicate Acyclic(g: Graph) {
    forall w :: !ClosedWalk(g, w)
  }

  function Elements(s: seq<TransactionId>): set<TransactionId> {
    set x | x in s
  }

  ghost function Nodes(g: Graph): set<TransactionId> {
    g.Keys + set a, b | a in g && b in g[a] :: b
  }

  /** `done` lists nodes so that every edge out of a node leads to an earlier one. */
  ghost predicate Topological(g: Graph, done: seq<TransactionId>) {
    && Distinct(done)
    && forall i, b | 0 <= i < |done| && Edge(g, done[i], b) :: b in done[..i]
  }

  ghost function IndexIn(s: seq<TransactionId>, x: TransactionId): (i: nat)
    requires x in s
    ensures i < |s| && s[i] == x
  {
    var i :| 0 <= i < |s| && s[i] == x;
    i
  }

  /** Along a walk inside a topological order the position strictly falls. */
  lemma {:induction false} WalkDescends(g: Graph, done: seq<TransactionId>, w: seq<TransactionId>, k: nat)
    requires Topological(g, done) && Walk(g, w) && k < |w|
    requires forall x | x in w :: x in done
    ensures k == 0 || IndexIn(done, w[k]) < IndexIn(done, w[0])
  {
    if k > 0 {
      WalkDescends(g, done, w, k - 1);
      var i := IndexIn(done, w[k - 1]);
      assert Edge(g, done[i], w[k]);
      assert w[k] in done[..i];
      var j :| 0 <= j < i && done[j] == w[k];
      assert j == IndexIn(done, w[k]);
    }
  }

  /** Every node of a closed walk waits for someone. */
  lemma ClosedWalkNodesAreKeys(g: Graph, w: seq<TransactionId>)
    requires ClosedWalk(g, w)
    ensures forall x | x in w :: x in g
  {
    forall i | 0 <= i < |w| ensures w[i] in g {
      var k := if i < |w| - 1 then i else 0;
      assert Edge(g, w[k], w[k + 1]);
    }
  }

  lemma {:induction false} TopologicalIsAcyclic(g: Graph, done: seq<TransactionId>)
    requires Topological(g, done)
    requires g.Keys <= Elements(done)
    ensures Acyclic(g)
  {
    forall w | |w| >= 2 && Walk(g, w) && (forall x | x in w :: x in g) ensures w[0] != w[|w| - 1] {
      assert forall x | x in w :: x in Elements(done);
      WalkDescends(g, done, w, |w| - 1);
    }
    forall w ensures !ClosedWalk(g, w) {
      if ClosedWalk(g, w) {
        ClosedWalkNodesAreKeys(g, w);
      }
    }
  }

  lemma {:induction false} CycleIsClosedWalk(g: Graph, c: seq<TransactionId>)
    requires IsCycle(g, c)
    ensures ClosedWalk(g, c + [c[0]])
    ensures !Acyclic(g)
  {
    var w := c + [c[0]];
    forall i | 0 <= i < |w| - 1 ensures Edge(g, w[i], w[i + 1]) {
      if i < |c| - 1 {
        assert Edge(g, c[i], c[i + 1]);
      }
    }
    assert ClosedWalk(g, w);
  }

  // ---------------------------------------------------------------------------
  // The detector
  // ---------------------------------------------------------------------------

  /** What the search has established between two visits of the loop in the DFS. */
  ghost predicate Searching(g: Graph, visited: set<TransactionId>, recStack: set<TransactionId>,
                            path: seq<TransactionId>, done: seq<TransactionId>) {
    && recStack == Elements(path)
    && Distinct(path)
    && Walk(g, path)
    && Topological(g, done)
    && visited == Elements(done) + recStack
    && Elements(done) !! recStack
    && visited <= Nodes(g)
  }

  class DeadlockDetector {
    var waitForGraph: Graph

    constructor ()
      ensures waitForGraph == map[]
      ensures Acyclic(waitForGraph)
    {
      waitForGraph := map[];
      new;
      assert Topological(waitForGraph, []);
      TopologicalIsAcyclic(waitForGraph, []);
    }

    method AddWait(waiter: TransactionId, holder: TransactionId)
      modifies this
      ensures waitForGraph.Keys == old(waitForGraph).Keys + {waiter}
      ensures forall a, b :: Edge(waitForGraph, a, b) <==> Edge(old(waitForGraph), a, b) || (a == waiter && b == holder)
    {
      var holders := if waiter in waitForGraph then waitForGraph[waiter] else [];
      waitForGraph := waitForGraph[waiter := holders + [holder]];
    }

    method RemoveWait(waiter: TransactionId)
      modifies this
      ensures waitForGraph == old(waitForGraph) - {waiter}
      ensures forall a, b :: Edge(waitForGraph, a, b) <==> Edge(old(waitForGraph), a, b) && a != waiter
    {
      waitForGraph := waitForGraph - {waiter};
    }

    /** `Some(c)` is a simple cycle and `None` is returned exactly when there is none,
        whatever the order in which the keys of the hash map are met. */
    method DetectCycle() returns (r: Option<seq<TransactionId>>)
      ensures r.Some? ==> IsCycle(waitForGraph, r.value)
      ensures r.None? <==> Acyclic(waitForGraph)
    {
      var visited, recStack, path := {}, {}, [];
      ghost var done := [];
      var keys := waitForGraph.Keys;
      while keys != {}
        invariant keys <= waitForGraph.Keys
        invariant path == []
        invariant Searching(waitForGraph, visited, recStack, path, done)
        invariant waitForGraph.Keys <= keys + visited
        decreases |keys|
      {
        var txnId :| txnId in keys;
        keys := keys - {txnId};
        if txnId !in visited {
          r, visited, recStack, path, done := DfsDetectCycle(txnId, visited, recStack, path, done);
          if r.Some? {
            CycleIsClosedWalk(waitForGraph, r.value);
            return;
          }
        }
      }
      TopologicalIsAcyclic(waitForGraph, done);
      r := None;
    }

    method DfsDetectCycle(current: TransactionId, visited: set<TransactionId>, recStack: set<TransactionId>,
                          path: seq<TransactionId>, ghost done: seq<TransactionId>)
      returns (r: Option<seq<TransactionId>>, visited': set<TransactionId>, recStack': set<TransactionId>,
               path': seq<TransactionId>, ghost done': seq<TransactionId>)
      requires Searching(waitForGraph, visited, recStack, path, done)
      requires current in Nodes(waitForGraph) - visited
      requires path != [] ==> Edge(waitForGraph, path[|path| - 1], current)
      ensures r.Some? ==> IsCycle(waitForGraph, r.value)
      ensures r.None? ==>
                && Searching(waitForGraph, visited', recStack', path', done')
                && recStack' == recStack && path' == path
                && visited + {current} <= visited'
                && current in done'
                && done <= done'
      decreases |Nodes(waitForGraph) - visited|
    {
      hide *;
      done' := done;
      visited' := visited + {current};
      recStack' := recStack + {current};
      path' := path + [current];
      ghost var here := path';
      EnterNode(waitForGraph, visited, recStack, path, done, current);
      if current in waitForGraph {
        var neighbors := waitForGraph[current];
        var n := 0;
        while n < |neighbors|
          invariant 0 <= n <= |neighbors|
          invariant path' == here && recStack' == recStack + {current}
          invariant visited + {current} <= visited' && done <= done'
          invariant Searching(waitForGraph, visited', recStack', path', done')
          invariant forall i | 0 <= i < n :: neighbors[i] in done'
        {
          var neighbor := neighbors[n];
          SuccessorIsNode(waitForGraph, current, neighbor);
          Classify(waitForGraph, visited', recStack', path', done', neighbor);
          if neighbor !in visited' {
            ShrinkingComplement(Nodes(waitForGraph), visited, visited', current);
            r, visited', recStack', path', done' :=
              DfsDetectCycle(neighbor, visited', recStack', path', done');
            if r.Some? {
              return;
            }
          } else if neighbor in recStack' {
            var start := Position(path', neighbor);
            BackEdgeCloses(waitForGraph, path', start);
            r := Some(path'[start..]);
            return;
          }
          n := n + 1;
        }
      }
      FinishNode(waitForGraph, visited', recStack', path', done', current);
      path' := path'[..|path'| - 1];
      recStack' := recStack' - {current};
      done' := done' + [current];
      assert recStack' == recStack;
      r := None;
    }
  }

  lemma SuccessorIsNode(g: Graph, a: TransactionId, b: TransactionId)
    requires a in g && b in g[a]
    ensures Edge(g, a, b) && b in Nodes(g)
  {
  }

  /** A visited node is either on the path or finished. */
  lemma Classify(g: Graph, visited: set<TransactionId>, recStack: set<TransactionId>,
                 path: seq<TransactionId>, done: seq<TransactionId>, x: TransactionId)
    requires Searching(g, visited, recStack, path, done)
    ensures x in recStack <==> x in path
    ensures x in visited && x !in recStack ==> x in done
    ensures Distinct(path) && Walk(g, path)
  {
  }

  /** Pushing an unvisited successor of the path's end keeps the search state sound. */
  lemma EnterNode(g: Graph, visited: set<TransactionId>, recStack: set<TransactionId>,
                  path: seq<TransactionId>, done: seq<TransactionId>, current: TransactionId)
    requires Searching(g, visited, recStack, path, done)
    requires current in Nodes(g) - visited
    requires path != [] ==> Edge(g, path[|path| - 1], current)
    ensures Searching(g, visited + {current}, recStack + {current}, path + [current], done)
    ensures current !in recStack
  {
    var p := path + [current];
    assert Elements(p) == recStack + {current};
    forall i | 0 <= i < |p| - 1 ensures Edge(g, p[i], p[i + 1]) {
      if i < |path| - 1 {
        assert Edge(g, path[i], path[i + 1]);
      }
    }
    forall i, j | 0 <= i < j < |p| ensures p[i] != p[j] {
      if j == |path| {
        assert p[i] in Elements(path);
      }
    }
  }

  /** `iter().position(..).unwrap()`: defined because the sought id is on the path. */
  method Position(path: seq<TransactionId>, id: TransactionId) returns (start: nat)
    requires id in path
    ensures start < |path| && path[start] == id
    ensures id !in path[..start]
  {
    start := 0;
    while path[start] != id
      invariant start < |path|
      invariant id !in path[..start]
      invariant id in path[start..]
      decreases |path| - start
    {
      start := start + 1;
    }
  }

  lemma ShrinkingComplement(all: set<TransactionId>, small: set<TransactionId>, big: set<TransactionId>, x: TransactionId)
    requires small + {x} <= big && x in all - small
    ensures |all - big| < |all - small|
  {
    assert all - big <= (all - small) - {x};
    SubsetSize(all - big, (all - small) - {x});
  }

  /** The suffix of the path from a back edge's target is a simple cycle. */
  lemma BackEdgeCloses(g: Graph, path: seq<TransactionId>, start: nat)
    requires Distinct(path) && Walk(g, path) && start < |path|
    requires Edge(g, path[|path| - 1], path[start])
    ensures IsCycle(g, path[start..])
  {
    var c := path[start..];
    forall i | 0 <= i < |c| - 1 ensures Edge(g, c[i], c[i + 1]) {
      assert Edge(g, path[start + i], path[start + i + 1]);
    }
  }

  /** A node whose successors are all finished can be finished itself. */
  lemma FinishNode(g: Graph, visited: set<TransactionId>, recStack: set<TransactionId>,
                   path: seq<TransactionId>, done: seq<TransactionId>, current: TransactionId)
    requires Searching(g, visited, recStack, path, done)
    requires path != [] && path[|path| - 1] == current
    requires current in g ==> forall i | 0 <= i < |g[current]| :: g[current][i] in done
    ensures Searching(g, visited, recStack - {current}, path[..|path| - 1], done + [current])
  {
    var p := path[..|path| - 1];
    assert path == p + [current];
    assert Elements(p) == recStack - {current};
    var d := done + [current];
    assert Elements(d) == Elements(done) + {current};
    forall i, b | 0 <= i < |d| && Edge(g, d[i], b) ensures b in d[..i] {
      if i < |done| {
        assert d[i] == done[i] && d[..i] == done[..i];
      } else {
        assert d[..i] == done;
      }
    }
    forall i, j | 0 <= i < j < |d| ensures d[i] != d[j] {
      if j == |done| {
        assert d[i] in Elements(done);
      }
    }
    forall i | 0 <= i < |p| - 1 ensures Edge(g, p[i], p[i + 1]) {
      assert Edge(g, path[i], path[i + 1]);
    }
  }

  // ---------------------------------------------------------------------------
  // What a wait adds and what removing a waiter undoes
  // ---------------------------------------------------------------------------


  /** The graph after `AddWait`, stated on edges only. */
  ghost predicate AddsEdge(g: Graph, h: Graph, waiter: TransactionId, holder: TransactionId) {
    forall a, b :: Edge(h, a, b) <==> Edge(g, a, b) || (a == waiter && b == holder)
  }

  /** The wait of `waiter` for `holder` is the `i`-th edge of the cycle. */
  predicate IsCycleEdge(c: seq<TransactionId>, i: nat, waiter: TransactionId, holder: TransactionId) {
    && i < |c|
    && c[i] == waiter
    && (if i + 1 < |c| then c[i + 1] else c[0]) == holder
  }

  /** Without the new wait on it, a cycle would have been there before. */
  lemma {:induction false} CycleAvoidingNewWait(g: Graph, h: Graph, waiter: TransactionId, holder: TransactionId,
                                                c: seq<TransactionId>)
    requires AddsEdge(g, h, waiter, holder) && IsCycle(h, c)
    requires forall i :: !IsCycleEdge(c, i, waiter, holder)
    ensures IsCycle(g, c)
  {
    forall i | 0 <= i < |c| - 1 ensures Edge(g, c[i], c[i + 1]) {
      assert Edge(h, c[i], c[i + 1]) && !IsCycleEdge(c, i, waiter, holder);
    }
    var last := |c| - 1;
    assert Edge(h, c[last], c[0]) && !IsCycleEdge(c, last, waiter, holder);
  }

  /** If waiting created the deadlock, the new wait is on every cycle there is to find,
      so the transaction that started to wait is always a possible victim. */
  lemma {:induction false} NewWaitIsOnEveryCycle(g: Graph, h: Graph, waiter: TransactionId, holder: TransactionId,
                                                 c: seq<TransactionId>)
    requires Acyclic(g) && AddsEdge(g, h, waiter, holder) && IsCycle(h, c)
    ensures exists i :: IsCycleEdge(c, i, waiter, holder)
  {
    if forall i :: !IsCycleEdge(c, i, waiter, holder) {
      CycleAvoidingNewWait(g, h, waiter, holder, c);
      CycleIsClosedWalk(g, c);
    }
  }

  lemma WalkWithoutWaiter(g: Graph, h: Graph, waiter: TransactionId, holder: TransactionId, w: seq<TransactionId>)
    requires AddsEdge(g, h, waiter, holder) && Walk(h - {waiter}, w)
    ensures Walk(g, w)
  {
    forall i | 0 <= i < |w| - 1 ensures Edge(g, w[i], w[i + 1]) {
      assert Edge(h - {waiter}, w[i], w[i + 1]);
      assert Edge(h, w[i], w[i + 1]);
    }
  }

  /** Aborting the transaction that started to wait restores the deadlock-free graph. */
  lemma {:induction false} RemovingWaiterBreaksDeadlock(g: Graph, h: Graph, waiter: TransactionId, holder: TransactionId)
    requires Acyclic(g) && AddsEdge(g, h, waiter, holder)
    ensures Acyclic(h - {waiter})
  {
    forall w | Walk(h - {waiter}, w) ensures Walk(g, w) {
      WalkWithoutWaiter(g, h, waiter, holder, w);
    }
    assert forall w :: ClosedWalk(h - {waiter}, w) ==> ClosedWalk(g, w);
  }
}
