/** core/dag_validation.py: Kahn's algorithm decides whether a plan is a directed acyclic graph. */
module Dag {
  import opened Prelude

  /** Ids are only compared and used as keys. */
  type Id(==, !new)

  /** A missing dependency list is an empty one. */
  datatype Node = Node(id: Id, dependencies: seq<Id>)

  /** An edge runs from a dependency to the node that needs it. */
  type Edge = (Id, Id)

  function Ids(nodes: seq<Node>): seq<Id> {
    seq(|nodes|, i requires 0 <= i < |nodes| => nodes[i].id)
  }

  function EdgesInto(id: Id, dependencies: seq<Id>): seq<Edge> {
    seq(|dependencies|, i requires 0 <= i < |dependencies| => (dependencies[i], id))
  }

  function Edges(nodes: seq<Node>): seq<Edge> {
    if nodes == [] then []
    else
      var n := nodes[|nodes| - 1];
      Edges(nodes[..|nodes| - 1]) + EdgesInto(n.id, n.dependencies)
  }

  /** There is an edge exactly from each dependency of a listed node to that node. */
  lemma {:induction false} EdgesExactly(nodes: seq<Node>, u: Id, v: Id)
    ensures (u, v) in Edges(nodes) <==> exists n <- nodes :: n.id == v && u in n.dependencies
  {
    if nodes != [] {
      var front, n := nodes[..|nodes| - 1], nodes[|nodes| - 1];
      EdgesExactly(front, u, v);
      assert nodes == front + [n];
      if u in n.dependencies && n.id == v {
        var i :| 0 <= i < |n.dependencies| && n.dependencies[i] == u;
        assert EdgesInto(n.id, n.dependencies)[i] == (u, v);
      }
    }
  }

  // ---- what is_dag is meant to decide -----------------------------------------------------

  predicate DependenciesListed(nodes: seq<Node>) {
    forall n <- nodes :: forall d <- n.dependencies :: d in Ids(nodes)
  }

  predicate Feeds(edges: seq<Edge>, u: Id, v: Id) {
    (u, v) in edges
  }

  predicate WalkStep(edges: seq<Edge>, p: seq<Id>, i: nat)
    requires i + 1 < |p|
  {
    (p[i], p[i + 1]) in edges
  }

  predicate IsWalk(edges: seq<Edge>, p: seq<Id>) {
    forall i :: 0 <= i < |p| - 1 ==> WalkStep(edges, p, i)
  }

  /** A walk that comes back to where it started; a self-loop is one of length 2. */
  predicate IsCycle(edges: seq<Edge>, p: seq<Id>) {
    |p| >= 2 && IsWalk(edges, p) && p[0] == p[|p| - 1]
  }

  ghost predicate Cyclic(edges: seq<Edge>) {
    exists p :: IsCycle(edges, p)
  }

  ghost predicate IsDagSpec(nodes: seq<Node>) {
    Distinct(Ids(nodes)) && DependenciesListed(nodes) && !Cyclic(Edges(nodes))
  }

  // ---- counting edges -------------------------------------------------------------------------

  /** The edges into v from nodes not in `done`, counted with repetitions. */
  function CountInto(edges: seq<Edge>, done: set<Id>, v: Id): nat {
    if edges == [] then 0
    else
      var e := edges[|edges| - 1];
      CountInto(edges[..|edges| - 1], done, v) + if e.1 == v && e.0 !in done then 1 else 0
  }

  /** The targets of u's edges, in order and with repetitions. */
  function Targets(edges: seq<Edge>, u: Id): seq<Id> {
    if edges == [] then []
    else
      var e := edges[|edges| - 1];
      Targets(edges[..|edges| - 1], u) + if e.0 == u then [e.1] else []
  }

  function Occurrences(xs: seq<Id>, v: Id): nat {
    if xs == [] then 0 else Occurrences(xs[..|xs| - 1], v) + if xs[|xs| - 1] == v then 1 else 0
  }

  lemma PushEdge(edges: seq<Edge>, e: Edge, done: set<Id>, v: Id)
    ensures CountInto(edges + [e], done, v) == CountInto(edges, done, v) + if e.1 == v && e.0 !in done then 1 else 0
    ensures Targets(edges + [e], v) == Targets(edges, v) + if e.0 == v then [e.1] else []
  {
    assert (edges + [e])[..|edges|] == edges;
  }

  lemma PushOccurrence(xs: seq<Id>, x: Id, v: Id)
    ensures Occurrences(xs + [x], v) == Occurrences(xs, v) + if x == v then 1 else 0
  {
    assert (xs + [x])[..|xs|] == xs;
  }

  /** Finishing u releases each of its edges once. */
  lemma {:induction false} FinishNode(edges: seq<Edge>, done: set<Id>, u: Id, v: Id)
    requires u !in done
    ensures CountInto(edges, done, v) == CountInto(edges, done + {u}, v) + Occurrences(Targets(edges, u), v)
  {
    if edges != [] {
      var front, e := edges[..|edges| - 1], edges[|edges| - 1];
      FinishNode(front, done, u, v);
      if e.0 == u {
        PushOccurrence(Targets(front, u), e.1, v);
      } else {
        assert Targets(edges, u) == Targets(front, u);
      }
    }
  }

  lemma {:induction false} OccurrencesGrow(xs: seq<Id>, k: nat, v: Id)
    requires k <= |xs|
    ensures Occurrences(xs[..k], v) <= Occurrences(xs, v)
    ensures k < |xs| && xs[k] == v ==> Occurrences(xs[..k], v) < Occurrences(xs, v)
  {
    if k < |xs| {
      if k < |xs| - 1 {
        OccurrencesGrow(xs[..|xs| - 1], k, v);
        assert xs[..|xs| - 1][..k] == xs[..k];
      }
    } else {
      assert xs[..k] == xs;
    }
  }

  lemma {:induction false} CountPositive(edges: seq<Edge>, done: set<Id>, v: Id)
    ensures CountInto(edges, done, v) > 0 <==> exists u :: Feeds(edges, u, v) && u !in done
  {
    if edges != [] {
      var front, e := edges[..|edges| - 1], edges[|edges| - 1];
      CountPositive(front, done, v);
      assert edges == front + [e];
      forall u ensures Feeds(edges, u, v) <==> Feeds(front, u, v) || e == (u, v) {}
    }
  }

  lemma {:induction false} TargetsAreTargets(edges: seq<Edge>, u: Id, v: Id)
    ensures v in Targets(edges, u) <==> (u, v) in edges
  {
    if edges != [] {
      var front, e := edges[..|edges| - 1], edges[|edges| - 1];
      TargetsAreTargets(front, u, v);
      assert edges == front + [e];
    }
  }

  // ---- building the graph -----------------------------------------------------------------------

  predicate Represents(edges: seq<Edge>, keys: set<Id>, adj: map<Id, seq<Id>>, inDegree: map<Id, nat>) {
    && adj.Keys == keys && inDegree.Keys == keys
    && (forall u {:trigger adj[u]} | u in keys :: adj[u] == Targets(edges, u))
    && (forall v {:trigger inDegree[v]} | v in keys :: inDegree[v] == CountInto(edges, {}, v))
  }

  lemma AddEdge(edges: seq<Edge>, keys: set<Id>, adj: map<Id, seq<Id>>, inDegree: map<Id, nat>, e: Edge)
    requires Represents(edges, keys, adj, inDegree) && e.0 in keys && e.1 in keys
    ensures Represents(edges + [e], keys, adj[e.0 := adj[e.0] + [e.1]], inDegree[e.1 := inDegree[e.1] + 1])
  {
    forall v <- keys {
      PushEdge(edges, e, {}, v);
    }
  }

  lemma OneMoreInto(id: Id, dependencies: seq<Id>, j: nat)
    requires j < |dependencies|
    ensures EdgesInto(id, dependencies[..j + 1]) == EdgesInto(id, dependencies[..j]) + [(dependencies[j], id)]
  {
  }

  predicate DependsWithin(n: Node, keys: set<Id>) {
    forall d <- n.dependencies :: d in keys
  }

  lemma ListedExactly(nodes: seq<Node>)
    ensures DependenciesListed(nodes) <==> forall k :: 0 <= k < |nodes| ==> DependsWithin(nodes[k], ToSet(Ids(nodes)))
    ensures forall n <- nodes :: n.id in ToSet(Ids(nodes))
  {
    forall k | 0 <= k < |nodes| ensures nodes[k].id in ToSet(Ids(nodes)) { assert Ids(nodes)[k] == nodes[k].id; }
    if DependenciesListed(nodes) {
      forall k | 0 <= k < |nodes| ensures DependsWithin(nodes[k], ToSet(Ids(nodes))) {
        assert nodes[k] in nodes;
      }
    }
  }

  /** The first j dependencies are listed and their edges are added. */
  predicate AddedUpTo(n: Node, j: nat, edges: seq<Edge>, keys: set<Id>, adj: map<Id, seq<Id>>, inDegree: map<Id, nat>)
    requires j <= |n.dependencies|
  {
    && Represents(edges + EdgesInto(n.id, n.dependencies[..j]), keys, adj, inDegree)
    && forall k :: 0 <= k < j ==> n.dependencies[k] in keys
  }

  lemma AddNext(n: Node, j: nat, edges: seq<Edge>, keys: set<Id>, adj: map<Id, seq<Id>>, inDegree: map<Id, nat>)
    requires j < |n.dependencies| && n.id in keys
    requires AddedUpTo(n, j, edges, keys, adj, inDegree)
    ensures var d := n.dependencies[j];
            && (d in adj <==> d in keys) && n.id in inDegree
            && (d in adj ==>
                  AddedUpTo(n, j + 1, edges, keys, adj[d := adj[d] + [n.id]], inDegree[n.id := inDegree[n.id] + 1]))
    ensures n.dependencies[j] !in keys ==> !DependsWithin(n, keys)
  {
    var d := n.dependencies[j];
    OneMoreInto(n.id, n.dependencies, j);
    var before := edges + EdgesInto(n.id, n.dependencies[..j]);
    assert edges + EdgesInto(n.id, n.dependencies[..j + 1]) == before + [(d, n.id)];
    if d in keys { AddEdge(before, keys, adj, inDegree, (d, n.id)); }
  }

  lemma AddStarts(n: Node, edges: seq<Edge>, keys: set<Id>, adj: map<Id, seq<Id>>, inDegree: map<Id, nat>)
    requires Represents(edges, keys, adj, inDegree)
    ensures AddedUpTo(n, 0, edges, keys, adj, inDegree)
  {
    assert edges + EdgesInto(n.id, n.dependencies[..0]) == edges;
  }

  lemma AddEnds(n: Node, edges: seq<Edge>, keys: set<Id>, adj: map<Id, seq<Id>>, inDegree: map<Id, nat>)
    requires AddedUpTo(n, |n.dependencies|, edges, keys, adj, inDegree)
    ensures DependsWithin(n, keys) && Represents(edges + EdgesInto(n.id, n.dependencies), keys, adj, inDegree)
  {
    assert n.dependencies[..|n.dependencies|] == n.dependencies;
  }

  /** Adds the edges into one node, or reports a dependency that is not listed. */
  method AddNode(n: Node, ghost edges: seq<Edge>, ghost keys: set<Id>, adj: map<Id, seq<Id>>, inDegree: map<Id, nat>)
    returns (ok: bool, adj': map<Id, seq<Id>>, inDegree': map<Id, nat>)
    requires Represents(edges, keys, adj, inDegree) && n.id in keys
    ensures ok <==> DependsWithin(n, keys)
    ensures ok ==> Represents(edges + EdgesInto(n.id, n.dependencies), keys, adj', inDegree')
  {
    adj', inDegree' := adj, inDegree;
    AddStarts(n, edges, keys, adj, inDegree);
    var j := 0;
    while j < |n.dependencies|
      invariant 0 <= j <= |n.dependencies|
      invariant AddedUpTo(n, j, edges, keys, adj', inDegree')
    {
      AddNext(n, j, edges, keys, adj', inDegree');
      var d := n.dependencies[j];
      if d !in adj' {
        return false, adj', inDegree';
      }
      adj' := adj'[d := adj'[d] + [n.id]];
      inDegree' := inDegree'[n.id := inDegree'[n.id] + 1];
      j := j + 1;
    }
    AddEnds(n, edges, keys, adj', inDegree');
    ok := true;
  }

  /** The graph of the first i nodes, whose dependencies are all listed. */
  predicate GraphOf(nodes: seq<Node>, i: nat, keys: set<Id>, adj: map<Id, seq<Id>>, inDegree: map<Id, nat>)
    requires i <= |nodes|
  {
    && Represents(Edges(nodes[..i]), keys, adj, inDegree)
    && forall k :: 0 <= k < i ==> DependsWithin(nodes[k], keys)
  }

  lemma GraphStarts(nodes: seq<Node>, keys: set<Id>)
    ensures GraphOf(nodes, 0, keys, map id | id in keys :: [], map id | id in keys :: 0)
  {
    assert nodes[..0] == [];
  }

  lemma GraphNext(nodes: seq<Node>, i: nat, keys: set<Id>, adj: map<Id, seq<Id>>, inDegree: map<Id, nat>)
    requires i < |nodes| && forall k :: 0 <= k < i ==> DependsWithin(nodes[k], keys)
    requires DependsWithin(nodes[i], keys)
    requires Represents(Edges(nodes[..i]) + EdgesInto(nodes[i].id, nodes[i].dependencies), keys, adj, inDegree)
    ensures GraphOf(nodes, i + 1, keys, adj, inDegree)
  {
    assert nodes[..i + 1][..i] == nodes[..i];
  }

  lemma GraphEnds(nodes: seq<Node>, keys: set<Id>, adj: map<Id, seq<Id>>, inDegree: map<Id, nat>)
    requires GraphOf(nodes, |nodes|, keys, adj, inDegree)
    ensures Represents(Edges(nodes), keys, adj, inDegree)
  {
    assert nodes[..|nodes|] == nodes;
  }

  method AddNodes(nodes: seq<Node>, keys: set<Id>)
    returns (ok: bool, adj: map<Id, seq<Id>>, inDegree: map<Id, nat>)
    requires forall n <- nodes :: n.id in keys
    ensures ok <==> forall k :: 0 <= k < |nodes| ==> DependsWithin(nodes[k], keys)
    ensures ok ==> Represents(Edges(nodes), keys, adj, inDegree)
  {
    adj := map id | id in keys :: [];
    inDegree := map id | id in keys :: 0;
    GraphStarts(nodes, keys);
    var i := 0;
    while i < |nodes|
      invariant 0 <= i <= |nodes|
      invariant GraphOf(nodes, i, keys, adj, inDegree)
    {
      ok, adj, inDegree := AddNode(nodes[i], Edges(nodes[..i]), keys, adj, inDegree);
      if !ok {
        return;
      }
      GraphNext(nodes, i, keys, adj, inDegree);
      i := i + 1;
    }
    GraphEnds(nodes, keys, adj, inDegree);
    ok := true;
  }

  method BuildGraph(nodes: seq<Node>) returns (ok: bool, adj: map<Id, seq<Id>>, inDegree: map<Id, nat>)
    ensures ok <==> DependenciesListed(nodes)
    ensures ok ==> Represents(Edges(nodes), ToSet(Ids(nodes)), adj, inDegree)
  {
    ListedExactly(nodes);
    ok, adj, inDegree := AddNodes(nodes, ToSet(Ids(nodes)));
  }

  // ---- the queue loop --------------------------------------------------------------------------------

  /** Every edge into a finished node comes from a node finished earlier. */
  predicate Topological(edges: seq<Edge>, order: seq<Id>) {
    forall j :: 0 <= j < |order| ==> forall e <- edges :: e.1 == order[j] ==> e.0 in order[..j]
  }

  predicate Endpoints(edges: seq<Edge>, keys: set<Id>) {
    forall e <- edges :: e.0 in keys && e.1 in keys
  }

  /** Counters hold the edges from unfinished nodes; a counter is 0 exactly for what is finished or queued. */
  predicate Progress(edges: seq<Edge>, keys: set<Id>, inDegree: map<Id, nat>, done: seq<Id>, queue: seq<Id>) {
    && inDegree.Keys == keys
    && Distinct(done + queue) && ToSet(done + queue) <= keys
    && (forall v <- keys :: inDegree[v] == CountInto(edges, ToSet(done), v))
    && (forall v <- keys :: inDegree[v] == 0 <==> v in done + queue)
  }

  /** While u's edges are released: k of its targets have lost one. */
  predicate Releasing(edges: seq<Edge>, keys: set<Id>, inDegree: map<Id, nat>, done: seq<Id>, targets: seq<Id>,
                      listed: seq<Id>) {
    && inDegree.Keys == keys
    && Distinct(listed) && ToSet(listed) <= keys
    && (forall v <- keys :: inDegree[v] == CountInto(edges, ToSet(done), v) - Occurrences(targets, v))
    && (forall v <- keys :: inDegree[v] == 0 <==> v in listed)
  }

  lemma ReleaseStarts(edges: seq<Edge>, keys: set<Id>, inDegree: map<Id, nat>, done: seq<Id>, u: Id, queue: seq<Id>)
    requires Progress(edges, keys, inDegree, done, [u] + queue)
    ensures Releasing(edges, keys, inDegree, done, [], done + [u] + queue) && u !in ToSet(done)
  {
    assert done + ([u] + queue) == done + [u] + queue;
    DistinctPrefix(done, [u] + queue);
  }

  /** The counter of the next target is still positive. */
  lemma ReleaseNext(edges: seq<Edge>, keys: set<Id>, inDegree: map<Id, nat>, done: seq<Id>, u: Id, k: nat,
                    listed: seq<Id>)
    requires k < |Targets(edges, u)| && u !in ToSet(done) && Endpoints(edges, keys)
    requires Releasing(edges, keys, inDegree, done, Targets(edges, u)[..k], listed)
    ensures var v := Targets(edges, u)[k];
            && v in keys && inDegree[v] > 0
            && Releasing(edges, keys, inDegree[v := inDegree[v] - 1], done, Targets(edges, u)[..k + 1],
                         if inDegree[v] == 1 then listed + [v] else listed)
  {
    var targets := Targets(edges, u);
    var v := targets[k];
    TargetsAreTargets(edges, u, v);
    assert v in targets && (u, v) in edges;
    FinishNode(edges, ToSet(done), u, v);
    OccurrencesGrow(targets, k, v);
    assert targets[..k + 1] == targets[..k] + [v];
    forall x <- keys { PushOccurrence(targets[..k], v, x); }
    assert ToSet(listed + [v]) == ToSet(listed) + {v};
  }

  lemma ReleaseEnds(edges: seq<Edge>, keys: set<Id>, inDegree: map<Id, nat>, done: seq<Id>, u: Id, queue: seq<Id>)
    requires u !in ToSet(done)
    requires Releasing(edges, keys, inDegree, done, Targets(edges, u), done + [u] + queue)
    ensures Progress(edges, keys, inDegree, done + [u], queue)
  {
    assert ToSet(done + [u]) == ToSet(done) + {u};
    forall v <- keys { FinishNode(edges, ToSet(done), u, v); }
  }

  /** After k rounds of the inner loop for u. */
  predicate Round(edges: seq<Edge>, keys: set<Id>, inDegree: map<Id, nat>, done: seq<Id>, u: Id, k: nat, queue: seq<Id>)
    requires k <= |Targets(edges, u)|
  {
    u !in ToSet(done) && Releasing(edges, keys, inDegree, done, Targets(edges, u)[..k], done + [u] + queue)
  }

  lemma RoundStarts(edges: seq<Edge>, keys: set<Id>, inDegree: map<Id, nat>, done: seq<Id>, u: Id, queue: seq<Id>)
    requires Progress(edges, keys, inDegree, done, [u] + queue)
    ensures Round(edges, keys, inDegree, done, u, 0, queue)
  {
    ReleaseStarts(edges, keys, inDegree, done, u, queue);
    assert Targets(edges, u)[..0] == [];
  }

  lemma RoundNext(edges: seq<Edge>, keys: set<Id>, inDegree: map<Id, nat>, done: seq<Id>, u: Id, k: nat, queue: seq<Id>)
    requires k < |Targets(edges, u)| && Endpoints(edges, keys) && Round(edges, keys, inDegree, done, u, k, queue)
    ensures var v := Targets(edges, u)[k];
            && v in inDegree && inDegree[v] > 0
            && Round(edges, keys, inDegree[v := inDegree[v] - 1], done, u, k + 1,
                     if inDegree[v] == 1 then queue + [v] else queue)
  {
    var v := Targets(edges, u)[k];
    ReleaseNext(edges, keys, inDegree, done, u, k, done + [u] + queue);
    assert done + [u] + queue + [v] == done + [u] + (queue + [v]);
  }

  lemma RoundEnds(edges: seq<Edge>, keys: set<Id>, inDegree: map<Id, nat>, done: seq<Id>, u: Id, queue: seq<Id>)
    requires Round(edges, keys, inDegree, done, u, |Targets(edges, u)|, queue)
    ensures Progress(edges, keys, inDegree, done + [u], queue)
  {
    assert Targets(edges, u)[..|Targets(edges, u)|] == Targets(edges, u);
    ReleaseEnds(edges, keys, inDegree, done, u, queue);
  }

  /** The inner loop: u is popped, and its targets lose one incoming edge per edge from u. */
  method Release(ghost edges: seq<Edge>, ghost keys: set<Id>, targets: seq<Id>, inDegree: map<Id, nat>, queue: seq<Id>,
                 ghost done: seq<Id>, u: Id)
    returns (inDegree': map<Id, nat>, queue': seq<Id>)
    requires Progress(edges, keys, inDegree, done, [u] + queue) && Endpoints(edges, keys)
    requires targets == Targets(edges, u)
    ensures Progress(edges, keys, inDegree', done + [u], queue')
  {
    inDegree', queue' := inDegree, queue;
    RoundStarts(edges, keys, inDegree, done, u, queue);
    var k := 0;
    while k < |targets|
      invariant 0 <= k <= |targets|
      invariant Round(edges, keys, inDegree', done, u, k, queue')
    {
      var v := targets[k];
      RoundNext(edges, keys, inDegree', done, u, k, queue');
      inDegree' := inDegree'[v := inDegree'[v] - 1];
      if inDegree'[v] == 0 {
        queue' := queue' + [v];
      }
      k := k + 1;
    }
    RoundEnds(edges, keys, inDegree', done, u, queue');
  }

  predicate FedFrom(edges: seq<Edge>, sources: set<Id>, v: Id) {
    exists u <- sources :: Feeds(edges, u, v)
  }

  /** Nothing left over is free: each leftover node still waits for a leftover node. */
  predicate Blocked(edges: seq<Edge>, rest: set<Id>) {
    forall v {:trigger FedFrom(edges, rest, v)} :: v in rest ==> FedFrom(edges, rest, v)
  }

  method Kahn(ghost edges: seq<Edge>, ghost keys: set<Id>, adj: map<Id, seq<Id>>, inDegree: map<Id, nat>,
              start: seq<Id>)
    returns (order: seq<Id>)
    requires Represents(edges, keys, adj, inDegree) && Endpoints(edges, keys)
    requires Distinct(start) && forall v :: v in start <==> v in keys && inDegree[v] == 0
    ensures Distinct(order) && ToSet(order) <= keys
    ensures Topological(edges, order)
    ensures Blocked(edges, keys - ToSet(order))
  {
    order := [];
    var degrees, queue := inDegree, start;
    assert ToSet<Id>([]) == {};
    assert [] + queue == queue;
    while queue != []
      invariant Progress(edges, keys, degrees, order, queue)
      invariant Topological(edges, order)
      decreases |keys| - |order|
    {
      var u := queue[0];
      assert queue == [u] + queue[1..];
      PopKeepsOrder(edges, keys, degrees, order, queue);
      degrees, queue := Release(edges, keys, adj[u], degrees, queue[1..], order, u);
      order := order + [u];
      DistinctPrefix(order, queue);
    }
    assert order + queue == order;
    forall v <- keys - ToSet(order) ensures FedFrom(edges, keys - ToSet(order), v) {
      CountPositive(edges, ToSet(order), v);
      assert degrees[v] != 0 by { assert v !in order; }
      var u :| Feeds(edges, u, v) && u !in ToSet(order);
      assert (u, v) in edges;
      assert u in keys - ToSet(order);
    }
  }

  lemma PopKeepsOrder(edges: seq<Edge>, keys: set<Id>, inDegree: map<Id, nat>, order: seq<Id>, queue: seq<Id>)
    requires Progress(edges, keys, inDegree, order, queue) && queue != [] && Topological(edges, order)
    ensures Topological(edges, order + [queue[0]])
    ensures queue[0] in keys && queue[0] !in order && |order| < |keys|
  {
    var u := queue[0];
    assert (order + queue)[|order|] == u;
    assert u in order + queue && u in ToSet(order + queue);
    DistinctPrefix(order, queue);
    CountPositive(edges, ToSet(order), u);
    var order' := order + [u];
    forall j | 0 <= j < |order'| ensures forall e <- edges :: e.1 == order'[j] ==> e.0 in order'[..j] {
      assert order'[..j] == order[..j];
      forall e <- edges | e.1 == order'[j] ensures e.0 in order[..j] {
        assert e == (e.0, e.1) && Feeds(edges, e.0, e.1);
      }
    }
    DistinctSize(order + queue);
    SubsetSize(ToSet(order + queue), keys);
  }

  // ---- why the count decides ------------------------------------------------------------------------

  /** Along a walk the topological order descends to the left. */
  lemma {:induction false} WalkDescends(edges: seq<Edge>, order: seq<Id>, p: seq<Id>, j: nat)
    requires Topological(edges, order) && IsWalk(edges, p) && |p| >= 2
    requires j < |order| && p[|p| - 1] == order[j]
    ensures p[0] in order[..j]
  {
    var n := |p|;
    assert WalkStep(edges, p, n - 2);
    if n > 2 {
      var k :| 0 <= k < j && order[..j][k] == p[n - 2];
      var front := p[..n - 1];
      forall i | 0 <= i < n - 2 ensures WalkStep(edges, front, i) { assert WalkStep(edges, p, i); }
      WalkDescends(edges, order, front, k);
      assert order[..k] <= order[..j];
    }
  }

  lemma NotEarlier(order: seq<Id>, j: nat)
    requires Distinct(order) && j < |order|
    ensures order[j] !in order[..j]
  {
  }

  lemma TopologicalIsAcyclic(edges: seq<Edge>, keys: set<Id>, order: seq<Id>)
    requires Topological(edges, order) && Distinct(order) && Endpoints(edges, keys) && ToSet(order) == keys
    ensures !Cyclic(edges)
  {
    forall p | |p| >= 2 && IsWalk(edges, p) ensures !IsCycle(edges, p) {
      assert WalkStep(edges, p, |p| - 2);
      assert p[|p| - 1] in ToSet(order);
      var j :| 0 <= j < |order| && order[j] == p[|p| - 1];
      WalkDescends(edges, order, p, j);
      NotEarlier(order, j);
    }
  }

  lemma PrependToWalk(edges: seq<Edge>, u: Id, p: seq<Id>)
    requires IsWalk(edges, p) && p != [] && Feeds(edges, u, p[0])
    ensures IsWalk(edges, [u] + p)
  {
    var q := [u] + p;
    forall i | 0 <= i < |q| - 1 ensures WalkStep(edges, q, i) {
      if i > 0 { assert WalkStep(edges, p, i - 1); }
    }
  }

  /** Where nothing is free one can walk backwards for ever. */
  lemma {:induction false} WalkBack(edges: seq<Edge>, rest: set<Id>, n: nat) returns (p: seq<Id>)
    requires Blocked(edges, rest) && rest != {}
    ensures |p| == n + 1 && IsWalk(edges, p) && ToSet(p) <= rest
  {
    if n == 0 {
      var v :| v in rest;
      p := [v];
    } else {
      var q := WalkBack(edges, rest, n - 1);
      assert q[0] in ToSet(q) && FedFrom(edges, rest, q[0]);
      var u :| u in rest && Feeds(edges, u, q[0]);
      PrependToWalk(edges, u, q);
      p := [u] + q;
      assert ToSet(p) == {u} + ToSet(q);
    }
  }

  lemma SubWalk(edges: seq<Edge>, p: seq<Id>, i: nat, j: nat)
    requires IsWalk(edges, p) && i < j < |p| && p[i] == p[j]
    ensures Cyclic(edges)
  {
    var q := p[i..j + 1];
    forall k | 0 <= k < |q| - 1 ensures WalkStep(edges, q, k) { assert WalkStep(edges, p, i + k); }
    assert IsCycle(edges, q);
  }

  lemma PigeonHole(p: seq<Id>, rest: set<Id>)
    requires ToSet(p) <= rest && |p| > |rest|
    ensures !Distinct(p)
  {
    SubsetSize(ToSet(p), rest);
    if Distinct(p) { DistinctSize(p); }
  }

  /** So by the pigeonhole principle a blocked leftover contains a cycle. */
  lemma BlockedIsCyclic(edges: seq<Edge>, rest: set<Id>)
    requires Blocked(edges, rest) && rest != {}
    ensures Cyclic(edges)
  {
    var p := WalkBack(edges, rest, |rest|);
    PigeonHole(p, rest);
    var i, j :| 0 <= i < j < |p| && p[i] == p[j];
    SubWalk(edges, p, i, j);
  }

  lemma {:induction false} EdgesConnectNodes(nodes: seq<Node>, prefix: seq<Node>)
    requires DependenciesListed(nodes) && forall n <- prefix :: n in nodes
    ensures Endpoints(Edges(prefix), ToSet(Ids(nodes)))
  {
    if prefix != [] {
      var front, n := prefix[..|prefix| - 1], prefix[|prefix| - 1];
      EdgesConnectNodes(nodes, front);
      assert n in nodes;
      var i :| 0 <= i < |nodes| && nodes[i] == n;
      assert Ids(nodes)[i] == n.id;
      forall e <- EdgesInto(n.id, n.dependencies) ensures e.0 in Ids(nodes) && e.1 in Ids(nodes) {
        assert e.0 in n.dependencies;
      }
    }
  }

  /** The order of a dict: each id where it first occurs. */
  function FirstOccurrences(ids: seq<Id>): (keys: seq<Id>)
    ensures Distinct(keys) && ToSet(keys) == ToSet(ids)
  {
    if ids == [] then []
    else
      var front, last := FirstOccurrences(ids[..|ids| - 1]), ids[|ids| - 1];
      assert ToSet(ids) == ToSet(ids[..|ids| - 1]) + {last};
      if last in ToSet(front) then front
      else
        assert ToSet(front + [last]) == ToSet(front) + {last};
        assert last !in front;
        front + [last]
  }

  function ZeroDegree(keys: seq<Id>, inDegree: map<Id, nat>): (queue: seq<Id>)
    requires Distinct(keys) && forall k <- keys :: k in inDegree
    ensures Distinct(queue) && forall v :: v in queue <==> v in keys && inDegree[v] == 0
  {
    if keys == [] then []
    else
      var front, last := keys[..|keys| - 1], keys[|keys| - 1];
      assert keys == front + [last];
      assert forall k <- front :: k in keys;
      assert last !in front;
      ZeroDegree(front, inDegree) + if inDegree[last] == 0 then [last] else []
  }

  /** True exactly when ids are distinct, dependencies name listed nodes, and there is no cycle. */
  method IsDag(nodes: seq<Node>) returns (ok: bool)
    ensures ok <==> IsDagSpec(nodes)
  {
    if nodes == [] {
      EmptyIsDag();
      return true;
    }
    var listed, adj, inDegree := BuildGraph(nodes);
    if !listed {
      return false;
    }
    var ids := Ids(nodes);
    var keys := FirstOccurrences(ids);
    assert forall k <- keys :: k in ToSet(keys);
    EdgesConnectNodes(nodes, nodes);
    var start := ZeroDegree(keys, inDegree);
    assert forall v :: v in keys <==> v in ToSet(keys);
    var order := Kahn(Edges(nodes), ToSet(ids), adj, inDegree, start);
    ok := |order| == |nodes|;
    CountDecides(nodes, order);
  }

  lemma EmptyIsDag()
    ensures IsDagSpec([])
  {
    forall p: seq<Id> ensures !IsCycle([], p) {
      if |p| >= 2 { assert !WalkStep([], p, 0); }
    }
  }

  lemma FullCountIsDag(nodes: seq<Node>, order: seq<Id>)
    requires DependenciesListed(nodes) && Endpoints(Edges(nodes), ToSet(Ids(nodes)))
    requires Distinct(order) && ToSet(order) <= ToSet(Ids(nodes)) && Topological(Edges(nodes), order)
    requires |order| == |nodes|
    ensures IsDagSpec(nodes)
  {
    var ids := Ids(nodes);
    DistinctSize(order);
    SubsetSize(ToSet(order), ToSet(ids));
    SizeMeansDistinct(ids);
    TopologicalIsAcyclic(Edges(nodes), ToSet(ids), order);
  }

  lemma DagGivesFullCount(nodes: seq<Node>, order: seq<Id>)
    requires IsDagSpec(nodes) && Distinct(order) && ToSet(order) <= ToSet(Ids(nodes))
    requires Blocked(Edges(nodes), ToSet(Ids(nodes)) - ToSet(order))
    ensures |order| == |nodes|
  {
    NothingLeft(Edges(nodes), ToSet(Ids(nodes)), order);
    DistinctSize(order);
    DistinctSize(Ids(nodes));
  }

  lemma NothingLeft(edges: seq<Edge>, keys: set<Id>, order: seq<Id>)
    requires !Cyclic(edges) && ToSet(order) <= keys && Blocked(edges, keys - ToSet(order))
    ensures ToSet(order) == keys
  {
    var rest := keys - ToSet(order);
    assert keys == ToSet(order) + rest;
    if rest != {} { BlockedIsCyclic(edges, rest); }
  }

  lemma CountDecides(nodes: seq<Node>, order: seq<Id>)
    requires DependenciesListed(nodes)
    requires Distinct(order) && ToSet(order) <= ToSet(Ids(nodes)) && Topological(Edges(nodes), order)
    requires Blocked(Edges(nodes), ToSet(Ids(nodes)) - ToSet(order))
    ensures |order| == |nodes| <==> IsDagSpec(nodes)
  {
    EdgesConnectNodes(nodes, nodes);
    if |order| == |nodes| { FullCountIsDag(nodes, order); }
    if IsDagSpec(nodes) { DagGivesFullCount(nodes, order); }
  }
}
