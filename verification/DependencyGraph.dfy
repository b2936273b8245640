/** Reachability and dependency cycles over the required relations of the declared topology
    (nabla/api/homelab_dependency_health.py). */
module DependencyGraph {
  import opened Sorting

  type Order<!Node> = (Node, Node) -> bool
  type Graph<Node> = map<Node, set<Node>>
  type Required<Node> = map<Node, seq<Node>>  // the required, health-bearing targets of each source

  function Successors<Node(!new)>(graph: Graph<Node>, node: Node): set<Node> {
    if node in graph then graph[node] else {}
  }

  ghost predicate Walk<Node(!new)>(graph: Graph<Node>, walk: seq<Node>) {
    && walk != []
    && forall i :: 0 <= i < |walk| - 1 ==> walk[i + 1] in Successors(graph, walk[i])
  }

  ghost predicate WalkFromTo<Node(!new)>(graph: Graph<Node>, walk: seq<Node>, a: Node, b: Node) {
    Walk(graph, walk) && walk[0] == a && walk[|walk| - 1] == b
  }

  ghost predicate Reaches<Node(!new)>(graph: Graph<Node>, a: Node, b: Node) {
    exists walk :: WalkFromTo(graph, walk, a, b)
  }

  lemma ReachesSelf<Node(!new)>(graph: Graph<Node>, a: Node)
    ensures Reaches(graph, a, a)
  {
    assert WalkFromTo(graph, [a], a, a);
  }

  lemma ReachesEdge<Node(!new)>(graph: Graph<Node>, a: Node, b: Node)
    requires b in Successors(graph, a)
    ensures Reaches(graph, a, b)
  {
    assert WalkFromTo(graph, [a, b], a, b);
  }

  lemma ReachesTransitive<Node(!new)>(graph: Graph<Node>, a: Node, b: Node, c: Node)
    requires Reaches(graph, a, b) && Reaches(graph, b, c)
    ensures Reaches(graph, a, c)
  {
    var p :| WalkFromTo(graph, p, a, b);
    var q :| WalkFromTo(graph, q, b, c);
    assert WalkFromTo(graph, p + q[1..], a, c);
  }

  /** A set that holds the start and is closed under edges holds all that the start reaches. */
  lemma {:induction false} ClosedSetHoldsReachable<Node(!new)>(graph: Graph<Node>, closed: set<Node>, walk: seq<Node>)
    requires Walk(graph, walk) && walk[0] in closed
    requires forall v :: v in closed ==> Successors(graph, v) <= closed
    ensures walk[|walk| - 1] in closed
  {
    if |walk| > 1 {
      assert walk[1] in Successors(graph, walk[0]);
      ClosedSetHoldsReachable(graph, closed, walk[1..]);
    }
  }

  /** The nodes of a set as a list, in whatever order the set is iterated. */
  method Listed<Node(!new)>(nodes: set<Node>) returns (list: seq<Node>)
    ensures forall v :: v in list <==> v in nodes
  {
    list := [];
    var left := nodes;
    while left != {}
      invariant left <= nodes
      invariant forall v :: v in list <==> v in nodes - left
    {
      var v :| v in left;
      left := left - {v};
      list := list + [v];
    }
  }

  ghost function AllNodes<Node(!new)>(graph: Graph<Node>): set<Node> {
    graph.Keys + set n, v | n in graph && v in graph[n] :: v
  }

  /** The worklist search computes exactly the reflexive transitive closure, although `pending`
      may hold a node several times. */
  method Reachable<Node(!new)>(start: Node, graph: Graph<Node>) returns (seen: set<Node>)
    ensures forall v :: v in seen <==> Reaches(graph, start, v)
  {
    seen := {};
    var pending := [start];
    ghost var universe := AllNodes(graph) + {start};
    ReachesSelf(graph, start);
    while pending != []
      invariant seen <= universe && forall v :: v in pending ==> v in universe
      invariant start in seen || start in pending
      invariant forall v :: v in seen || v in pending ==> Reaches(graph, start, v)
      invariant forall v, w :: v in seen && w in Successors(graph, v) ==> w in seen || w in pending
      decreases universe - seen, |pending|
    {
      var node := pending[|pending| - 1];
      assert pending == pending[..|pending| - 1] + [node];
      pending := pending[..|pending| - 1];
      if node !in seen {
        seen := seen + {node};
        var found := Listed(Successors(graph, node) - seen);
        forall v | v in found ensures Reaches(graph, start, v) && v in universe {
          ReachesEdge(graph, node, v);
          ReachesTransitive(graph, start, node, v);
        }
        pending := pending + found;
      }
    }
    forall v | Reaches(graph, start, v) ensures v in seen {
      var walk :| WalkFromTo(graph, walk, start, v);
      ClosedSetHoldsReachable(graph, seen, walk);
    }
  }

  // ---------------------------------------------------------------- required relations as a graph

  ghost predicate Edge<Node(!new)>(required: Required<Node>, a: Node, b: Node) {
    a in required && b in required[a]
  }

  ghost predicate Depicts<Node(!new)>(graph: Graph<Node>, required: Required<Node>) {
    forall a, b :: b in Successors(graph, a) <==> Edge(required, a, b)
  }

  ghost predicate DepictsReversed<Node(!new)>(graph: Graph<Node>, required: Required<Node>) {
    forall a, b :: a in Successors(graph, b) <==> Edge(required, a, b)
  }

  /** Both endpoints of every relation, and nothing else that carries an edge. */
  ghost predicate Endpoints<Node(!new)>(nodes: set<Node>, required: Required<Node>) {
    && required.Keys <= nodes
    && forall a, b :: Edge(required, a, b) ==> b in nodes
  }

  method CollectNodes<Node(!new)>(required: Required<Node>) returns (nodes: set<Node>)
    ensures Endpoints(nodes, required)
    ensures forall v :: v in nodes ==> v in required || exists a :: Edge(required, a, v)
  {
    nodes := required.Keys;
    var left := required.Keys;
    while left != {}
      invariant left <= required.Keys <= nodes
      invariant forall a, b :: a !in left && Edge(required, a, b) ==> b in nodes
      invariant forall v :: v in nodes ==> v in required || exists a :: Edge(required, a, v)
    {
      var source :| source in left;
      left := left - {source};
      forall t | t in required[source] ensures Edge(required, source, t) {}
      nodes := nodes + set t | t in required[source];
    }
  }

  method BuildGraphs<Node(!new)>(required: Required<Node>, nodes: set<Node>)
    returns (graph: Graph<Node>, reverse: Graph<Node>)
    requires Endpoints(nodes, required)
    ensures graph.Keys == nodes && Depicts(graph, required)
    ensures reverse.Keys == nodes && DepictsReversed(reverse, required)
  {
    hide Edge;
    EdgesHaveSources(required);
    graph := map n | n in nodes :: {};
    reverse := map n | n in nodes :: {};
    var left := required.Keys;
    while left != {}
      invariant left <= required.Keys
      invariant graph.Keys == nodes && reverse.Keys == nodes
      invariant forall a, b :: a in nodes ==> (b in graph[a] <==> Edge(required, a, b) && a !in left)
      invariant forall a, b :: b in nodes ==> (a in reverse[b] <==> Edge(required, a, b) && a !in left)
    {
      var source :| source in left;
      TargetsAreEdges(required, source);
      graph, reverse := AddTargets(graph, reverse, source, required[source]);
      left := left - {source};
    }
  }

  method AddTargets<Node(!new)>(graph: Graph<Node>, reverse: Graph<Node>, source: Node, targets: seq<Node>)
    returns (graph': Graph<Node>, reverse': Graph<Node>)
    requires source in graph && forall t :: t in targets ==> t in reverse
    ensures graph'.Keys == graph.Keys && reverse'.Keys == reverse.Keys
    ensures forall a, b :: a in graph ==> (b in graph'[a] <==> b in graph[a] || (a == source && b in targets))
    ensures forall a, b :: b in reverse ==> (a in reverse'[b] <==> a in reverse[b] || (a == source && b in targets))
  {
    graph', reverse' := graph, reverse;
    for i := 0 to |targets|
      invariant graph'.Keys == graph.Keys && reverse'.Keys == reverse.Keys
      invariant forall a :: a in graph && a != source ==> graph'[a] == graph[a]
      invariant forall b :: b in graph'[source] <==> b in graph[source] || b in targets[..i]
      invariant forall b :: b in reverse ==>
        reverse'[b] == if b in targets[..i] then reverse[b] + {source} else reverse[b]
    {
      var target := targets[i];
      assert target in targets;
      assert targets[..i + 1] == targets[..i] + [target];
      graph' := graph'[source := graph'[source] + {target}];
      reverse' := reverse'[target := reverse'[target] + {source}];
    }
    assert targets[..|targets|] == targets;
  }

  lemma EdgesHaveSources<Node(!new)>(required: Required<Node>)
    ensures forall a, b :: Edge(required, a, b) ==> a in required
  {
  }

  lemma TargetsAreEdges<Node(!new)>(required: Required<Node>, source: Node)
    requires source in required
    ensures forall b :: Edge(required, source, b) <==> b in required[source]
  {
  }

  lemma {:induction false} ReversedWalk<Node(!new)>(graph: Graph<Node>, reverse: Graph<Node>, required: Required<Node>,
                                        walk: seq<Node>, back: seq<Node>)
    requires Depicts(graph, required) && DepictsReversed(reverse, required)
    requires |back| == |walk| && forall i :: 0 <= i < |walk| ==> back[i] == walk[|walk| - 1 - i]
    ensures Walk(graph, walk) <==> Walk(reverse, back)
  {
    if Walk(graph, walk) {
      forall i | 0 <= i < |back| - 1 ensures back[i + 1] in Successors(reverse, back[i]) {
        var k := |walk| - 2 - i;
        assert walk[k + 1] in Successors(graph, walk[k]);
      }
    }
    if Walk(reverse, back) {
      forall i | 0 <= i < |walk| - 1 ensures walk[i + 1] in Successors(graph, walk[i]) {
        var k := |walk| - 2 - i;
        assert back[k + 1] in Successors(reverse, back[k]);
      }
    }
  }

  lemma ReverseReaches<Node(!new)>(graph: Graph<Node>, reverse: Graph<Node>, required: Required<Node>, a: Node, b: Node)
    requires Depicts(graph, required) && DepictsReversed(reverse, required)
    ensures Reaches(reverse, a, b) <==> Reaches(graph, b, a)
  {
    if Reaches(reverse, a, b) {
      var back :| WalkFromTo(reverse, back, a, b);
      var walk := seq(|back|, i requires 0 <= i < |back| => back[|back| - 1 - i]);
      ReversedWalk(graph, reverse, required, walk, back);
      assert WalkFromTo(graph, walk, b, a);
    }
    if Reaches(graph, b, a) {
      var walk :| WalkFromTo(graph, walk, b, a);
      var back := seq(|walk|, i requires 0 <= i < |walk| => walk[|walk| - 1 - i]);
      ReversedWalk(graph, reverse, required, walk, back);
      assert WalkFromTo(reverse, back, a, b);
    }
  }

  // ---------------------------------------------------------------- dependency chains and cycles

  /** `chain` follows required relations from node to node. */
  ghost predicate Chain<Node(!new)>(required: Required<Node>, chain: seq<Node>) {
    && chain != []
    && forall i :: 0 <= i < |chain| - 1 ==> Edge(required, chain[i], chain[i + 1])
  }

  ghost predicate Depends<Node(!new)>(required: Required<Node>, a: Node, b: Node) {
    exists chain :: Chain(required, chain) && chain[0] == a && chain[|chain| - 1] == b
  }

  ghost predicate Mutual<Node(!new)>(required: Required<Node>, a: Node, b: Node) {
    Depends(required, a, b) && Depends(required, b, a)
  }

  /** Some other node both depends on this one and is depended on by it. */
  ghost predicate HasPartner<Node(!new)>(required: Required<Node>, v: Node) {
    exists w :: w != v && Mutual(required, v, w)
  }

  /** A chain of at least one relation leads from the node back to itself. */
  ghost predicate OnCycle<Node(!new)>(required: Required<Node>, v: Node) {
    exists chain :: |chain| > 1 && Chain(required, chain) && chain[0] == v && chain[|chain| - 1] == v
  }

  /** What the topology's relation validator guarantees. */
  ghost predicate NoSelfRelation<Node(!new)>(required: Required<Node>) {
    forall a, b :: Edge(required, a, b) ==> a != b
  }

  /** `members` lists, in increasing order and once each, the nodes that depend on `v` and on
      which `v` depends: its strongly connected component. */
  ghost predicate ListsComponent<Node(!new)>(members: seq<Node>, required: Required<Node>, v: Node, le: Order<Node>) {
    && (forall w :: w in members <==> Mutual(required, v, w))
    && (forall i, j :: 0 <= i < j < |members| ==> le(members[i], members[j]) && members[i] != members[j])
  }

  lemma ChainsAreWalks<Node(!new)>(graph: Graph<Node>, required: Required<Node>, a: Node, b: Node)
    requires Depicts(graph, required)
    ensures Reaches(graph, a, b) <==> Depends(required, a, b)
  {
    if Reaches(graph, a, b) {
      var walk :| WalkFromTo(graph, walk, a, b);
      assert Chain(required, walk);
    }
    if Depends(required, a, b) {
      var chain :| Chain(required, chain) && chain[0] == a && chain[|chain| - 1] == b;
      assert WalkFromTo(graph, chain, a, b);
    }
  }

  lemma DependsTransitive<Node(!new)>(required: Required<Node>, a: Node, b: Node, c: Node)
    requires Depends(required, a, b) && Depends(required, b, c)
    ensures Depends(required, a, c)
  {
    var p :| Chain(required, p) && p[0] == a && p[|p| - 1] == b;
    var q :| Chain(required, q) && q[0] == b && q[|q| - 1] == c;
    var joined := p + q[1..];
    assert Chain(required, joined) && joined[0] == a && joined[|joined| - 1] == c;
  }

  lemma MutualIsTransitive<Node(!new)>(required: Required<Node>, a: Node, b: Node, c: Node)
    requires Mutual(required, a, b) && Mutual(required, b, c)
    ensures Mutual(required, a, c)
  {
    DependsTransitive(required, a, b, c);
    DependsTransitive(required, c, b, a);
  }

  /** Where no relation loops on itself, having a partner in the component is being on a cycle. */
  lemma CycleIffPartner<Node(!new)>(required: Required<Node>, v: Node)
    requires NoSelfRelation(required)
    ensures OnCycle(required, v) <==> HasPartner(required, v)
  {
    if OnCycle(required, v) {
      var chain :| |chain| > 1 && Chain(required, chain) && chain[0] == v && chain[|chain| - 1] == v;
      var w := chain[1];
      assert Edge(required, chain[0], chain[1]);
      var there, back := chain[..2], chain[1..];
      assert Chain(required, there) && there[0] == v && there[|there| - 1] == w;
      assert Chain(required, back) && back[0] == w && back[|back| - 1] == v;
      assert w != v && Mutual(required, v, w);
    }
    if HasPartner(required, v) {
      var w :| w != v && Mutual(required, v, w);
      var p :| Chain(required, p) && p[0] == v && p[|p| - 1] == w;
      var q :| Chain(required, q) && q[0] == w && q[|q| - 1] == v;
      var around := p + q[1..];
      assert |around| > 1 && Chain(required, around) && around[0] == v && around[|around| - 1] == v;
    }
  }

  /** Two different nodes that depend on each other are both endpoints of relations. */
  lemma NodesKeepMutual<Node(!new)>(required: Required<Node>, nodes: set<Node>, v: Node, w: Node)
    requires Endpoints(nodes, required) && Mutual(required, v, w) && (v != w || v in nodes)
    ensures w in nodes
  {
    var chain :| Chain(required, chain) && chain[0] == w && chain[|chain| - 1] == v;
    assert |chain| > 1 ==> Edge(required, chain[0], chain[1]);
  }

  method Least<Node(!new)>(nodes: set<Node>, le: Order<Node>) returns (least: Node)
    requires nodes != {} && TotalOrder(le)
    ensures least in nodes && forall v :: v in nodes ==> le(least, v)
  {
    LeastExists(nodes, le);
    assert exists v :: v in nodes && forall w :: w in nodes ==> le(v, w) by {
      var v :| IsLeast(v, nodes, le);
    }
    least :| least in nodes && forall v :: v in nodes ==> le(least, v);
  }

  method SortedNodes<Node(!new)>(nodes: set<Node>, le: Order<Node>) returns (list: seq<Node>)
    requires TotalOrder(le)
    ensures forall v :: v in list <==> v in nodes
    ensures forall i, j :: 0 <= i < j < |list| ==> le(list[i], list[j]) && list[i] != list[j]
    ensures |list| == |nodes|
  {
    list := [];
    var left := nodes;
    while left != {}
      invariant left <= nodes
      invariant forall v :: v in list <==> v in nodes - left
      invariant forall v, w :: v in list && w in left ==> le(v, w)
      invariant forall i, j :: 0 <= i < j < |list| ==> le(list[i], list[j]) && list[i] != list[j]
      invariant |list| + |left| == |nodes|
    {
      var v := Least(left, le);
      assert forall i :: 0 <= i < |list| ==> list[i] in list && list[i] != v;
      left := left - {v};
      list := list + [v];
    }
  }

  /** The strongly connected component of a node, as a set. */
  ghost function Component<Node(!new)>(required: Required<Node>, nodes: set<Node>, v: Node): set<Node> {
    set w | w in nodes && Mutual(required, v, w)
  }

  ghost predicate Lists<Node(!new)>(members: seq<Node>, component: set<Node>, le: Order<Node>) {
    && (forall w :: w in members <==> w in component)
    && (forall i, j :: 0 <= i < j < |members| ==> le(members[i], members[j]) && members[i] != members[j])
  }

  /** `components` splits its keys into classes. */
  ghost predicate Splits<Node(!new)>(components: map<Node, set<Node>>) {
    forall v :: v in components ==>
      && v in components[v]
      && components[v] <= components.Keys
      && forall w :: w in components[v] ==> components[w] == components[v]
  }

  /** `cycles` is what it should be as far as the nodes in `done` are concerned. */
  ghost predicate CyclesOf<Node(!new)>(cycles: map<Node, seq<Node>>, components: map<Node, set<Node>>, done: set<Node>,
                           le: Order<Node>) {
    && cycles.Keys <= done <= components.Keys
    && (forall v :: v in done ==> (v in cycles <==> |components[v]| > 1))
    && (forall v :: v in cycles ==> Lists(cycles[v], components[v], le))
  }

  lemma ComponentsSplit<Node(!new)>(required: Required<Node>, nodes: set<Node>)
    returns (components: map<Node, set<Node>>)
    requires Endpoints(nodes, required)
    ensures components.Keys == nodes && Splits(components)
    ensures forall v :: v in nodes ==> components[v] == Component(required, nodes, v)
  {
    components := map v | v in nodes :: Component(required, nodes, v);
    forall v | v in nodes ensures v in components[v] {
      assert Chain(required, [v]);
    }
    forall v, w | v in nodes && w in components[v] ensures components[w] == components[v] {
      forall x | x in nodes ensures Mutual(required, v, x) <==> Mutual(required, w, x) {
        if Mutual(required, v, x) {
          MutualIsTransitive(required, w, v, x);
        }
        if Mutual(required, w, x) {
          MutualIsTransitive(required, v, w, x);
        }
      }
    }
  }

  /** Every node of a required dependency cycle, and no other, is mapped to the sorted members of
      its strongly connected component. */
  method RequiredDependencyCycles<Node(!new)>(required: Required<Node>, le: Order<Node>)
    returns (cycles: map<Node, seq<Node>>)
    requires TotalOrder(le)
    ensures forall v :: v in cycles <==> HasPartner(required, v)
    ensures forall v :: v in cycles ==> ListsComponent(cycles[v], required, v, le)
    ensures NoSelfRelation(required) ==> forall v :: v in cycles <==> OnCycle(required, v)
  {
    hide NoSelfRelation, OnCycle, ListsComponent, Edge, Depicts, DepictsReversed, Endpoints;
    var nodes := CollectNodes(required);
    var graph, reverse := BuildGraphs(required, nodes);
    ghost var components := ComponentsSplit(required, nodes);
    cycles := map[];
    var remaining := nodes;
    ghost var done: set<Node> := {};
    while remaining != {}
      invariant done <= nodes && remaining == nodes - done
      invariant CyclesOf(cycles, components, done, le)
    {
      var start := Least(remaining, le);
      var component, members := SortedComponent(start, graph, reverse, required, nodes, le);
      ghost var before := cycles;
      if |component| > 1 {
        cycles := cycles + map v | v in component :: members;
      }
      CyclesGrow(before, cycles, components, done, component, members, le);
      RemoveTwice(nodes, done, component);
      done := done + component;
      remaining := remaining - component;
    }
    RemoveTwice(nodes, done, {});
    CyclesEverywhere(cycles, required, nodes, components, le);
  }

  method SortedComponent<Node(!new)>(start: Node, graph: Graph<Node>, reverse: Graph<Node>,
                              ghost required: Required<Node>, ghost nodes: set<Node>,
                         le: Order<Node>)
    returns (component: set<Node>, members: seq<Node>)
    requires TotalOrder(le) && Endpoints(nodes, required) && start in nodes
    requires Depicts(graph, required) && DepictsReversed(reverse, required)
    ensures component == Component(required, nodes, start) && Lists(members, component, le)
  {
    var ahead := Reachable(start, graph);
    var behind := Reachable(start, reverse);
    component := ahead * behind;
    forall w ensures w in component <==> Mutual(required, start, w) {
      ReverseReaches(graph, reverse, required, start, w);
      ChainsAreWalks(graph, required, start, w);
      ChainsAreWalks(graph, required, w, start);
    }
    forall w | w in component ensures w in nodes {
      NodesKeepMutual(required, nodes, start, w);
    }
    members := SortedNodes(component, le);
  }

  lemma RemoveTwice<T>(all: set<T>, first: set<T>, second: set<T>)
    ensures all - first - second == all - (first + second)
    ensures first <= all && all - first == {} ==> first == all
  {
    assert first <= all ==> all == first + (all - first);
  }

  lemma CyclesGrow<Node(!new)>(before: map<Node, seq<Node>>, after: map<Node, seq<Node>>,
                        components: map<Node, set<Node>>,
                   done: set<Node>, component: set<Node>, members: seq<Node>, le: Order<Node>)
    requires CyclesOf(before, components, done, le)
    requires component <= components.Keys && forall v :: v in component ==> components[v] == component
    requires Lists(members, component, le)
    requires after == if |component| > 1 then before + (map v | v in component :: members) else before
    ensures CyclesOf(after, components, done + component, le)
  {
    forall v | v in after ensures Lists(after[v], components[v], le) {
      if v in component {
        assert after[v] == if |component| > 1 then members else before[v];
      } else {
        assert v in before && after[v] == before[v];
      }
    }
  }

  lemma CyclesEverywhere<Node(!new)>(cycles: map<Node, seq<Node>>, required: Required<Node>, nodes: set<Node>,
                         components: map<Node, set<Node>>, le: Order<Node>)
    requires Endpoints(nodes, required) && components.Keys == nodes && Splits(components)
    requires forall v :: v in nodes ==> components[v] == Component(required, nodes, v)
    requires CyclesOf(cycles, components, nodes, le)
    ensures forall v :: v in cycles <==> HasPartner(required, v)
    ensures forall v :: v in cycles ==> ListsComponent(cycles[v], required, v, le)
    ensures NoSelfRelation(required) ==> forall v :: v in cycles <==> OnCycle(required, v)
  {
    forall v ensures v in cycles <==> HasPartner(required, v) {
      PartnerIffLargeComponent(required, nodes, v);
    }
    forall v | v in cycles ensures ListsComponent(cycles[v], required, v, le) {
      assert Lists(cycles[v], components[v], le);
      forall w | Mutual(required, v, w) ensures w in nodes {
        NodesKeepMutual(required, nodes, v, w);
      }
    }
    if NoSelfRelation(required) {
      forall v ensures v in cycles <==> OnCycle(required, v) {
        CycleIffPartner(required, v);
      }
    }
  }

  lemma PartnerIffLargeComponent<Node(!new)>(required: Required<Node>, nodes: set<Node>, v: Node)
    requires Endpoints(nodes, required)
    ensures HasPartner(required, v) <==> v in nodes && |Component(required, nodes, v)| > 1
  {
    var component := Component(required, nodes, v);
    if HasPartner(required, v) {
      var w :| w != v && Mutual(required, v, w);
      NodesKeepMutual(required, nodes, w, v);
      NodesKeepMutual(required, nodes, v, w);
      assert Chain(required, [v]);
      assert {v, w} <= component && |{v, w}| == 2;
      SubsetCardinality({v, w}, component);
    }
    if v in nodes && |component| > 1 {
      assert component - {v} == {} ==> component <= {v};
      if component - {v} == {} {
        SubsetCardinality(component, {v});
      }
      var w :| w in component - {v};
      assert w != v && Mutual(required, v, w);
    }
  }

  lemma {:induction false} SubsetCardinality<T>(small: set<T>, large: set<T>)
    requires small <= large
    ensures |small| <= |large|
  {
    assert large == small + (large - small);
  }
}
