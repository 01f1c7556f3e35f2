/** Workflow graphs whose nodes may hold a nested graph, and the two searches for a node by id
    (packages/templates/src/verify.ts, apps/api/src/node-testing/prepare-node-validation.ts). */
module WorkflowGraphs {
  import opened Wrappers
  import opened Sequences

  datatype End = End(nodeId: string, port: string)

  datatype Edge = Edge(id: string, source: End, target: End)

  /** `content` is what a node carries besides its id and its structured part. */
  datatype Node<C> = Node(id: string, content: C, structured: Option<Structured<C>>)

  /** A nested graph; `rest` is the loop's own limits. */
  datatype Structured<C> = Structured(body: Graph<C>, rest: string)

  /** `rest` is what a graph holds besides nodes and edges: settings, declarations, ports of a body. */
  datatype Graph<C> = Graph(nodes: seq<Node<C>>, edges: seq<Edge>, rest: string)

  /** Every node of every depth, each before the nodes of its body. */
  function AllNodes<C>(nodes: seq<Node<C>>): seq<Node<C>> {
    if nodes == [] then []
    else
      [nodes[0]] + (if nodes[0].structured.Some? then AllNodes(nodes[0].structured.value.body.nodes) else [])
      + AllNodes(nodes[1..])
  }

  /** The recursive search. */
  function FindNodes<C>(nodes: seq<Node<C>>, id: string): seq<Node<C>> {
    if nodes == [] then []
    else
      (if nodes[0].id == id then [nodes[0]] else [])
      + (if nodes[0].structured.Some? then FindNodes(nodes[0].structured.value.body.nodes, id) else [])
      + FindNodes(nodes[1..], id)
  }

  function WithId<C>(nodes: seq<Node<C>>, id: string): seq<Node<C>> {
    if nodes == [] then [] else (if nodes[0].id == id then [nodes[0]] else []) + WithId(nodes[1..], id)
  }

  lemma {:induction false} WithIdOfBoth<C>(a: seq<Node<C>>, b: seq<Node<C>>, id: string)
    ensures WithId(a + b, id) == WithId(a, id) + WithId(b, id)
  {
    if a == [] {
      assert a + b == b;
    } else {
      WithIdOfBoth(a[1..], b, id);
      TailOfBoth(a, b);
      Regroup(if a[0].id == id then [a[0]] else [], WithId(a[1..], id), WithId(b, id));
    }
  }

  /** The recursive search finds all nodes with the id, at every depth, in order. */
  lemma {:induction false} FindNodesIsFilter<C>(nodes: seq<Node<C>>, id: string)
    ensures FindNodes(nodes, id) == WithId(AllNodes(nodes), id)
  {
    if nodes != [] {
      var first, rest := nodes[0], nodes[1..];
      var below := if first.structured.Some? then AllNodes(first.structured.value.body.nodes) else [];
      if first.structured.Some? {
        FindNodesIsFilter(first.structured.value.body.nodes, id);
      }
      FindNodesIsFilter(rest, id);
      WithIdOfBoth([first] + below, AllNodes(rest), id);
      WithIdOfBoth([first], below, id);
    }
  }

  // ----- The search with an explicit stack -----

  function FindInAll<C>(stack: seq<Graph<C>>, id: string): seq<Node<C>> {
    if stack == [] then [] else FindInAll(stack[..|stack| - 1], id) + FindNodes(stack[|stack| - 1].nodes, id)
  }

  function Weight<C>(nodes: seq<Node<C>>): nat {
    if nodes == [] then 0
    else
      1 + (if nodes[0].structured.Some? then 1 + Weight(nodes[0].structured.value.body.nodes) else 0) + Weight(nodes[1..])
  }

  function StackWeight<C>(stack: seq<Graph<C>>): nat {
    if stack == [] then 0 else StackWeight(stack[..|stack| - 1]) + 1 + Weight(stack[|stack| - 1].nodes)
  }

  function AsSeq<T>(o: Option<T>): seq<T> { if o.Some? then [o.value] else [] }

  lemma Push<C>(stack: seq<Graph<C>>, top: Graph<C>, id: string)
    ensures FindInAll(stack + [top], id) == FindInAll(stack, id) + FindNodes(top.nodes, id)
    ensures StackWeight(stack + [top]) == StackWeight(stack) + 1 + Weight(top.nodes)
  {
    assert (stack + [top])[..|stack|] == stack;
  }

  /** What is found, on the stack and in the rest of the current graph: nothing is lost or doubled. */
  ghost predicate Accounted<C>(all: seq<Node<C>>, found: Option<Node<C>>, stack: seq<Graph<C>>, rest: seq<Node<C>>, id: string) {
    multiset(all) == multiset(AsSeq(found)) + multiset(FindInAll(stack, id)) + multiset(FindNodes(rest, id))
  }

  function Below<C>(node: Node<C>, id: string): seq<Node<C>> {
    if node.structured.Some? then FindNodes(node.structured.value.body.nodes, id) else []
  }

  function Pushed<C>(stack: seq<Graph<C>>, node: Node<C>): seq<Graph<C>> {
    if node.structured.Some? then stack + [node.structured.value.body] else stack
  }

  lemma FindSplits<C>(rest: seq<Node<C>>, id: string)
    requires rest != []
    ensures multiset(FindNodes(rest, id))
         == (if rest[0].id == id then multiset{rest[0]} else multiset{})
            + multiset(Below(rest[0], id)) + multiset(FindNodes(rest[1..], id))
  {
    assert FindNodes(rest, id) == (if rest[0].id == id then [rest[0]] else []) + Below(rest[0], id) + FindNodes(rest[1..], id);
  }

  lemma PushSplits<C>(stack: seq<Graph<C>>, node: Node<C>, id: string)
    ensures multiset(FindInAll(Pushed(stack, node), id)) == multiset(FindInAll(stack, id)) + multiset(Below(node, id))
  {
    if node.structured.Some? {
      Push(stack, node.structured.value.body, id);
    }
  }

  lemma TakeWeight<C>(stack: seq<Graph<C>>, rest: seq<Node<C>>)
    requires rest != []
    ensures StackWeight(Pushed(stack, rest[0])) + Weight(rest[1..]) < StackWeight(stack) + Weight(rest)
  {
    if rest[0].structured.Some? {
      Push(stack, rest[0].structured.value.body, "");
    }
  }

  lemma TakeNode<C>(all: seq<Node<C>>, found: Option<Node<C>>, stack: seq<Graph<C>>, rest: seq<Node<C>>, id: string)
    requires rest != [] && Accounted(all, found, stack, rest, id)
    ensures var node, pushed := rest[0], Pushed(stack, rest[0]);
            && (node.id == id && found.Some? ==> |all| >= 2)
            && (node.id == id && found == None ==> Accounted(all, Some(node), pushed, rest[1..], id))
            && (node.id != id ==> Accounted(all, found, pushed, rest[1..], id))
  {
    hide FindNodes, FindInAll, Below, Pushed;
    FindSplits(rest, id);
    PushSplits(stack, rest[0], id);
    if rest[0].id == id && found.Some? {
      Second(all, found.value, rest[0],
             multiset(FindInAll(stack, id)) + multiset(Below(rest[0], id)) + multiset(FindNodes(rest[1..], id)));
    }
  }

  lemma Second<C>(all: seq<Node<C>>, first: Node<C>, second: Node<C>, others: multiset<Node<C>>)
    requires multiset(all) == multiset{first} + multiset{second} + others
    ensures |all| >= 2
  {
    assert |multiset(all)| == |all|;
  }

  lemma PopGraph<C>(all: seq<Node<C>>, found: Option<Node<C>>, stack: seq<Graph<C>>, id: string)
    requires stack != [] && Accounted(all, found, stack, [], id)
    ensures Accounted(all, found, stack[..|stack| - 1], stack[|stack| - 1].nodes, id)
    ensures StackWeight(stack[..|stack| - 1]) + Weight(stack[|stack| - 1].nodes) < StackWeight(stack)
  {
  }

  lemma AllFound<C>(all: seq<Node<C>>, found: Option<Node<C>>, id: string)
    requires Accounted(all, found, [], [], id)
    ensures all == AsSeq(found)
  {
    assert |multiset(all)| == |all|;
    assert multiset(all) == multiset(AsSeq(found));
    assert found.Some? ==> |multiset(AsSeq(found))| == 1;
    if |all| == 1 {
      assert all == [all[0]];
      assert all[0] in multiset(all);
    }
  }

  /** A node exactly when the recursive search finds exactly one. */
  method FindNode<C>(graph: Graph<C>, nodeId: string) returns (found: Option<Node<C>>)
    ensures var all := FindNodes(graph.nodes, nodeId);
            found == if |all| == 1 then Some(all[0]) else None
  {
    hide Accounted, FindNodes, FindInAll, Weight, StackWeight;
    ghost var all := FindNodes(graph.nodes, nodeId);
    var stack := [graph];
    found := None;
    StartAccounted(graph, nodeId);
    while stack != []
      invariant Accounted(all, found, stack, [], nodeId)
      decreases StackWeight(stack)
    {
      var current := stack[|stack| - 1];
      ghost var before := StackWeight(stack);
      PopGraph(all, found, stack, nodeId);
      stack := stack[..|stack| - 1];
      var i := 0;
      assert current.nodes[0..] == current.nodes;
      while i < |current.nodes|
        invariant i <= |current.nodes|
        invariant Accounted(all, found, stack, current.nodes[i..], nodeId)
        invariant StackWeight(stack) + Weight(current.nodes[i..]) < before
      {
        var node := current.nodes[i];
        TakeNode(all, found, stack, current.nodes[i..], nodeId);
        TakeWeight(stack, current.nodes[i..]);
        assert current.nodes[i..][0] == node && current.nodes[i..][1..] == current.nodes[i + 1..];
        if node.id == nodeId {
          if found.Some? {
            return None;
          }
          found := Some(node);
        }
        if node.structured.Some? {
          stack := stack + [node.structured.value.body];
        }
        i := i + 1;
      }
      assert current.nodes[i..] == [];
    }
    assert stack == [];
    AllFound(all, found, nodeId);
  }

  lemma StartAccounted<C>(graph: Graph<C>, id: string)
    ensures Accounted(FindNodes(graph.nodes, id), None, [graph], [], id)
  {
    assert [graph][..0] == [];
  }
}
