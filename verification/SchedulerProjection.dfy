/** Flattening a nested executable graph for the scheduler
    (packages/workflow-engine/src/operations.ts, projectSchedulerState). */
module SchedulerProjection {
  import opened Wrappers
  import opened Sequences
  import opened WorkflowGraphs

  /** What an executable node carries besides id and structured part. The scheduler is not told
      `rest`: mappings, connections, retry, executor and policies. */
  datatype Step = Step(definition: string, config: string, disabled: bool, sideEffectClass: string, rest: string)

  datatype SchedulerNode = SchedulerNode(
    id: string,
    definition: string,
    config: string,
    control: Option<string>,
    disabled: bool,
    sideEffectClass: string,
    readOnlyAttempts: bool)

  /** An edge without its id. */
  datatype Link = Link(source: End, target: End)

  datatype Body = Body(loopNodeId: string, nodes: seq<SchedulerNode>, edges: seq<Link>)

  datatype SchedulerState = SchedulerState(nodes: seq<SchedulerNode>, edges: seq<Link>, structuredBodies: seq<Body>)

  datatype Settings = Settings(controls: map<string, string>, readOnlyNodeIds: set<string>)

  function Project(node: Node<Step>, x: Settings): SchedulerNode {
    var c := node.content;
    SchedulerNode(node.id, c.definition, c.config,
                  if node.id in x.controls then Some(x.controls[node.id]) else None,
                  c.disabled, c.sideEffectClass, node.id in x.readOnlyNodeIds)
  }

  function ProjectNodes(nodes: seq<Node<Step>>, x: Settings): seq<SchedulerNode> {
    if nodes == [] then [] else [Project(nodes[0], x)] + ProjectNodes(nodes[1..], x)
  }

  function Links(edges: seq<Edge>): seq<Link> {
    if edges == [] then [] else [Link(edges[0].source, edges[0].target)] + Links(edges[1..])
  }

  /** A node's body comes before the bodies inside it, and those before the next node's. */
  function Bodies(nodes: seq<Node<Step>>, x: Settings): seq<Body> {
    if nodes == [] then []
    else
      (if nodes[0].structured.Some? then
         var g := nodes[0].structured.value.body;
         [Body(nodes[0].id, ProjectNodes(g.nodes, x), Links(g.edges))] + Bodies(g.nodes, x)
       else [])
      + Bodies(nodes[1..], x)
  }

  function ProjectSchedulerState(graph: Graph<Step>, x: Settings): SchedulerState {
    SchedulerState(ProjectNodes(graph.nodes, x), Links(graph.edges), Bodies(graph.nodes, x))
  }

  function Below<C>(node: Node<C>): seq<Node<C>> {
    if node.structured.Some? then node.structured.value.body.nodes else []
  }

  // ----- What the scheduler is told -----

  /** The scheduler's node says this of the graph's node. */
  predicate Describes(n: SchedulerNode, node: Node<Step>, x: Settings) {
    && n.id == node.id
    && n.definition == node.content.definition && n.config == node.content.config
    && n.disabled == node.content.disabled && n.sideEffectClass == node.content.sideEffectClass
    && (n.control.Some? <==> node.id in x.controls)
    && (n.control.Some? ==> n.control.value == x.controls[node.id])
    && (n.readOnlyAttempts <==> node.id in x.readOnlyNodeIds)
  }

  /** The scheduler's nodes and edges are those of the graph, each in its place. */
  predicate Mirrors(nodes: seq<SchedulerNode>, links: seq<Link>, graph: Graph<Step>, x: Settings) {
    && |nodes| == |graph.nodes| && (forall i :: 0 <= i < |nodes| ==> Describes(nodes[i], graph.nodes[i], x))
    && |links| == |graph.edges|
    && (forall i :: 0 <= i < |links| ==> links[i].source == graph.edges[i].source && links[i].target == graph.edges[i].target)
  }

  /** The nodes that have a body. */
  function WithBody<C>(nodes: seq<Node<C>>): (r: seq<Node<C>>)
    ensures forall i :: 0 <= i < |r| ==> r[i].structured.Some?
  {
    if nodes == [] then [] else (if nodes[0].structured.Some? then [nodes[0]] else []) + WithBody(nodes[1..])
  }

  lemma {:induction false} WithBodyOfBoth<C>(a: seq<Node<C>>, b: seq<Node<C>>)
    ensures WithBody(a + b) == WithBody(a) + WithBody(b)
    decreases |a|
  {
    if a == [] {
      assert a + b == b;
    } else {
      WithBodyOfBoth(a[1..], b);
      TailOfBoth(a, b);
      Regroup(if a[0].structured.Some? then [a[0]] else [], WithBody(a[1..]), WithBody(b));
    }
  }

  /** The k-th body belongs to the k-th node and mirrors its nested graph. */
  ghost predicate BodiesMirror(bodies: seq<Body>, loops: seq<Node<Step>>, x: Settings) {
    && |bodies| == |loops|
    && (forall k :: 0 <= k < |bodies| ==>
          && loops[k].structured.Some? && bodies[k].loopNodeId == loops[k].id
          && Mirrors(bodies[k].nodes, bodies[k].edges, loops[k].structured.value.body, x))
  }

  lemma {:induction false} NodesAreDescribed(nodes: seq<Node<Step>>, x: Settings)
    ensures |ProjectNodes(nodes, x)| == |nodes|
    ensures forall i :: 0 <= i < |nodes| ==> Describes(ProjectNodes(nodes, x)[i], nodes[i], x)
  {
    if nodes != [] {
      NodesAreDescribed(nodes[1..], x);
    }
  }

  lemma {:induction false} EdgesAreKept(edges: seq<Edge>)
    ensures |Links(edges)| == |edges|
    ensures forall i :: 0 <= i < |edges| ==> Links(edges)[i].source == edges[i].source && Links(edges)[i].target == edges[i].target
  {
    if edges != [] {
      EdgesAreKept(edges[1..]);
    }
  }

  lemma GraphIsMirrored(graph: Graph<Step>, x: Settings)
    ensures Mirrors(ProjectNodes(graph.nodes, x), Links(graph.edges), graph, x)
  {
    NodesAreDescribed(graph.nodes, x);
    EdgesAreKept(graph.edges);
  }

  lemma MirrorBoth(a: seq<Body>, b: seq<Body>, p: seq<Node<Step>>, q: seq<Node<Step>>, x: Settings)
    requires BodiesMirror(a, p, x) && BodiesMirror(b, q, x)
    ensures BodiesMirror(a + b, p + q, x)
  {
    hide Mirrors;
  }

  lemma MirrorOne(node: Node<Step>, x: Settings)
    requires node.structured.Some?
    ensures var g := node.structured.value.body;
            BodiesMirror([Body(node.id, ProjectNodes(g.nodes, x), Links(g.edges))], [node], x)
  {
    GraphIsMirrored(node.structured.value.body, x);
  }

  lemma {:induction false} BodiesAreMirrored(nodes: seq<Node<Step>>, x: Settings)
    ensures BodiesMirror(Bodies(nodes, x), WithBody(AllNodes(nodes)), x)
  {
    if nodes != [] {
      var first, rest := nodes[0], nodes[1..];
      var below := AllNodes(Below(first));
      BodiesAreMirrored(rest, x);
      WithBodyOfBoth([first] + below, AllNodes(rest));
      WithBodyOfBoth([first], below);
      assert WithBody([first]) == if first.structured.Some? then [first] else [];
      var bodies: seq<Body> := [];
      if first.structured.Some? {
        var g := first.structured.value.body;
        BodiesAreMirrored(g.nodes, x);
        MirrorOne(first, x);
        bodies := [Body(first.id, ProjectNodes(g.nodes, x), Links(g.edges))] + Bodies(g.nodes, x);
        MirrorBoth([bodies[0]], Bodies(g.nodes, x), [first], WithBody(below), x);
      }
      hide BodiesMirror, WithBody;
      MirrorBoth(bodies, Bodies(rest, x), WithBody([first] + below), WithBody(AllNodes(rest)), x);
    }
  }

  /** The projection of a graph, field by field: its own nodes and edges each in its place, and for
      every node of every depth that has a body, that body's nodes and edges under the node's id. */
  lemma ProjectionMirrors(graph: Graph<Step>, x: Settings)
    ensures var s := ProjectSchedulerState(graph, x);
            && Mirrors(s.nodes, s.edges, graph, x)
            && BodiesMirror(s.structuredBodies, WithBody(AllNodes(graph.nodes)), x)
  {
    GraphIsMirrored(graph, x);
    BodiesAreMirrored(graph.nodes, x);
  }

  // ----- What the scheduler is not told -----

  function EraseEdges(edges: seq<Edge>): seq<Edge> {
    if edges == [] then [] else [edges[0].(id := "")] + EraseEdges(edges[1..])
  }

  /** The nodes without everything that the projection leaves out, where they stand. */
  function EraseNodes(nodes: seq<Node<Step>>): seq<Node<Step>> {
    if nodes == [] then []
    else
      [Node(nodes[0].id, nodes[0].content.(rest := ""),
            if nodes[0].structured.Some? then
              Some(Structured(Graph(EraseNodes(nodes[0].structured.value.body.nodes),
                                    EraseEdges(nodes[0].structured.value.body.edges), ""), ""))
            else None)]
      + EraseNodes(nodes[1..])
  }

  function Erase(graph: Graph<Step>): Graph<Step> { Graph(EraseNodes(graph.nodes), EraseEdges(graph.edges), "") }

  lemma {:induction false} LinksOfErased(edges: seq<Edge>)
    ensures Links(EraseEdges(edges)) == Links(edges)
  {
    if edges != [] {
      LinksOfErased(edges[1..]);
    }
  }

  lemma {:induction false} LinksDetermine(a: seq<Edge>, b: seq<Edge>)
    requires Links(a) == Links(b)
    ensures EraseEdges(a) == EraseEdges(b)
    decreases |a|
  {
    if a != [] && b != [] {
      assert Links(a)[0] == Links(b)[0] && Links(a)[1..] == Links(a[1..]) && Links(b)[1..] == Links(b[1..]);
      LinksDetermine(a[1..], b[1..]);
    }
  }

  lemma {:induction false} ProjectionOfErased(nodes: seq<Node<Step>>, x: Settings)
    ensures ProjectNodes(EraseNodes(nodes), x) == ProjectNodes(nodes, x)
    ensures Bodies(EraseNodes(nodes), x) == Bodies(nodes, x)
  {
    if nodes != [] {
      var first, others := nodes[0], nodes[1..];
      ProjectionOfErased(others, x);
      assert EraseNodes(nodes)[1..] == EraseNodes(others);
      if first.structured.Some? {
        ProjectionOfErased(first.structured.value.body.nodes, x);
        LinksOfErased(first.structured.value.body.edges);
      }
    }
  }

  // ----- Rebuilding -----

  /** A projected node where it stood, with its body. */
  datatype Part = Part(node: SchedulerNode, body: Option<Flow>)

  datatype Flow = Flow(parts: seq<Part>, edges: seq<Link>)

  function Nested(nodes: seq<Node<Step>>, x: Settings): seq<Part> {
    if nodes == [] then []
    else
      [Part(Project(nodes[0], x),
            if nodes[0].structured.Some? then
              Some(Flow(Nested(nodes[0].structured.value.body.nodes, x), Links(nodes[0].structured.value.body.edges)))
            else None)]
      + Nested(nodes[1..], x)
  }

  /** The nodes with their bodies put back, and the bodies left over. */
  function Rebuild(nodes: seq<SchedulerNode>, bodies: seq<Body>): (r: (seq<Part>, seq<Body>))
    ensures |r.1| <= |bodies|
    decreases |bodies|, |nodes|
  {
    if nodes == [] then ([], bodies)
    else if bodies != [] && bodies[0].loopNodeId == nodes[0].id then
      var inner := Rebuild(bodies[0].nodes, bodies[1..]);
      var others := Rebuild(nodes[1..], inner.1);
      ([Part(nodes[0], Some(Flow(inner.0, bodies[0].edges)))] + others.0, others.1)
    else
      var others := Rebuild(nodes[1..], bodies);
      ([Part(nodes[0], None)] + others.0, others.1)
  }

  lemma {:induction false} RebuildBody(n: SchedulerNode, nodes: seq<SchedulerNode>, body: Body, bodies: seq<Body>)
    requires body.loopNodeId == n.id
    ensures var inner := Rebuild(body.nodes, bodies);
            var others := Rebuild(nodes, inner.1);
            Rebuild([n] + nodes, [body] + bodies) == ([Part(n, Some(Flow(inner.0, body.edges)))] + others.0, others.1)
  {
    assert ([n] + nodes)[1..] == nodes && ([body] + bodies)[1..] == bodies;
  }

  lemma {:induction false} RebuildBare(n: SchedulerNode, nodes: seq<SchedulerNode>, bodies: seq<Body>)
    requires bodies != [] ==> bodies[0].loopNodeId != n.id
    ensures var others := Rebuild(nodes, bodies);
            Rebuild([n] + nodes, bodies) == ([Part(n, None)] + others.0, others.1)
  {
    assert ([n] + nodes)[1..] == nodes;
  }

  lemma RebuildNothing(rest: seq<Body>)
    ensures Rebuild([], rest) == ([], rest)
  {
  }

  // ----- When the nesting is kept -----

  /** The id of the first node with a body; `after` where there is none. */
  function NextStructured<C>(nodes: seq<Node<C>>, after: Option<string>): Option<string> {
    if nodes == [] then after
    else if nodes[0].structured.Some? then Some(nodes[0].id)
    else NextStructured(nodes[1..], after)
  }

  /** No node without a body has the id of the next node that has one. */
  predicate Clear<C>(nodes: seq<Node<C>>, after: Option<string>) {
    nodes == []
    || ((nodes[0].structured == None ==> NextStructured(nodes[1..], after) != Some(nodes[0].id)) && Clear(nodes[1..], after))
  }

  lemma {:induction false} NextOfBoth<C>(a: seq<Node<C>>, b: seq<Node<C>>, after: Option<string>)
    ensures NextStructured(a + b, after) == NextStructured(a, NextStructured(b, after))
  {
    if a == [] {
      assert a + b == b;
    } else {
      TailOfBoth(a, b);
      NextOfBoth(a[1..], b, after);
    }
  }

  lemma {:induction false} ClearOfBoth<C>(a: seq<Node<C>>, b: seq<Node<C>>, after: Option<string>)
    ensures Clear(a + b, after) <==> Clear(a, NextStructured(b, after)) && Clear(b, after)
  {
    if a == [] {
      assert a + b == b;
    } else {
      TailOfBoth(a, b);
      ClearOfBoth(a[1..], b, after);
      NextOfBoth(a[1..], b, after);
    }
  }

  function FirstId(bodies: seq<Body>): Option<string> { if bodies == [] then None else Some(bodies[0].loopNodeId) }

  lemma {:induction false} FirstBody(nodes: seq<Node<Step>>, x: Settings, rest: seq<Body>)
    ensures FirstId(Bodies(nodes, x) + rest) == NextStructured(AllNodes(nodes), FirstId(rest))
  {
    if nodes == [] {
      assert Bodies(nodes, x) + rest == rest;
    } else if nodes[0].structured == None {
      FirstBody(nodes[1..], x, rest);
      BareInFront(nodes, x);
      hide Bodies, AllNodes;
      assert ([nodes[0]] + AllNodes(nodes[1..]))[1..] == AllNodes(nodes[1..]);
    } else {
      BodyInFront(nodes, x);
      hide Bodies, AllNodes;
    }
  }

  lemma BareInFront(nodes: seq<Node<Step>>, x: Settings)
    requires nodes != [] && nodes[0].structured == None
    ensures Bodies(nodes, x) == Bodies(nodes[1..], x)
    ensures AllNodes(nodes) == [nodes[0]] + AllNodes(nodes[1..])
  {
    assert Bodies(nodes, x) == [] + Bodies(nodes[1..], x);
    assert AllNodes(nodes) == [nodes[0]] + [] + AllNodes(nodes[1..]);
  }

  lemma BodyInFront(nodes: seq<Node<Step>>, x: Settings)
    requires nodes != [] && nodes[0].structured.Some?
    ensures Bodies(nodes, x) != [] && Bodies(nodes, x)[0].loopNodeId == nodes[0].id
    ensures AllNodes(nodes) != [] && AllNodes(nodes)[0] == nodes[0]
  {
  }

  lemma ClearSplits(nodes: seq<Node<Step>>, x: Settings, rest: seq<Body>)
    requires nodes != []
    ensures var tail := Bodies(nodes[1..], x) + rest;
            Clear(AllNodes(nodes), FirstId(rest)) <==>
              && (nodes[0].structured == None ==> FirstId(tail) != Some(nodes[0].id))
              && Clear(AllNodes(Below(nodes[0])), FirstId(tail))
              && Clear(AllNodes(nodes[1..]), FirstId(rest))
  {
    var first, below, others := nodes[0], AllNodes(Below(nodes[0])), AllNodes(nodes[1..]);
    assert AllNodes(nodes) == [first] + below + others;
    assert first.structured == None ==> below == [];
    hide AllNodes;
    FirstBody(nodes[1..], x, rest);
    ClearOfBoth([first] + below, others, FirstId(rest));
    TailOfBoth([first], below);
    assert [first][1..] == [];
  }

  /** How many bodies the parts hold, at every depth. */
  function BodyCount(parts: seq<Part>): nat {
    if parts == [] then 0
    else PartBodies(parts[0]) + BodyCount(parts[1..])
  }

  function PartBodies(part: Part): nat {
    match part.body
    case None => 0
    case Some(flow) => 1 + BodyCount(flow.parts)
  }

  lemma {:induction false} RebuildConsumes(nodes: seq<SchedulerNode>, bodies: seq<Body>)
    ensures var r := Rebuild(nodes, bodies);
            |r.1| + BodyCount(r.0) == |bodies| && r.1 == bodies[|bodies| - |r.1|..]
    decreases |bodies|, |nodes|
  {
    if nodes != [] {
      if bodies != [] && bodies[0].loopNodeId == nodes[0].id {
        RebuildConsumes(bodies[0].nodes, bodies[1..]);
        RebuildConsumes(nodes[1..], Rebuild(bodies[0].nodes, bodies[1..]).1);
      } else {
        RebuildConsumes(nodes[1..], bodies);
      }
    }
  }

  lemma {:induction false} NestedCount(nodes: seq<Node<Step>>, x: Settings)
    ensures BodyCount(Nested(nodes, x)) == |Bodies(nodes, x)|
  {
    if nodes != [] {
      NestedCount(nodes[1..], x);
      assert Nested(nodes, x)[1..] == Nested(nodes[1..], x);
      if nodes[0].structured.Some? {
        NestedCount(nodes[0].structured.value.body.nodes, x);
      }
    }
  }

  /** Who gets the nesting back has used up exactly these nodes' bodies. */
  lemma RebuiltLeavesRest(nodes: seq<Node<Step>>, x: Settings, rest: seq<Body>)
    requires Rebuild(ProjectNodes(nodes, x), Bodies(nodes, x) + rest).0 == Nested(nodes, x)
    ensures Rebuild(ProjectNodes(nodes, x), Bodies(nodes, x) + rest).1 == rest
  {
    hide Rebuild, Nested, Bodies, BodyCount;
    var all := Bodies(nodes, x) + rest;
    RebuildConsumes(ProjectNodes(nodes, x), all);
    NestedCount(nodes, x);
    assert all[|Bodies(nodes, x)|..] == rest;
  }

  /** Bodies are put back where they were if and only if no bare node has the next owner's id. */
  lemma {:induction false} RebuiltExactlyWhen(nodes: seq<Node<Step>>, x: Settings, rest: seq<Body>)
    ensures Rebuild(ProjectNodes(nodes, x), Bodies(nodes, x) + rest).0 == Nested(nodes, x)
            <==> Clear(AllNodes(nodes), FirstId(rest))
  {
    hide Rebuild, Clear;
    if nodes == [] {
      assert Bodies(nodes, x) + rest == rest;
      RebuildNothing(rest);
      NothingIsClear<Step>(FirstId(rest));
    } else {
      ClearSplits(nodes, x, rest);
      RebuiltExactlyWhen(nodes[1..], x, rest);
      if nodes[0].structured.Some? {
        RebuiltExactlyWhen(nodes[0].structured.value.body.nodes, x, Bodies(nodes[1..], x) + rest);
        RebuiltWithBody(nodes, x, rest);
      } else {
        NothingIsClear<Step>(FirstId(Bodies(nodes[1..], x) + rest));
        RebuiltBare(nodes, x, rest);
      }
    }
  }

  lemma NothingIsClear<C>(after: Option<string>)
    ensures Clear<C>([], after) && AllNodes<C>([]) == []
  {
  }

  lemma RebuiltWithBody(nodes: seq<Node<Step>>, x: Settings, rest: seq<Body>)
    requires nodes != [] && nodes[0].structured.Some?
    ensures var g, tail := nodes[0].structured.value.body, Bodies(nodes[1..], x) + rest;
            Rebuild(ProjectNodes(nodes, x), Bodies(nodes, x) + rest).0 == Nested(nodes, x) <==>
              && Rebuild(ProjectNodes(g.nodes, x), Bodies(g.nodes, x) + tail).0 == Nested(g.nodes, x)
              && Rebuild(ProjectNodes(nodes[1..], x), tail).0 == Nested(nodes[1..], x)
  {
    var first, g, tail := nodes[0], nodes[0].structured.value.body, Bodies(nodes[1..], x) + rest;
    var body := Body(first.id, ProjectNodes(g.nodes, x), Links(g.edges));
    assert Bodies(nodes, x) + rest == [body] + (Bodies(g.nodes, x) + tail);
    RebuildBody(Project(first, x), ProjectNodes(nodes[1..], x), body, Bodies(g.nodes, x) + tail);
    var inner := Rebuild(ProjectNodes(g.nodes, x), Bodies(g.nodes, x) + tail);
    var others := Rebuild(ProjectNodes(nodes[1..], x), inner.1);
    if inner.0 == Nested(g.nodes, x) {
      RebuiltLeavesRest(g.nodes, x, tail);
    }
    hide Rebuild;
    SameLists(Part(Project(first, x), Some(Flow(inner.0, Links(g.edges)))), others.0,
              Part(Project(first, x), Some(Flow(Nested(g.nodes, x), Links(g.edges)))), Nested(nodes[1..], x));
  }

  lemma RebuiltBare(nodes: seq<Node<Step>>, x: Settings, rest: seq<Body>)
    requires nodes != [] && nodes[0].structured == None
    ensures var tail := Bodies(nodes[1..], x) + rest;
            Rebuild(ProjectNodes(nodes, x), Bodies(nodes, x) + rest).0 == Nested(nodes, x) <==>
              FirstId(tail) != Some(nodes[0].id) && Rebuild(ProjectNodes(nodes[1..], x), tail).0 == Nested(nodes[1..], x)
  {
    var first, tail := nodes[0], Bodies(nodes[1..], x) + rest;
    assert Bodies(nodes, x) + rest == tail;
    if FirstId(tail) != Some(first.id) {
      RebuildBare(Project(first, x), ProjectNodes(nodes[1..], x), tail);
      SameLists(Part(Project(first, x), None), Rebuild(ProjectNodes(nodes[1..], x), tail).0,
                Part(Project(first, x), None), Nested(nodes[1..], x));
    } else {
      RebuildBody(Project(first, x), ProjectNodes(nodes[1..], x), tail[0], tail[1..]);
      assert tail == [tail[0]] + tail[1..];
    }
  }

  lemma SameLists(a: Part, more: seq<Part>, b: Part, others: seq<Part>)
    ensures [a] + more == [b] + others <==> a == b && more == others
  {
    if [a] + more == [b] + others {
      assert ([a] + more)[0] == a && ([a] + more)[1..] == more;
      assert ([b] + others)[0] == b && ([b] + others)[1..] == others;
    }
  }

  /** The nesting of the whole graph, of any depth, is rebuilt exactly under that condition. */
  lemma NestingIsRebuiltExactlyWhen(graph: Graph<Step>, x: Settings)
    ensures var s := ProjectSchedulerState(graph, x);
            Rebuild(s.nodes, s.structuredBodies) == (Nested(graph.nodes, x), []) <==> Clear(AllNodes(graph.nodes), None)
  {
    hide Rebuild, Clear, Nested, Bodies;
    RebuiltExactlyWhen(graph.nodes, x, []);
    assert Bodies(graph.nodes, x) + [] == Bodies(graph.nodes, x);
    if Rebuild(ProjectNodes(graph.nodes, x), Bodies(graph.nodes, x)).0 == Nested(graph.nodes, x) {
      RebuiltLeavesRest(graph.nodes, x, []);
    }
  }

  ghost predicate Distinct<C>(nodes: seq<Node<C>>) { forall i, j :: 0 <= i < j < |nodes| ==> nodes[i].id != nodes[j].id }

  lemma {:induction false} NextIsInside<C>(nodes: seq<Node<C>>, after: Option<string>)
    ensures NextStructured(nodes, after) == after || exists i :: 0 <= i < |nodes| && NextStructured(nodes, after) == Some(nodes[i].id)
  {
    if nodes != [] && nodes[0].structured == None {
      NextIsInside(nodes[1..], after);
      if i :| 0 <= i < |nodes[1..]| && NextStructured(nodes[1..], after) == Some(nodes[1..][i].id) {
        assert nodes[i + 1] == nodes[1..][i];
      }
    }
  }

  /** Graph validation refuses an id that occurs twice at any depth, and that is more than enough. */
  lemma {:induction false} DistinctIsClear<C>(nodes: seq<Node<C>>)
    requires Distinct(nodes)
    ensures Clear(nodes, None)
  {
    if nodes != [] {
      DistinctIsClear(nodes[1..]);
      NextIsInside(nodes[1..], None);
      assert forall i :: 0 <= i < |nodes[1..]| ==> nodes[1..][i] == nodes[i + 1];
    }
  }

  lemma {:induction false} NestedDetermines(a: seq<Node<Step>>, b: seq<Node<Step>>, x: Settings)
    requires Nested(a, x) == Nested(b, x)
    ensures EraseNodes(a) == EraseNodes(b)
  {
    if a != [] && b != [] {
      var n, m := a[0], b[0];
      assert Nested(a, x)[0] == Nested(b, x)[0];
      assert Nested(a, x)[1..] == Nested(a[1..], x) && Nested(b, x)[1..] == Nested(b[1..], x);
      NestedDetermines(a[1..], b[1..], x);
      if n.structured.Some? {
        NestedDetermines(n.structured.value.body.nodes, m.structured.value.body.nodes, x);
        LinksDetermine(n.structured.value.body.edges, m.structured.value.body.edges);
      }
      assert EraseNodes(a)[0] == EraseNodes(b)[0];
    }
  }

  /** Two graphs in which every body can be put back project alike if and only if they differ in
      nothing but what the scheduler is not told. */
  lemma ProjectionIsExact(g: Graph<Step>, h: Graph<Step>, x: Settings)
    requires Clear(AllNodes(g.nodes), None) && Clear(AllNodes(h.nodes), None)
    ensures ProjectSchedulerState(g, x) == ProjectSchedulerState(h, x) <==> Erase(g) == Erase(h)
  {
    hide Clear, Rebuild, Nested, AllNodes;
    if ProjectSchedulerState(g, x) == ProjectSchedulerState(h, x) {
      NestingIsRebuiltExactlyWhen(g, x);
      NestingIsRebuiltExactlyWhen(h, x);
      NestedDetermines(g.nodes, h.nodes, x);
      LinksDetermine(g.edges, h.edges);
    }
    if Erase(g) == Erase(h) {
      ProjectionOfErased(g.nodes, x);
      ProjectionOfErased(h.nodes, x);
      LinksOfErased(g.edges);
      LinksOfErased(h.edges);
    }
  }

  lemma ProjectionIsExactForDistinctIds(g: Graph<Step>, h: Graph<Step>, x: Settings)
    requires Distinct(AllNodes(g.nodes)) && Distinct(AllNodes(h.nodes))
    ensures ProjectSchedulerState(g, x) == ProjectSchedulerState(h, x) <==> Erase(g) == Erase(h)
  {
    DistinctIsClear(AllNodes(g.nodes));
    DistinctIsClear(AllNodes(h.nodes));
    ProjectionIsExact(g, h, x);
  }

  lemma ProjectTwo(a: Node<Step>, b: Node<Step>, x: Settings)
    ensures ProjectNodes([a, b], x) == [Project(a, x), Project(b, x)]
    ensures Bodies([a, b], x) == Bodies([a], x) + Bodies([b], x)
  {
    assert [a, b][1..] == [b] && [a][1..] == [] && [b][1..] == [];
    assert ProjectNodes([b], x) == [Project(b, x)] + ProjectNodes([], x);
    assert ProjectNodes([a, b], x) == [Project(a, x)] + ProjectNodes([b], x);
  }

  /** What the condition excludes, and validation never lets through: a bare node with the id of the
      next owner of a body makes two graphs project alike. */
  lemma SharedIdsLoseTheNesting(id: string, content: Step, body: Structured<Step>, x: Settings)
    ensures var bare, nested := Node(id, content, None), Node(id, content, Some(body));
            var g, h := Graph([bare, nested], [], ""), Graph([nested, bare], [], "");
            Erase(g) != Erase(h) && ProjectSchedulerState(g, x) == ProjectSchedulerState(h, x)
  {
    var bare, nested := Node(id, content, None), Node(id, content, Some(body));
    ProjectTwo(bare, nested, x);
    ProjectTwo(nested, bare, x);
    assert Bodies([bare], x) == [];
    assert EraseNodes([bare, nested])[0] != EraseNodes([nested, bare])[0];
  }

  // ----- Each node and body once -----

  function NodesOf(bodies: seq<Body>): seq<SchedulerNode> {
    if bodies == [] then [] else bodies[0].nodes + NodesOf(bodies[1..])
  }

  function LoopIds(bodies: seq<Body>): seq<string> {
    if bodies == [] then [] else [bodies[0].loopNodeId] + LoopIds(bodies[1..])
  }

  /** The ids of the nodes that have a body, at every depth, in order. */
  function StructuredIds<C>(nodes: seq<Node<C>>): seq<string> {
    if nodes == [] then [] else (if nodes[0].structured.Some? then [nodes[0].id] else []) + StructuredIds(nodes[1..])
  }

  lemma {:induction false} NodesOfBoth(a: seq<Body>, b: seq<Body>)
    ensures NodesOf(a + b) == NodesOf(a) + NodesOf(b)
  {
    if a == [] {
      assert a + b == b;
    } else {
      NodesOfBoth(a[1..], b);
      TailOfBoth(a, b);
      Regroup(a[0].nodes, NodesOf(a[1..]), NodesOf(b));
    }
  }

  lemma {:induction false} LoopIdsOfBoth(a: seq<Body>, b: seq<Body>)
    ensures LoopIds(a + b) == LoopIds(a) + LoopIds(b)
  {
    if a == [] {
      assert a + b == b;
    } else {
      LoopIdsOfBoth(a[1..], b);
      TailOfBoth(a, b);
      Regroup([a[0].loopNodeId], LoopIds(a[1..]), LoopIds(b));
    }
  }

  lemma {:induction false} ProjectBoth(a: seq<Node<Step>>, b: seq<Node<Step>>, x: Settings)
    ensures ProjectNodes(a + b, x) == ProjectNodes(a, x) + ProjectNodes(b, x)
  {
    if a == [] {
      assert a + b == b;
    } else {
      ProjectBoth(a[1..], b, x);
      TailOfBoth(a, b);
      Regroup([Project(a[0], x)], ProjectNodes(a[1..], x), ProjectNodes(b, x));
    }
  }

  lemma {:induction false} StructuredOfBoth(a: seq<Node<Step>>, b: seq<Node<Step>>)
    ensures StructuredIds(a + b) == StructuredIds(a) + StructuredIds(b)
  {
    if a == [] {
      assert a + b == b;
    } else {
      StructuredOfBoth(a[1..], b);
      TailOfBoth(a, b);
      Regroup(if a[0].structured.Some? then [a[0].id] else [], StructuredIds(a[1..]), StructuredIds(b));
    }
  }

  lemma ProjectAllSplit(nodes: seq<Node<Step>>, x: Settings)
    requires nodes != []
    ensures multiset(ProjectNodes(nodes, x)) == multiset{Project(nodes[0], x)} + multiset(ProjectNodes(nodes[1..], x))
    ensures multiset(ProjectNodes(AllNodes(nodes), x))
         == multiset{Project(nodes[0], x)} + multiset(ProjectNodes(AllNodes(Below(nodes[0])), x))
            + multiset(ProjectNodes(AllNodes(nodes[1..]), x))
  {
    var first, below, others := nodes[0], AllNodes(Below(nodes[0])), AllNodes(nodes[1..]);
    assert AllNodes(nodes) == [first] + below + others;
    hide AllNodes;
    ProjectBoth([first], below, x);
    ProjectBoth([first] + below, others, x);
    assert ProjectNodes([first], x) == [Project(first, x)];
  }

  /** The state lists every node of every depth exactly once, projected. */
  lemma {:induction false} EachNodeOnce(nodes: seq<Node<Step>>, x: Settings)
    ensures multiset(ProjectNodes(nodes, x)) + multiset(NodesOf(Bodies(nodes, x)))
         == multiset(ProjectNodes(AllNodes(nodes), x))
  {
    if nodes != [] {
      hide ProjectNodes, NodesOf, Bodies, AllNodes, Project;
      var below, others := Below(nodes[0]), nodes[1..];
      EachNodeOnce(others, x);
      if nodes[0].structured.Some? {
        EachNodeOnce(nodes[0].structured.value.body.nodes, x);
      } else {
        NothingBelow(x);
      }
      ProjectAllSplit(nodes, x);
      BodiesSplit(nodes, x);
      Sum(multiset{Project(nodes[0], x)},
          multiset(ProjectNodes(below, x)), multiset(NodesOf(Bodies(below, x))), multiset(ProjectNodes(AllNodes(below), x)),
          multiset(ProjectNodes(others, x)), multiset(NodesOf(Bodies(others, x))), multiset(ProjectNodes(AllNodes(others), x)));
    }
  }

  lemma Sum<T>(p: multiset<T>, a: multiset<T>, b: multiset<T>, ab: multiset<T>, c: multiset<T>, d: multiset<T>, cd: multiset<T>)
    requires a + b == ab && c + d == cd
    ensures (p + c) + (a + b + d) == p + ab + cd
  {
  }

  lemma NothingBelow(x: Settings)
    ensures ProjectNodes([], x) == [] && NodesOf(Bodies([], x)) == [] && AllNodes<Step>([]) == []
  {
  }

  lemma BodiesSplit(nodes: seq<Node<Step>>, x: Settings)
    requires nodes != []
    ensures multiset(NodesOf(Bodies(nodes, x)))
         == multiset(ProjectNodes(Below(nodes[0]), x))
            + multiset(NodesOf(Bodies(Below(nodes[0]), x))) + multiset(NodesOf(Bodies(nodes[1..], x)))
  {
    var first, rest := nodes[0], Bodies(nodes[1..], x);
    if first.structured.Some? {
      var g := first.structured.value.body;
      var body := Body(first.id, ProjectNodes(g.nodes, x), Links(g.edges));
      assert ([body] + Bodies(g.nodes, x))[1..] == Bodies(g.nodes, x);
      NodesOfBoth([body] + Bodies(g.nodes, x), rest);
    } else {
      assert Bodies(nodes, x) == rest;
    }
  }

  lemma LoopIdsSplit(nodes: seq<Node<Step>>, x: Settings)
    requires nodes != []
    ensures LoopIds(Bodies(nodes, x))
         == (if nodes[0].structured.Some? then [nodes[0].id] else [])
            + LoopIds(Bodies(Below(nodes[0]), x)) + LoopIds(Bodies(nodes[1..], x))
  {
    var first, rest := nodes[0], Bodies(nodes[1..], x);
    if first.structured.Some? {
      var g := first.structured.value.body;
      var body := Body(first.id, ProjectNodes(g.nodes, x), Links(g.edges));
      assert ([body] + Bodies(g.nodes, x))[1..] == Bodies(g.nodes, x);
      LoopIdsOfBoth([body] + Bodies(g.nodes, x), rest);
    } else {
      assert Bodies(nodes, x) == rest;
    }
  }

  /** One body for each node that has one, under that node's id, outer before inner. */
  lemma {:induction false} EachBodyOnce(nodes: seq<Node<Step>>, x: Settings)
    ensures LoopIds(Bodies(nodes, x)) == StructuredIds(AllNodes(nodes))
  {
    if nodes != [] {
      var first, others := nodes[0], nodes[1..];
      var below := AllNodes(Below(first));
      EachBodyOnce(others, x);
      if first.structured.Some? {
        EachBodyOnce(first.structured.value.body.nodes, x);
      }
      LoopIdsSplit(nodes, x);
      StructuredOfBoth([first], below);
      StructuredOfBoth([first] + below, AllNodes(others));
      assert StructuredIds([first]) == if first.structured.Some? then [first.id] else [];
    }
  }
}
