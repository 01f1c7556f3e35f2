/** Verifying a manifest against a reviewed template (packages/templates/src/verify.ts). */
module Templates {
  import opened Wrappers
  import opened WorkflowGraphs

  /** A JSON value; `json` is the canonical text of anything that is not a string. */
  datatype Value = Str(text: string) | Other(json: string)

  /** An input mapping; `rest` is what a literal mapping holds besides its value. */
  datatype Mapping = Literal(value: Value, rest: string) | Expression(json: string)

  /** What a node of a portable manifest carries; `rest` is all that is neither config nor inputs. */
  datatype Content = Content(config: map<string, Value>, inputMappings: map<string, Mapping>, rest: string)

  datatype Manifest = Manifest(graph: Graph<Content>, rest: string)

  datatype ValueKind = HttpsEndpoint | SlackChannelId

  datatype Location = Config | LiteralInput

  datatype Target = Target(nodeId: string, location: Location, key: string, valueKind: ValueKind)

  datatype Origin = Origin(templateId: string, templateVersion: int, baseManifestDigest: string)

  datatype Template = Template(origin: Origin, manifest: Manifest, setupTargets: seq<Target>)

  datatype Verdict =
    | OriginInvalid
    | OriginUnknown
    | ManifestInvalid
    | SetupInvalid
    | ManifestMismatch
    | Verified(descriptor: Template, manifest: Manifest)

  // ----- Setup values -----

  predicate Upper(c: char) { 'A' <= c <= 'Z' }

  predicate UpperOrDigit(c: char) { Upper(c) || '0' <= c <= '9' }

  /** The endpoint syntax is a parameter. */
  predicate ValidSetup(kind: ValueKind, value: Value, isHttpsEndpoint: string -> bool) {
    match value
    case Other(_) => false
    case Str(s) =>
      match kind
      case SlackChannelId =>
        2 <= |s| <= 128 && (s[0] == 'C' || s[0] == 'D' || s[0] == 'G' || s[0] == 'U')
        && forall i :: 1 <= i < |s| ==> UpperOrDigit(s[i])
      case HttpsEndpoint => isHttpsEndpoint(s)
  }

  /** A Slack id is one of CDGU and then 1 to 127 capital letters or digits. */
  lemma SlackChannelIs(s: string, isHttpsEndpoint: string -> bool)
    ensures ValidSetup(SlackChannelId, Str(s), isHttpsEndpoint) <==>
              1 <= |s| - 1 <= 127 && s[0] in "CDGU" && forall c :: c in s[1..] ==> c in CAPITALS_AND_DIGITS
  {
    hide UpperOrDigit;
    if 2 <= |s| {
      forall i | 1 <= i < |s|
        ensures UpperOrDigit(s[i]) <==> s[1..][i - 1] in CAPITALS_AND_DIGITS
      {
        CapitalOrDigit(s[i]);
      }
      assert forall i :: 0 <= i < |s| - 1 ==> s[1..][i] == s[i + 1];
    }
  }

  const CAPITALS := "ABCDEFGHIJKLMNOPQRSTUVWXYZ"
  const DIGITS := "0123456789"
  const CAPITALS_AND_DIGITS := CAPITALS + DIGITS

  lemma Capital(c: char)
    ensures Upper(c) <==> c in CAPITALS
  {
    if 'A' <= c <= 'Z' {
      assert CAPITALS[c as int - 'A' as int] == c;
    }
  }

  lemma CapitalOrDigit(c: char)
    ensures UpperOrDigit(c) <==> c in CAPITALS_AND_DIGITS
  {
    hide Upper;
    Capital(c);
    assert '0' <= c <= '9' <==> c in DIGITS by {
      if '0' <= c <= '9' {
        assert DIGITS[c as int - '0' as int] == c;
      }
    }
  }

  lemma SlackChannelExamples(isHttpsEndpoint: string -> bool)
    ensures ValidSetup(SlackChannelId, Str("C024BE91L"), isHttpsEndpoint) && ValidSetup(SlackChannelId, Str("G0"), isHttpsEndpoint)
    ensures !ValidSetup(SlackChannelId, Str("C"), isHttpsEndpoint) && !ValidSetup(SlackChannelId, Str("B024BE91L"), isHttpsEndpoint)
    ensures !ValidSetup(SlackChannelId, Str("C024be91l"), isHttpsEndpoint) && !ValidSetup(SlackChannelId, Str("#general"), isHttpsEndpoint)
    ensures forall s: string :: |s| > 128 ==> !ValidSetup(SlackChannelId, Str(s), isHttpsEndpoint)
  {
    assert !UpperOrDigit("C024be91l"[4]);
  }

  // ----- One target -----

  /** The value a node holds at the target's place. */
  function ValueIn(c: Content, t: Target): Option<Value> {
    match t.location
    case Config => if t.key in c.config then Some(c.config[t.key]) else None
    case LiteralInput =>
      if t.key in c.inputMappings && c.inputMappings[t.key].Literal? then Some(c.inputMappings[t.key].value) else None
  }

  function WithValue(c: Content, t: Target, v: Value): Content
    requires ValueIn(c, t).Some?
  {
    match t.location
    case Config => c.(config := c.config[t.key := v])
    case LiteralInput => c.(inputMappings := c.inputMappings[t.key := c.inputMappings[t.key].(value := v)])
  }

  /** The value at the target's place in the one node with its id. */
  function ValueAt(nodes: seq<Node<Content>>, t: Target): Option<Value> {
    var found := FindNodes(nodes, t.nodeId);
    if |found| == 1 then ValueIn(found[0].content, t) else None
  }

  function Assigned(n: Node<Content>, t: Target, v: Value): Content {
    if n.id == t.nodeId && ValueIn(n.content, t).Some? then WithValue(n.content, t, v) else n.content
  }

  /** The structured part with the nodes of its body replaced. */
  function AssignInside(g: Structured<Content>, nodes: seq<Node<Content>>): Structured<Content> {
    Structured(Graph(nodes, g.body.edges, g.body.rest), g.rest)
  }

  /** Assigning through the found node, wherever it is nested. */
  function Assign(nodes: seq<Node<Content>>, t: Target, v: Value): seq<Node<Content>> {
    if nodes == [] then []
    else
      [Node(nodes[0].id, Assigned(nodes[0], t, v),
            if nodes[0].structured.Some? then
              Some(AssignInside(nodes[0].structured.value, Assign(nodes[0].structured.value.body.nodes, t, v)))
            else None)]
      + Assign(nodes[1..], t, v)
  }

  function RestoreTarget(m: seq<Node<Content>>, b: seq<Node<Content>>, t: Target,
                         isHttpsEndpoint: string -> bool): Option<seq<Node<Content>>> {
    if ValueAt(m, t).Some? && ValueAt(b, t).Some? && ValidSetup(t.valueKind, ValueAt(m, t).value, isHttpsEndpoint)
    then Some(Assign(m, t, ValueAt(b, t).value))
    else None
  }

  // ----- The reviewed delta -----

  /** Some target stands at this place of a node with this id. */
  predicate IsPlace(ts: seq<Target>, id: string, location: Location, key: string) {
    exists i :: 0 <= i < |ts| && ts[i].nodeId == id && ts[i].location == location && ts[i].key == key
  }

  predicate SameContent(id: string, c: Content, d: Content, ts: seq<Target>) {
    && c.rest == d.rest
    && c.config.Keys == d.config.Keys
    && c.inputMappings.Keys == d.inputMappings.Keys
    && (forall k :: k in c.config ==> c.config[k] == d.config[k] || IsPlace(ts, id, Config, k))
    && (forall k :: k in c.inputMappings ==>
          || c.inputMappings[k] == d.inputMappings[k]
          || (IsPlace(ts, id, LiteralInput, k) && c.inputMappings[k].Literal? && d.inputMappings[k].Literal?
              && c.inputMappings[k].rest == d.inputMappings[k].rest))
  }

  /** The same graph, node for node and at every depth, except for values at the targets' places. */
  predicate SameExcept(m: seq<Node<Content>>, b: seq<Node<Content>>, ts: seq<Target>) {
    if m == [] || b == [] then m == b
    else
      && m[0].id == b[0].id
      && SameContent(m[0].id, m[0].content, b[0].content, ts)
      && SameExcept(m[1..], b[1..], ts)
      && (m[0].structured.Some? <==> b[0].structured.Some?)
      && (m[0].structured.Some? && b[0].structured.Some? ==>
            && m[0].structured.value.rest == b[0].structured.value.rest
            && m[0].structured.value.body.edges == b[0].structured.value.body.edges
            && m[0].structured.value.body.rest == b[0].structured.value.body.rest
            && SameExcept(m[0].structured.value.body.nodes, b[0].structured.value.body.nodes, ts))
  }

  predicate SamePlace(t: Target, u: Target) { t.nodeId == u.nodeId && t.location == u.location && t.key == u.key }

  /** Every target has a valid value here and a value in the base; where a place is targeted twice,
      the base's own value is examined too. */
  predicate TargetsHold(m: seq<Node<Content>>, b: seq<Node<Content>>, ts: seq<Target>, isHttpsEndpoint: string -> bool) {
    forall j :: 0 <= j < |ts| ==> TargetHolds(m, b, ts, j, isHttpsEndpoint)
  }

  predicate TargetHolds(m: seq<Node<Content>>, b: seq<Node<Content>>, ts: seq<Target>, j: nat, isHttpsEndpoint: string -> bool)
    requires j < |ts|
  {
    && ValueAt(b, ts[j]).Some?
    && ValueAt(m, ts[j]).Some?
    && ValidSetup(ts[j].valueKind, if Repeated(ts, j) then ValueAt(b, ts[j]).value else ValueAt(m, ts[j]).value, isHttpsEndpoint)
  }

  // ----- Reading and assigning one place -----

  /** All nodes with the target's id hold a value at its place (and, with one, this value). */
  ghost predicate AllHold(nodes: seq<Node<Content>>, t: Target) {
    forall n :: n in AllNodes(nodes) && n.id == t.nodeId ==> ValueIn(n.content, t).Some?
  }

  ghost predicate AllAre(nodes: seq<Node<Content>>, t: Target, v: Value) {
    forall n :: n in AllNodes(nodes) && n.id == t.nodeId ==> ValueIn(n.content, t) == Some(v)
  }

  lemma {:induction false} WithIdHasAll<C>(nodes: seq<Node<C>>, n: Node<C>)
    requires n in nodes
    ensures n in WithId(nodes, n.id)
  {
    if n != nodes[0] {
      WithIdHasAll(nodes[1..], n);
    }
  }

  /** Of these nodes the i-th has the id and no other. */
  predicate OnlyAt<C>(nodes: seq<Node<C>>, id: string, i: nat) {
    i < |nodes| && nodes[i].id == id && forall j :: 0 <= j < |nodes| && j != i ==> nodes[j].id != id
  }

  lemma {:induction false} WithIdIsEmpty<C>(nodes: seq<Node<C>>, id: string)
    ensures WithId(nodes, id) == [] <==> forall j :: 0 <= j < |nodes| ==> nodes[j].id != id
  {
    if nodes != [] {
      WithIdIsEmpty(nodes[1..], id);
      assert nodes == [nodes[0]] + nodes[1..];
    }
  }

  lemma {:induction false} OneWithId<C>(nodes: seq<Node<C>>, id: string)
    ensures |WithId(nodes, id)| == 1 <==> exists i: nat :: OnlyAt(nodes, id, i)
    ensures forall i: nat :: OnlyAt(nodes, id, i) ==> WithId(nodes, id) == [nodes[i]]
  {
    if nodes != [] {
      OneWithId(nodes[1..], id);
      WithIdIsEmpty(nodes[1..], id);
      if nodes[0].id == id {
        assert |WithId(nodes, id)| == 1 ==> OnlyAt(nodes, id, 0);
      } else {
        forall i: nat
          ensures OnlyAt(nodes, id, i + 1) <==> OnlyAt(nodes[1..], id, i)
        {
          OnlyLater(nodes, id, i);
        }
        assert !OnlyAt(nodes, id, 0);
        forall i: nat | OnlyAt(nodes, id, i)
          ensures i > 0 && OnlyAt(nodes[1..], id, i - 1)
        {
        }
      }
    }
  }

  lemma OnlyLater<C>(nodes: seq<Node<C>>, id: string, i: nat)
    requires nodes != [] && nodes[0].id != id
    ensures OnlyAt(nodes, id, i + 1) <==> OnlyAt(nodes[1..], id, i)
  {
    if OnlyAt(nodes[1..], id, i) {
      assert forall j :: 1 <= j < |nodes| ==> nodes[j] == nodes[1..][j - 1];
    }
  }

  /** The value v stands at this place of a node: in its config, or as a literal input. */
  ghost predicate Stands(c: Content, t: Target, v: Value) {
    match t.location
    case Config => t.key in c.config && c.config[t.key] == v
    case LiteralInput => exists rest :: t.key in c.inputMappings && c.inputMappings[t.key] == Literal(v, rest)
  }

  /** A target has the value v exactly if one node of all depths has its id and v stands there. */
  lemma ValueAtIs(nodes: seq<Node<Content>>, t: Target, v: Value)
    ensures ValueAt(nodes, t) == Some(v)
            <==> exists i: nat :: OnlyAt(AllNodes(nodes), t.nodeId, i) && Stands(AllNodes(nodes)[i].content, t, v)
  {
    hide OnlyAt, AllNodes, FindNodes, WithId;
    FindNodesIsFilter(nodes, t.nodeId);
    OneWithId(AllNodes(nodes), t.nodeId);
    InBounds(AllNodes(nodes), t.nodeId);
  }

  lemma InBounds<C>(nodes: seq<Node<C>>, id: string)
    ensures forall i: nat :: OnlyAt(nodes, id, i) ==> i < |nodes|
  {
  }

  lemma OnlyOne(nodes: seq<Node<Content>>, t: Target)
    requires ValueAt(nodes, t).Some?
    ensures AllHold(nodes, t) && AllAre(nodes, t, ValueAt(nodes, t).value)
  {
    FindNodesIsFilter(nodes, t.nodeId);
    var found := FindNodes(nodes, t.nodeId);
    forall n | n in AllNodes(nodes) && n.id == t.nodeId
      ensures n == found[0]
    {
      WithIdHasAll(AllNodes(nodes), n);
    }
  }

  lemma PartsHold(nodes: seq<Node<Content>>, t: Target, v: Value)
    requires nodes != []
    ensures nodes[0] in AllNodes(nodes)
    ensures AllHold(nodes, t) ==> AllHold(nodes[1..], t)
    ensures AllAre(nodes, t, v) ==> AllAre(nodes[1..], t, v)
    ensures nodes[0].structured.Some? && AllHold(nodes, t) ==> AllHold(nodes[0].structured.value.body.nodes, t)
    ensures nodes[0].structured.Some? && AllAre(nodes, t, v) ==> AllAre(nodes[0].structured.value.body.nodes, t, v)
  {
    var below := if nodes[0].structured.Some? then AllNodes(nodes[0].structured.value.body.nodes) else [];
    assert AllNodes(nodes) == [nodes[0]] + below + AllNodes(nodes[1..]);
    assert forall n :: n in below || n in AllNodes(nodes[1..]) ==> n in AllNodes(nodes);
  }

  /** Node for node, the contents of `found` assigned. */
  ghost predicate AreAssigned(after: seq<Node<Content>>, found: seq<Node<Content>>, t: Target, v: Value) {
    |after| == |found| && forall i :: 0 <= i < |found| ==> after[i].content == Assigned(found[i], t, v)
  }

  lemma AssignedBoth(a: seq<Node<Content>>, b: seq<Node<Content>>, c: seq<Node<Content>>, d: seq<Node<Content>>, t: Target, v: Value)
    requires AreAssigned(a, c, t, v) && AreAssigned(b, d, t, v)
    ensures AreAssigned(a + b, c + d, t, v)
  {
  }

  /** The search finds the same nodes after an assignment. */
  lemma {:induction false} FindAssigned(nodes: seq<Node<Content>>, t: Target, v: Value, id: string)
    ensures AreAssigned(FindNodes(Assign(nodes, t, v), id), FindNodes(nodes, id), t, v)
  {
    if nodes != [] {
      var n := nodes[0];
      var body: Option<Structured<Content>> :=
        if n.structured.Some? then Some(AssignInside(n.structured.value, Assign(n.structured.value.body.nodes, t, v))) else None;
      var first := Node(n.id, Assigned(n, t, v), body);
      var own, own': seq<Node<Content>> := if n.id == id then [n] else [], if n.id == id then [first] else [];
      var below := if n.structured.Some? then FindNodes(n.structured.value.body.nodes, id) else [];
      var below' := if body.Some? then FindNodes(body.value.body.nodes, id) else [];
      FindAssigned(nodes[1..], t, v, id);
      if n.structured.Some? {
        FindAssigned(n.structured.value.body.nodes, t, v, id);
      }
      AssignedBoth(own', below', own, below, t, v);
      AssignedBoth(own' + below', FindNodes(Assign(nodes[1..], t, v), id), own + below, FindNodes(nodes[1..], id), t, v);
      assert Assign(nodes, t, v)[0] == first && Assign(nodes, t, v)[1..] == Assign(nodes[1..], t, v);
    }
  }

  lemma {:induction false} FoundHasId<C>(nodes: seq<Node<C>>, id: string)
    ensures forall n :: n in FindNodes(nodes, id) ==> n.id == id
  {
    if nodes != [] {
      FoundHasId(nodes[1..], id);
      if nodes[0].structured.Some? {
        FoundHasId(nodes[0].structured.value.body.nodes, id);
      }
    }
  }

  lemma ValueAfter(n: Node<Content>, t: Target, v: Value, u: Target)
    requires n.id == u.nodeId && (SamePlace(t, u) ==> ValueIn(n.content, t).Some?)
    ensures ValueIn(Assigned(n, t, v), u) == if SamePlace(t, u) then Some(v) else ValueIn(n.content, u)
  {
  }

  /** An assignment is read back at its own place and nowhere else. */
  lemma AssignedIsRead(nodes: seq<Node<Content>>, t: Target, v: Value, u: Target)
    requires ValueAt(nodes, t).Some?
    ensures ValueAt(Assign(nodes, t, v), u) == if SamePlace(t, u) then Some(v) else ValueAt(nodes, u)
  {
    hide FindNodes, Assign, Assigned;
    FindAssigned(nodes, t, v, u.nodeId);
    var found := FindNodes(nodes, u.nodeId);
    if |found| == 1 {
      FoundHasId(nodes, u.nodeId);
      assert found[0] in found;
      ValueAfter(found[0], t, v, u);
    }
  }

  // ----- One restored target -----

  lemma PlaceOfMore(t: Target, ts: seq<Target>, id: string, location: Location, key: string)
    ensures IsPlace([t] + ts, id, location, key)
            <==> (t.nodeId == id && t.location == location && t.key == key) || IsPlace(ts, id, location, key)
  {
    var all := [t] + ts;
    assert all[0] == t && forall i :: 0 <= i < |ts| ==> all[i + 1] == ts[i];
    if i :| 0 <= i < |all| && all[i].nodeId == id && all[i].location == location && all[i].key == key {
      assert i > 0 ==> all[i] == ts[i - 1];
    }
  }

  lemma ContentStep(n: Node<Content>, d: Content, t: Target, ts: seq<Target>, v: Value)
    requires n.id == t.nodeId ==> ValueIn(n.content, t).Some? && ValueIn(d, t) == Some(v)
    ensures SameContent(n.id, n.content, d, [t] + ts) <==> SameContent(n.id, Assigned(n, t, v), d, ts)
  {
    hide IsPlace;
    var c, r := n.content, Assigned(n, t, v);
    forall location, k
      ensures IsPlace([t] + ts, n.id, location, k)
              <==> (t.nodeId == n.id && t.location == location && t.key == k) || IsPlace(ts, n.id, location, k)
    {
      PlaceOfMore(t, ts, n.id, location, k);
    }
    assert r.config.Keys == c.config.Keys && r.inputMappings.Keys == c.inputMappings.Keys && r.rest == c.rest;
  }

  /** Restoring a target turns "the same except for these places" into "except for the others". */
  lemma {:induction false} StepSame(m: seq<Node<Content>>, b: seq<Node<Content>>, t: Target, ts: seq<Target>, v: Value)
    requires AllHold(m, t) && AllAre(b, t, v)
    ensures SameExcept(m, b, [t] + ts) <==> SameExcept(Assign(m, t, v), b, ts)
  {
    if m != [] && b != [] {
      hide SameContent, Assigned, AllHold, AllAre;
      var n, d := m[0], b[0];
      PartsHold(m, t, v);
      PartsHold(b, t, v);
      HeadsHold(m, b, t, v);
      if n.id == d.id {
        ContentStep(n, d.content, t, ts, v);
      }
      StepSame(m[1..], b[1..], t, ts, v);
      if n.structured.Some? && d.structured.Some? {
        StepSame(n.structured.value.body.nodes, d.structured.value.body.nodes, t, ts, v);
      }
    }
  }

  lemma HeadsHold(m: seq<Node<Content>>, b: seq<Node<Content>>, t: Target, v: Value)
    requires m != [] && b != [] && m[0] in AllNodes(m) && b[0] in AllNodes(b)
    requires AllHold(m, t) && AllAre(b, t, v)
    ensures m[0].id == t.nodeId ==> ValueIn(m[0].content, t).Some?
    ensures b[0].id == t.nodeId ==> ValueIn(b[0].content, t) == Some(v)
  {
  }

  lemma SameContentNowhere(id: string, c: Content, d: Content)
    ensures SameContent(id, c, d, []) <==> c == d
  {
    if SameContent(id, c, d, []) {
      assert c.config == d.config;
      assert c.inputMappings == d.inputMappings;
    }
  }

  lemma {:induction false} SameExceptNowhere(m: seq<Node<Content>>, b: seq<Node<Content>>)
    ensures SameExcept(m, b, []) <==> m == b
  {
    if m != [] && b != [] {
      hide SameContent;
      SameContentNowhere(m[0].id, m[0].content, b[0].content);
      SameExceptNowhere(m[1..], b[1..]);
      if m[0].structured.Some? && b[0].structured.Some? {
        SameExceptNowhere(m[0].structured.value.body.nodes, b[0].structured.value.body.nodes);
      }
      assert m == [m[0]] + m[1..] && b == [b[0]] + b[1..];
    }
  }

  lemma SameContentAfter(n: Node<Content>, t: Target, v: Value)
    ensures SameContent(n.id, Assigned(n, t, v), n.content, [t])
  {
    assert [t][0] == t;
    assert IsPlace([t], t.nodeId, t.location, t.key);
  }

  /** Restoring a target changes nothing else in the nested graph. */
  lemma {:induction false} AssignChangesOnlyItsPlace(nodes: seq<Node<Content>>, t: Target, v: Value)
    ensures SameExcept(Assign(nodes, t, v), nodes, [t])
  {
    if nodes != [] {
      hide SameContent, Assigned;
      SameContentAfter(nodes[0], t, v);
      AssignChangesOnlyItsPlace(nodes[1..], t, v);
      if nodes[0].structured.Some? {
        AssignChangesOnlyItsPlace(nodes[0].structured.value.body.nodes, t, v);
      }
    }
  }

  // ----- All targets -----

  function RestoreAll(m: seq<Node<Content>>, b: seq<Node<Content>>, ts: seq<Target>,
                      isHttpsEndpoint: string -> bool): Option<seq<Node<Content>>>
    decreases |ts|
  {
    if ts == [] then Some(m)
    else
      match RestoreTarget(m, b, ts[0], isHttpsEndpoint)
      case None => None
      case Some(restored) => RestoreAll(restored, b, ts[1..], isHttpsEndpoint)
  }

  predicate Repeated(ts: seq<Target>, j: nat)
    requires j < |ts|
  {
    exists i :: 0 <= i < j && SamePlace(ts[i], ts[j])
  }

  lemma RepeatedLater(ts: seq<Target>, j: nat)
    requires j + 1 < |ts|
    ensures Repeated(ts, j + 1) <==> SamePlace(ts[0], ts[j + 1]) || Repeated(ts[1..], j)
  {
    if i :| 0 <= i < j + 1 && SamePlace(ts[i], ts[j + 1]) {
      assert i > 0 ==> SamePlace(ts[1..][i - 1], ts[1..][j]);
    }
    if i :| 0 <= i < j && SamePlace(ts[1..][i], ts[1..][j]) {
      assert SamePlace(ts[i + 1], ts[j + 1]);
    }
  }

  lemma SamePlaceSameValue(nodes: seq<Node<Content>>, t: Target, u: Target)
    requires SamePlace(t, u)
    ensures ValueAt(nodes, t) == ValueAt(nodes, u)
  {
  }

  lemma OneTargetHolds(m: seq<Node<Content>>, b: seq<Node<Content>>, ts: seq<Target>, j: nat, isHttpsEndpoint: string -> bool)
    requires ts != [] && j < |ts| - 1 && RestoreTarget(m, b, ts[0], isHttpsEndpoint).Some?
    ensures TargetHolds(m, b, ts, j + 1, isHttpsEndpoint)
            <==> TargetHolds(RestoreTarget(m, b, ts[0], isHttpsEndpoint).value, b, ts[1..], j, isHttpsEndpoint)
  {
    hide ValueAt, Assign, ValidSetup, Repeated;
    AssignedIsRead(m, ts[0], ValueAt(b, ts[0]).value, ts[j + 1]);
    RepeatedLater(ts, j);
    if SamePlace(ts[0], ts[j + 1]) {
      SamePlaceSameValue(b, ts[0], ts[j + 1]);
      SamePlaceSameValue(m, ts[0], ts[j + 1]);
    }
  }

  lemma StepHolds(m: seq<Node<Content>>, b: seq<Node<Content>>, ts: seq<Target>, isHttpsEndpoint: string -> bool)
    requires ts != [] && RestoreTarget(m, b, ts[0], isHttpsEndpoint).Some?
    ensures TargetsHold(m, b, ts, isHttpsEndpoint)
            <==> TargetsHold(RestoreTarget(m, b, ts[0], isHttpsEndpoint).value, b, ts[1..], isHttpsEndpoint)
  {
    var restored := RestoreTarget(m, b, ts[0], isHttpsEndpoint).value;
    assert TargetHolds(m, b, ts, 0, isHttpsEndpoint);
    hide TargetHolds, RestoreTarget;
    forall j | 0 <= j < |ts| - 1
      ensures TargetHolds(m, b, ts, j + 1, isHttpsEndpoint) <==> TargetHolds(restored, b, ts[1..], j, isHttpsEndpoint)
    {
      OneTargetHolds(m, b, ts, j, isHttpsEndpoint);
    }
    if TargetsHold(restored, b, ts[1..], isHttpsEndpoint) {
      forall j | 0 <= j < |ts|
        ensures TargetHolds(m, b, ts, j, isHttpsEndpoint)
      {
        assert j > 0 ==> TargetHolds(restored, b, ts[1..], j - 1, isHttpsEndpoint);
      }
    }
    if TargetsHold(m, b, ts, isHttpsEndpoint) {
      forall j | 0 <= j < |ts| - 1
        ensures TargetHolds(restored, b, ts[1..], j, isHttpsEndpoint)
      {
        assert TargetHolds(m, b, ts, j + 1, isHttpsEndpoint);
      }
    }
  }

  /** Restoring goes through exactly when all targets hold, and gives the base exactly when
      nothing but the targets' values differs from it. */
  lemma {:induction false} RestoringIsExact(m: seq<Node<Content>>, b: seq<Node<Content>>, ts: seq<Target>,
                                            isHttpsEndpoint: string -> bool)
    ensures RestoreAll(m, b, ts, isHttpsEndpoint).Some? <==> TargetsHold(m, b, ts, isHttpsEndpoint)
    ensures TargetsHold(m, b, ts, isHttpsEndpoint) ==>
              (RestoreAll(m, b, ts, isHttpsEndpoint).value == b <==> SameExcept(m, b, ts))
    decreases |ts|
  {
    if ts == [] {
      SameExceptNowhere(m, b);
    } else {
      var t := ts[0];
      if RestoreTarget(m, b, t, isHttpsEndpoint).Some? {
        var v := ValueAt(b, t).value;
        StepHolds(m, b, ts, isHttpsEndpoint);
        RestoringIsExact(Assign(m, t, v), b, ts[1..], isHttpsEndpoint);
        OnlyOne(m, t);
        OnlyOne(b, t);
        StepSame(m, b, t, ts[1..], v);
        assert ts == [t] + ts[1..];
      } else {
        FirstFails(m, b, ts, isHttpsEndpoint);
      }
    }
  }

  lemma FirstFails(m: seq<Node<Content>>, b: seq<Node<Content>>, ts: seq<Target>, isHttpsEndpoint: string -> bool)
    requires ts != [] && RestoreTarget(m, b, ts[0], isHttpsEndpoint) == None
    ensures !TargetsHold(m, b, ts, isHttpsEndpoint)
  {
    assert !TargetHolds(m, b, ts, 0, isHttpsEndpoint);
  }

  // ----- Filled-in templates -----

  /** The base with the targets' values replaced. */
  function Filled(b: seq<Node<Content>>, ts: seq<Target>, vs: seq<Value>): seq<Node<Content>>
    requires |ts| == |vs|
    decreases |ts|
  {
    if ts == [] then b else Assign(Filled(b, ts[1..], vs[1..]), ts[0], vs[0])
  }

  predicate DistinctPlaces(ts: seq<Target>) { forall i, j :: 0 <= i < j < |ts| ==> !SamePlace(ts[i], ts[j]) }

  lemma ContentStaysSame(n: Node<Content>, d: Content, t: Target, ts: seq<Target>, v: Value)
    requires SameContent(n.id, n.content, d, ts)
    ensures SameContent(n.id, Assigned(n, t, v), d, [t] + ts)
  {
    hide IsPlace;
    forall location, k
      ensures IsPlace([t] + ts, n.id, location, k)
              <==> (t.nodeId == n.id && t.location == location && t.key == k) || IsPlace(ts, n.id, location, k)
    {
      PlaceOfMore(t, ts, n.id, location, k);
    }
  }

  lemma {:induction false} AssignStaysSame(m: seq<Node<Content>>, b: seq<Node<Content>>, t: Target, ts: seq<Target>, v: Value)
    requires SameExcept(m, b, ts)
    ensures SameExcept(Assign(m, t, v), b, [t] + ts)
  {
    if m != [] && b != [] {
      hide SameContent, Assigned;
      ContentStaysSame(m[0], b[0].content, t, ts, v);
      AssignStaysSame(m[1..], b[1..], t, ts, v);
      if m[0].structured.Some? {
        AssignStaysSame(m[0].structured.value.body.nodes, b[0].structured.value.body.nodes, t, ts, v);
      }
    }
  }

  lemma {:induction false} FilledIsSame(b: seq<Node<Content>>, ts: seq<Target>, vs: seq<Value>)
    requires |ts| == |vs|
    ensures SameExcept(Filled(b, ts, vs), b, ts)
    decreases |ts|
  {
    if ts == [] {
      SameExceptNowhere(b, b);
    } else {
      hide SameExcept, Assign;
      FilledIsSame(b, ts[1..], vs[1..]);
      AssignStaysSame(Filled(b, ts[1..], vs[1..]), b, ts[0], ts[1..], vs[0]);
      assert ts == [ts[0]] + ts[1..];
    }
  }

  lemma {:induction false} FilledIs(b: seq<Node<Content>>, ts: seq<Target>, vs: seq<Value>, u: Target)
    requires |ts| == |vs| && DistinctPlaces(ts)
    requires forall j :: 0 <= j < |ts| ==> ValueAt(b, ts[j]).Some?
    ensures forall j :: 0 <= j < |ts| && SamePlace(ts[j], u) ==> ValueAt(Filled(b, ts, vs), u) == Some(vs[j])
    ensures (forall j :: 0 <= j < |ts| ==> !SamePlace(ts[j], u)) ==> ValueAt(Filled(b, ts, vs), u) == ValueAt(b, u)
    decreases |ts|
  {
    if ts != [] {
      hide ValueAt, Assign;
      var x := Filled(b, ts[1..], vs[1..]);
      FilledIs(b, ts[1..], vs[1..], ts[0]);
      FilledIs(b, ts[1..], vs[1..], u);
      AssignedIsRead(x, ts[0], vs[0], u);
    }
  }

  /** Every base filled in with valid values is accepted, and restoring gives the base back. */
  lemma FilledTemplateIsAccepted(b: seq<Node<Content>>, ts: seq<Target>, vs: seq<Value>, isHttpsEndpoint: string -> bool)
    requires |ts| == |vs| && DistinctPlaces(ts)
    requires forall j :: 0 <= j < |ts| ==> ValueAt(b, ts[j]).Some? && ValidSetup(ts[j].valueKind, vs[j], isHttpsEndpoint)
    ensures RestoreAll(Filled(b, ts, vs), b, ts, isHttpsEndpoint) == Some(b)
  {
    hide ValueAt, SameExcept, Filled, ValidSetup;
    var m := Filled(b, ts, vs);
    forall j | 0 <= j < |ts|
      ensures TargetHolds(m, b, ts, j, isHttpsEndpoint)
    {
      FilledIs(b, ts, vs, ts[j]);
      assert !Repeated(ts, j);
    }
    FilledIsSame(b, ts, vs);
    RestoringIsExact(m, b, ts, isHttpsEndpoint);
  }

  // ----- The verification -----

  /** The first template of the catalog with this origin. */
  function FirstMatch(catalog: seq<Template>, origin: Origin): Option<Template> {
    if catalog == [] then None
    else if catalog[0].origin == origin then Some(catalog[0])
    else FirstMatch(catalog[1..], origin)
  }

  /** All three parts of the origin are as asked for. */
  predicate IsFrom(d: Template, origin: Origin) {
    && d.origin.templateId == origin.templateId
    && d.origin.templateVersion == origin.templateVersion
    && d.origin.baseManifestDigest == origin.baseManifestDigest
  }

  lemma {:induction false} FirstMatchIs(catalog: seq<Template>, origin: Origin)
    ensures FirstMatch(catalog, origin) == None <==> forall d :: d in catalog ==> !IsFrom(d, origin)
    ensures forall k :: 0 <= k < |catalog| && IsFrom(catalog[k], origin) && (forall j :: 0 <= j < k ==> !IsFrom(catalog[j], origin)) ==>
              FirstMatch(catalog, origin) == Some(catalog[k])
    ensures FirstMatch(catalog, origin).Some? ==>
              FirstMatch(catalog, origin).value in catalog && IsFrom(FirstMatch(catalog, origin).value, origin)
  {
    if catalog != [] {
      assert catalog == [catalog[0]] + catalog[1..];
      FirstMatchIs(catalog[1..], origin);
      assert catalog[0].origin == origin <==> IsFrom(catalog[0], origin);
      forall k | 0 <= k < |catalog| && IsFrom(catalog[k], origin) && forall j :: 0 <= j < k ==> !IsFrom(catalog[j], origin)
        ensures FirstMatch(catalog, origin) == Some(catalog[k])
      {
        if k > 0 {
          assert catalog[1..][k - 1] == catalog[k] && forall j :: 0 <= j < k - 1 ==> catalog[1..][j] == catalog[j + 1];
        }
      }
    }
  }

  /** The manifest is the reviewed one with only its setup values replaced, by valid ones. */
  predicate IsReviewedDelta(m: Manifest, d: Template, isHttpsEndpoint: string -> bool) {
    && TargetsHold(m.graph.nodes, d.manifest.graph.nodes, d.setupTargets, isHttpsEndpoint)
    && SameExcept(m.graph.nodes, d.manifest.graph.nodes, d.setupTargets)
    && m.graph.edges == d.manifest.graph.edges
    && m.graph.rest == d.manifest.graph.rest
    && m.rest == d.manifest.rest
  }

  /** Sound and complete: accepts exactly the reviewed deltas, whatever the nesting. `origin` and
      `manifest` are None where their schemas refuse the input. */
  method VerifyCuratedTemplateManifest(catalog: seq<Template>, manifest: Option<Manifest>, origin: Option<Origin>,
                                       isHttpsEndpoint: string -> bool) returns (v: Verdict)
    ensures v == OriginInvalid <==> origin == None
    ensures v == OriginUnknown <==> origin.Some? && forall d :: d in catalog ==> !IsFrom(d, origin.value)
    ensures v == OriginUnknown <==> origin.Some? && FirstMatch(catalog, origin.value) == None
    ensures v.Verified? ==> v.descriptor in catalog && IsFrom(v.descriptor, origin.value)
    ensures v == ManifestInvalid <==> origin.Some? && FirstMatch(catalog, origin.value).Some? && manifest == None
    ensures origin.Some? && FirstMatch(catalog, origin.value).Some? && manifest.Some? ==>
              var d, m := FirstMatch(catalog, origin.value).value, manifest.value;
              && (v.Verified? <==> IsReviewedDelta(m, d, isHttpsEndpoint))
              && (v.Verified? ==> v == Verified(d, m))
              && (v == SetupInvalid <==>
                    !TargetsHold(m.graph.nodes, d.manifest.graph.nodes, d.setupTargets, isHttpsEndpoint))
  {
    if origin == None {
      return OriginInvalid;
    }
    var descriptor := FirstMatch(catalog, origin.value);
    FirstMatchIs(catalog, origin.value);
    if descriptor == None {
      return OriginUnknown;
    }
    if manifest == None {
      return ManifestInvalid;
    }
    var d, parsed := descriptor.value, manifest.value;
    var base, ts := d.manifest.graph.nodes, d.setupTargets;
    var restored := parsed.graph.nodes;
    RestoringIsExact(restored, base, ts, isHttpsEndpoint);
    var i := 0;
    assert ts[0..] == ts;
    while i < |ts|
      invariant i <= |ts|
      invariant RestoreAll(restored, base, ts[i..], isHttpsEndpoint) == RestoreAll(parsed.graph.nodes, base, ts, isHttpsEndpoint)
    {
      assert ts[i..][1..] == ts[i + 1..];
      var next := RestoreTarget(restored, base, ts[i], isHttpsEndpoint);
      if next == None {
        return SetupInvalid;
      }
      restored := next.value;
      i := i + 1;
    }
    if Manifest(Graph(restored, parsed.graph.edges, parsed.graph.rest), parsed.rest) != d.manifest {
      return ManifestMismatch;
    }
    return Verified(d, parsed);
  }
}
