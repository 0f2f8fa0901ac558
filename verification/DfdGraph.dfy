/** The data-flow-diagram graph: its records, its lookups, and the invariants the editor keeps. */
module DfdGraph {
  import opened Wrappers
  import opened BoundaryForest

  datatype Json = Text(text: string) | Flag(flag: bool)

  /** Node and edge property dictionaries are opaque payloads; the tables' JSON column can also hold a null. */
  datatype Props = Fields(fields: map<string, Json>) | NullProps

  datatype Node = Node(
    id: Uuid, nodeType: string, name: string, x: real, y: real, home: Option<Uuid>,
    scanUrl: Option<string>, scanPorts: Option<string>, props: Props)

  datatype Edge = Edge(id: Uuid, source: Uuid, target: Uuid, caption: string, props: Props)

  datatype Rect = Rect(x: real, y: real, width: real, height: real)

  datatype Boundary = Boundary(
    id: Uuid, name: string, members: seq<Uuid>, rect: Rect, kind: Option<string>, parent: Option<Uuid>)

  datatype Graph = Graph(nodes: seq<Node>, edges: seq<Edge>, boundaries: seq<Boundary>)

  // ---- Lookups: the first record with the id, as `next(...)` finds it ----

  function FindNode(nodes: seq<Node>, id: Uuid): (r: Option<nat>)
    ensures r == None <==> id !in NodeIds(nodes)
    ensures r.Some? ==> r.value < |nodes| && nodes[r.value].id == id
    ensures r.Some? ==> forall i | 0 <= i < r.value :: nodes[i].id != id
  {
    if nodes == [] then None
    else if nodes[0].id == id then Some(0)
    else match FindNode(nodes[1..], id)
      case None =>
        assert nodes == [nodes[0]] + nodes[1..];
        None
      case Some(i) =>
        assert nodes[1..][i] == nodes[i + 1];
        Some(i + 1)
  }

  function FindEdge(edges: seq<Edge>, id: Uuid): (r: Option<nat>)
    ensures r == None <==> id !in EdgeIds(edges)
    ensures r.Some? ==> r.value < |edges| && edges[r.value].id == id
    ensures r.Some? ==> forall i | 0 <= i < r.value :: edges[i].id != id
  {
    if edges == [] then None
    else if edges[0].id == id then Some(0)
    else match FindEdge(edges[1..], id)
      case None =>
        assert edges == [edges[0]] + edges[1..];
        None
      case Some(i) =>
        assert edges[1..][i] == edges[i + 1];
        Some(i + 1)
  }

  function FindBoundary(bs: seq<Boundary>, id: Uuid): (r: Option<nat>)
    ensures r == None <==> id !in BoundaryIds(bs)
    ensures r.Some? ==> r.value < |bs| && bs[r.value].id == id
    ensures r.Some? ==> forall i | 0 <= i < r.value :: bs[i].id != id
  {
    if bs == [] then None
    else if bs[0].id == id then Some(0)
    else match FindBoundary(bs[1..], id)
      case None =>
        assert bs == [bs[0]] + bs[1..];
        None
      case Some(i) =>
        assert bs[1..][i] == bs[i + 1];
        Some(i + 1)
  }

  function NodeIds(nodes: seq<Node>): set<Uuid> {
    set n | n in nodes :: n.id
  }

  function EdgeIds(edges: seq<Edge>): set<Uuid> {
    set e | e in edges :: e.id
  }

  function BoundaryIds(bs: seq<Boundary>): set<Uuid> {
    set b | b in bs :: b.id
  }

  // ---- Filters: the list comprehensions that drop records ----

  lemma ConsNode(x: Node, nodes: seq<Node>)
    ensures UniqueNodes(nodes) && (forall y <- nodes :: y.id != x.id) ==> UniqueNodes([x] + nodes)
  {}

  lemma ConsEdge(x: Edge, edges: seq<Edge>)
    ensures UniqueEdges(edges) && (forall y <- edges :: y.id != x.id) ==> UniqueEdges([x] + edges)
  {}

  lemma ConsBoundary(x: Boundary, bs: seq<Boundary>)
    ensures UniqueBoundaries(bs) && (forall y <- bs :: y.id != x.id) ==> UniqueBoundaries([x] + bs)
  {}

  function WithoutNode(nodes: seq<Node>, id: Uuid): (r: seq<Node>)
    ensures forall n :: n in r <==> n in nodes && n.id != id
    ensures UniqueNodes(nodes) ==> UniqueNodes(r)
  {
    if nodes == [] then []
    else
      assert nodes == [nodes[0]] + nodes[1..];
      var rest := WithoutNode(nodes[1..], id);
      assert UniqueNodes(nodes) ==> UniqueNodes(nodes[1..]);
      ConsNode(nodes[0], rest);
      assert [] + rest == rest;
      (if nodes[0].id == id then [] else [nodes[0]]) + rest
  }

  function WithoutEdge(edges: seq<Edge>, id: Uuid): (r: seq<Edge>)
    ensures forall e :: e in r <==> e in edges && e.id != id
    ensures UniqueEdges(edges) ==> UniqueEdges(r)
  {
    if edges == [] then []
    else
      assert edges == [edges[0]] + edges[1..];
      var rest := WithoutEdge(edges[1..], id);
      assert UniqueEdges(edges) ==> UniqueEdges(edges[1..]);
      ConsEdge(edges[0], rest);
      assert [] + rest == rest;
      (if edges[0].id == id then [] else [edges[0]]) + rest
  }

  function WithoutIncident(edges: seq<Edge>, id: Uuid): (r: seq<Edge>)
    ensures forall e :: e in r <==> e in edges && e.source != id && e.target != id
    ensures UniqueEdges(edges) ==> UniqueEdges(r)
  {
    if edges == [] then []
    else
      assert edges == [edges[0]] + edges[1..];
      var rest := WithoutIncident(edges[1..], id);
      assert UniqueEdges(edges) ==> UniqueEdges(edges[1..]);
      ConsEdge(edges[0], rest);
      assert [] + rest == rest;
      (if edges[0].source != id && edges[0].target != id then [edges[0]] else []) + rest
  }

  function WithoutBoundary(bs: seq<Boundary>, id: Uuid): (r: seq<Boundary>)
    ensures forall b :: b in r <==> b in bs && b.id != id
    ensures UniqueBoundaries(bs) ==> UniqueBoundaries(r)
  {
    if bs == [] then []
    else
      assert bs == [bs[0]] + bs[1..];
      var rest := WithoutBoundary(bs[1..], id);
      assert UniqueBoundaries(bs) ==> UniqueBoundaries(bs[1..]);
      ConsBoundary(bs[0], rest);
      assert [] + rest == rest;
      (if bs[0].id == id then [] else [bs[0]]) + rest
  }

  /** `list(dict.fromkeys(ids))`: the distinct ids, in order of first occurrence. */
  function Dedupe(ids: seq<Uuid>): (r: seq<Uuid>)
    ensures Distinct(r)
    ensures forall x :: x in r <==> x in ids
  {
    if ids == [] then []
    else
      var init := Dedupe(ids[..|ids| - 1]);
      var last := ids[|ids| - 1];
      assert ids == ids[..|ids| - 1] + [last];
      if last in init then init else init + [last]
  }

  /** Where an id first occurs. */
  function IndexOf(ids: seq<Uuid>, x: Uuid): (i: nat)
    requires x in ids
    ensures i < |ids| && ids[i] == x && x !in ids[..i]
  {
    if ids[0] == x then 0
    else
      assert ids == [ids[0]] + ids[1..];
      var i := IndexOf(ids[1..], x);
      assert ids[..i + 1] == [ids[0]] + ids[1..][..i];
      i + 1
  }

  lemma IndexInPrefix(init: seq<Uuid>, last: Uuid, x: Uuid)
    requires x in init
    ensures IndexOf(init + [last], x) == IndexOf(init, x)
  {
    var ids, i, j := init + [last], IndexOf(init + [last], x), IndexOf(init, x);
    assert ids[j] == x;
  }

  /** Dropping repetitions keeps the order of first occurrence. */
  lemma {:induction false} DedupeInOrder(ids: seq<Uuid>, i: nat, j: nat)
    requires i < j < |Dedupe(ids)|
    ensures IndexOf(ids, Dedupe(ids)[i]) < IndexOf(ids, Dedupe(ids)[j])
  {
    var init, last, r := ids[..|ids| - 1], ids[|ids| - 1], Dedupe(ids);
    assert ids == init + [last];
    IndexInPrefix(init, last, r[i]);
    if j < |Dedupe(init)| {
      DedupeInOrder(init, i, j);
      IndexInPrefix(init, last, r[j]);
    } else {
      assert last !in init;
      assert forall k | 0 <= k < |init| :: ids[k] == init[k] && init[k] in init;
    }
  }

  /** All of `dict.fromkeys`: the same ids, none twice, in order of first occurrence. */
  lemma DedupeIs(ids: seq<Uuid>)
    ensures var r := Dedupe(ids);
            && Distinct(r) && (forall x :: x in r <==> x in ids)
            && forall i, j | 0 <= i < j < |r| :: IndexOf(ids, r[i]) < IndexOf(ids, r[j])
  {
    var r := Dedupe(ids);
    forall i, j | 0 <= i < j < |r| ensures IndexOf(ids, r[i]) < IndexOf(ids, r[j]) {
      DedupeInOrder(ids, i, j);
    }
  }

  // ---- Invariants ----

  ghost predicate UniqueNodes(nodes: seq<Node>) {
    forall i, j | 0 <= i < j < |nodes| :: nodes[i].id != nodes[j].id
  }

  ghost predicate UniqueEdges(edges: seq<Edge>) {
    forall i, j | 0 <= i < j < |edges| :: edges[i].id != edges[j].id
  }

  ghost predicate UniqueBoundaries(bs: seq<Boundary>) {
    forall i, j | 0 <= i < j < |bs| :: bs[i].id != bs[j].id
  }

  ghost predicate UniqueIds(g: Graph) {
    UniqueNodes(g.nodes) && UniqueEdges(g.edges) && UniqueBoundaries(g.boundaries)
  }

  ghost predicate EdgesResolve(g: Graph) {
    forall e <- g.edges :: e.source in NodeIds(g.nodes) && e.target in NodeIds(g.nodes)
  }

  ghost predicate HomesResolve(g: Graph) {
    forall n <- g.nodes :: n.home.Some? ==> n.home.value in BoundaryIds(g.boundaries)
  }

  ghost predicate MembersResolve(g: Graph) {
    forall b <- g.boundaries, id <- b.members :: id in NodeIds(g.nodes)
  }

  /** Every reference leads somewhere. */
  ghost predicate References(g: Graph) {
    EdgesResolve(g) && HomesResolve(g) && MembersResolve(g)
  }

  ghost predicate Resolved(g: Graph) {
    UniqueIds(g) && References(g)
  }

  /** The redundant links tell the same story: a node names a boundary exactly when the boundary
      lists it, and lists it once. */
  ghost predicate TwoWay(g: Graph) {
    && (forall n <- g.nodes, b <- g.boundaries :: n.home == Some(b.id) <==> n.id in b.members)
    && (forall b <- g.boundaries :: Distinct(b.members))
  }

  ghost predicate Linked(g: Graph) {
    Resolved(g) && TwoWay(g)
  }

  /** `{payload["id"]: payload["parent_boundary_id"]}`. */
  function Parents(bs: seq<Boundary>): (m: ParentMap)
    ensures m.Keys == BoundaryIds(bs)
  {
    map id | id in BoundaryIds(bs) :: bs[FindBoundary(bs, id).value].parent
  }

  ghost predicate ParentsResolve(g: Graph) {
    forall b <- g.boundaries :: b.parent.Some? ==> b.parent.value in BoundaryIds(g.boundaries)
  }

  /** In a graph with two-way links a node is listed by at most one boundary. */
  lemma AtMostOneHome(g: Graph, id: Uuid, b: Boundary, c: Boundary)
    requires Linked(g) && b in g.boundaries && c in g.boundaries
    requires id in b.members && id in c.members
    ensures b == c
  {
    assert id in NodeIds(g.nodes);
    var n :| n in g.nodes && n.id == id;
    assert n.home == Some(b.id) && n.home == Some(c.id);
  }

  lemma ParentsAt(bs: seq<Boundary>, b: Boundary)
    requires UniqueBoundaries(bs) && b in bs
    ensures Parents(bs)[b.id] == b.parent
  {
    var i :| 0 <= i < |bs| && bs[i] == b;
    assert FindBoundary(bs, b.id) == Some(i);
  }
}
