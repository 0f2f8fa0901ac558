/** Replacing a whole diagram: the validator and materialiser behind `PUT /dfd`. */
module BulkSave {
  import opened Wrappers
  import opened BoundaryForest
  import opened DfdGraph
  import opened Geometry
  import opened GraphOps
  import opened GraphTables

  datatype NodePayload = NodePayload(
    id: Option<Uuid>, nodeType: string, name: string, x: real, y: real, home: Option<Uuid>,
    scanUrl: Option<string>, scanPorts: Option<string>, props: Props)

  datatype EdgePayload = EdgePayload(id: Option<Uuid>, source: Uuid, target: Uuid, caption: string, props: Props)

  datatype BoundaryPayload = BoundaryPayload(id: Option<Uuid>, draft: BoundaryDraft)

  datatype Payload = Payload(nodes: seq<NodePayload>, edges: seq<EdgePayload>, boundaries: seq<BoundaryPayload>)

  datatype BulkError =
    | DuplicateNodeIds
    | DuplicateBoundaryIds
    | DuplicateEdgeIds
    | InvalidHomes
    | InvalidEdges
    | InvalidMembership
    | InvalidParents
    | SelfParents
    | CyclicParents

  /** `data.id or uuid4()`. */
  function Mint(id: Option<Uuid>, minted: Uuid): Uuid {
    if id.Some? then id.value else minted
  }

  function BuiltNode(p: NodePayload, minted: Uuid): Node {
    Node(Mint(p.id, minted), p.nodeType, p.name, p.x, p.y, p.home, p.scanUrl, p.scanPorts, p.props)
  }

  function BuiltEdge(p: EdgePayload, minted: Uuid): Edge {
    Edge(Mint(p.id, minted), p.source, p.target, p.caption, p.props)
  }

  function BuiltBoundary(p: BoundaryPayload, minted: Uuid, rect: Rect): Boundary {
    Boundary(Mint(p.id, minted), p.draft.name, p.draft.members, rect, p.draft.kind, p.draft.parent)
  }

  function BuiltNodes(d: Payload, mint: nat -> Uuid): (r: seq<Node>)
    ensures |r| == |d.nodes|
  {
    seq(|d.nodes|, i requires 0 <= i < |d.nodes| => BuiltNode(d.nodes[i], mint(i)))
  }

  function BuiltEdges(d: Payload, mint: nat -> Uuid): (r: seq<Edge>)
    ensures |r| == |d.edges|
  {
    seq(|d.edges|, i requires 0 <= i < |d.edges| => BuiltEdge(d.edges[i], mint(|d.nodes| + |d.boundaries| + i)))
  }

  /** The boundaries before their geometry is resolved. */
  function DraftBoundaries(d: Payload, mint: nat -> Uuid): (r: seq<Boundary>)
    ensures |r| == |d.boundaries|
  {
    seq(|d.boundaries|, i requires 0 <= i < |d.boundaries| =>
      BuiltBoundary(d.boundaries[i], mint(|d.nodes| + i), Rect(0.0, 0.0, 0.0, 0.0)))
  }

  function DraftGraph(d: Payload, mint: nat -> Uuid): Graph {
    Graph(BuiltNodes(d, mint), BuiltEdges(d, mint), DraftBoundaries(d, mint))
  }

  /** What a bulk save demands: unique ids, every reference resolves, and parents form a forest. */
  ghost predicate WellFormed(g: Graph) {
    Resolved(g) && ParentsResolve(g) && Acyclic(Parents(g.boundaries))
  }

  /** Omitted coordinates come from the members' positions. */
  function ResolvedBoundary(p: BoundaryPayload, minted: Uuid, nodes: seq<Node>): Boundary
    requires forall id <- p.draft.members :: id in NodeIds(nodes)
  {
    BuiltBoundary(p, minted, ResolveGeometry(p.draft.rect, Positions(nodes, p.draft.members)))
  }

  // ---- `len({ids}) != len(payloads)` detects exactly the duplicates ----

  lemma NodeIdCount(nodes: seq<Node>)
    ensures |NodeIds(nodes)| == |nodes| <==> UniqueNodes(nodes)
  {
    var ids := seq(|nodes|, i requires 0 <= i < |nodes| => nodes[i].id);
    DistinctCount(ids);
    assert Distinct(ids) <==> UniqueNodes(nodes) by {
      if Distinct(ids) {
        forall i, j | 0 <= i < j < |nodes| ensures nodes[i].id != nodes[j].id {
          assert ids[i] != ids[j];
        }
      }
    }
    assert NodeIds(nodes) == Elements(ids) by {
      forall n <- nodes ensures n.id in ids {
        var i :| 0 <= i < |nodes| && nodes[i] == n;
        assert ids[i] == n.id;
      }
    }
  }

  lemma EdgeIdCount(edges: seq<Edge>)
    ensures |EdgeIds(edges)| == |edges| <==> UniqueEdges(edges)
  {
    var ids := seq(|edges|, i requires 0 <= i < |edges| => edges[i].id);
    DistinctCount(ids);
    assert Distinct(ids) <==> UniqueEdges(edges) by {
      if Distinct(ids) {
        forall i, j | 0 <= i < j < |edges| ensures edges[i].id != edges[j].id {
          assert ids[i] != ids[j];
        }
      }
    }
    assert EdgeIds(edges) == Elements(ids) by {
      forall e <- edges ensures e.id in ids {
        var i :| 0 <= i < |edges| && edges[i] == e;
        assert ids[i] == e.id;
      }
    }
  }

  lemma BoundaryIdCount(bs: seq<Boundary>)
    ensures |BoundaryIds(bs)| == |bs| <==> UniqueBoundaries(bs)
  {
    var ids := seq(|bs|, i requires 0 <= i < |bs| => bs[i].id);
    DistinctCount(ids);
    assert Distinct(ids) <==> UniqueBoundaries(bs) by {
      if Distinct(ids) {
        forall i, j | 0 <= i < j < |bs| ensures bs[i].id != bs[j].id {
          assert ids[i] != ids[j];
        }
      }
    }
    assert BoundaryIds(bs) == Elements(ids) by {
      forall b <- bs ensures b.id in ids {
        var i :| 0 <= i < |bs| && bs[i] == b;
        assert ids[i] == b.id;
      }
    }
  }

  lemma SelfParentIsCycle(bs: seq<Boundary>, b: Boundary)
    requires UniqueBoundaries(bs) && b in bs && b.parent == Some(b.id)
    ensures !Acyclic(Parents(bs))
  {
    var m := Parents(bs);
    ParentsAt(bs, b);
    assert Ancestor(m, b.id, 1) == Ancestor(m, b.id, 0);
    assert Reaches(m, b.id, b.id);
    ReachesSelfNeverEnds(m, b.id);
  }

  /** The first rule the payload breaks, in the order in which they are announced. */
  ghost function FirstFault(g: Graph): Option<BulkError> {
    if !UniqueNodes(g.nodes) then Some(DuplicateNodeIds)
    else if !UniqueBoundaries(g.boundaries) then Some(DuplicateBoundaryIds)
    else if !UniqueEdges(g.edges) then Some(DuplicateEdgeIds)
    else if !HomesResolve(g) then Some(InvalidHomes)
    else if !EdgesResolve(g) then Some(InvalidEdges)
    else if !MembersResolve(g) then Some(InvalidMembership)
    else if !ParentsResolve(g) then Some(InvalidParents)
    else if exists b <- g.boundaries :: b.parent == Some(b.id) then Some(SelfParents)
    else if HasCycle(Parents(g.boundaries)) then Some(CyclicParents)
    else None
  }

  method CheckParents(bs: seq<Boundary>) returns (ok: bool)
    ensures ok <==> Acyclic(Parents(bs))
  {
    var keys := seq(|bs|, i requires 0 <= i < |bs| => bs[i].id);
    forall id ensures id in keys <==> id in BoundaryIds(bs) {
      if id in BoundaryIds(bs) {
        var i := FindBoundary(bs, id).value;
        assert keys[i] == id;
      }
      if id in keys {
        var i :| 0 <= i < |keys| && keys[i] == id;
        assert bs[i] in bs;
      }
    }
    ok := EnsureNoBoundaryParentCycles(Parents(bs), keys);
  }

  method CheckDuplicates(g: Graph) returns (e: Option<BulkError>)
    ensures e == None <==> UniqueIds(g)
    ensures e.Some? ==> e == FirstFault(g)
  {
    NodeIdCount(g.nodes);
    BoundaryIdCount(g.boundaries);
    EdgeIdCount(g.edges);
    if |NodeIds(g.nodes)| != |g.nodes| { return Some(DuplicateNodeIds); }
    if |BoundaryIds(g.boundaries)| != |g.boundaries| { return Some(DuplicateBoundaryIds); }
    if |EdgeIds(g.edges)| != |g.edges| { return Some(DuplicateEdgeIds); }
    e := None;
  }

  method CheckReferences(g: Graph) returns (e: Option<BulkError>)
    requires UniqueIds(g)
    ensures e == None <==> HomesResolve(g) && EdgesResolve(g) && MembersResolve(g) && ParentsResolve(g)
    ensures e.Some? ==> e == FirstFault(g)
  {
    if exists n <- g.nodes :: n.home.Some? && n.home.value !in BoundaryIds(g.boundaries) {
      return Some(InvalidHomes);
    }
    if exists e <- g.edges :: e.source !in NodeIds(g.nodes) || e.target !in NodeIds(g.nodes) {
      return Some(InvalidEdges);
    }
    if exists b <- g.boundaries :: exists id <- b.members :: id !in NodeIds(g.nodes) {
      return Some(InvalidMembership);
    }
    if exists b <- g.boundaries :: b.parent.Some? && b.parent.value !in BoundaryIds(g.boundaries) {
      return Some(InvalidParents);
    }
    e := None;
  }

  /** Accepts exactly the well-formed payloads, and tells the others the first rule they break. */
  method Validate(g: Graph) returns (e: Option<BulkError>)
    ensures e == None <==> WellFormed(g)
    ensures e == FirstFault(g)
  {
    e := CheckDuplicates(g);
    if e.Some? { return; }
    e := CheckReferences(g);
    if e.Some? { return; }
    if exists b <- g.boundaries :: b.parent == Some(b.id) {
      ghost var b :| b in g.boundaries && b.parent == Some(b.id);
      SelfParentIsCycle(g.boundaries, b);
      return Some(SelfParents);
    }
    var forest := CheckParents(g.boundaries);
    AcyclicIffNoCycle(Parents(g.boundaries));
    e := if forest then None else Some(CyclicParents);
  }

  ghost predicate MembersKnown(d: Payload, mint: nat -> Uuid) {
    forall p <- d.boundaries, id <- p.draft.members :: id in NodeIds(BuiltNodes(d, mint))
  }

  lemma MembersKnownIfResolve(d: Payload, mint: nat -> Uuid)
    requires MembersResolve(DraftGraph(d, mint))
    ensures MembersKnown(d, mint)
  {
    var bs := DraftBoundaries(d, mint);
    forall p <- d.boundaries, id <- p.draft.members ensures id in NodeIds(BuiltNodes(d, mint)) {
      var i :| 0 <= i < |d.boundaries| && d.boundaries[i] == p;
      assert bs[i] in bs && id in bs[i].members;
    }
  }

  function ResolvedBoundaries(ps: seq<BoundaryPayload>, offset: nat, mint: nat -> Uuid,
                              nodes: seq<Node>): (r: seq<Boundary>)
    requires forall p <- ps, id <- p.draft.members :: id in NodeIds(nodes)
    ensures |r| == |ps|
    ensures forall i | 0 <= i < |ps| :: r[i] == ResolvedBoundary(ps[i], mint(offset + i), nodes)
  {
    seq(|ps|, i requires 0 <= i < |ps| => ResolvedBoundary(ps[i], mint(offset + i), nodes))
  }

  function Materialized(d: Payload, mint: nat -> Uuid): (g: Graph)
    requires MembersKnown(d, mint)
    ensures |g.boundaries| == |d.boundaries|
  {
    var nodes := BuiltNodes(d, mint);
    Graph(nodes, BuiltEdges(d, mint), ResolvedBoundaries(d.boundaries, |d.nodes|, mint, nodes))
  }

  /** The loop that fills in each boundary's rectangle. */
  method ResolveAll(ps: seq<BoundaryPayload>, offset: nat, mint: nat -> Uuid, nodes: seq<Node>)
    returns (bs: seq<Boundary>)
    requires forall p <- ps, id <- p.draft.members :: id in NodeIds(nodes)
    ensures bs == ResolvedBoundaries(ps, offset, mint, nodes)
  {
    bs := [];
    for i := 0 to |ps|
      invariant |bs| == i
      invariant forall k | 0 <= k < i :: bs[k] == ResolvedBoundary(ps[k], mint(offset + k), nodes)
    {
      bs := bs + [ResolvedBoundary(ps[i], mint(offset + i), nodes)];
    }
  }

  /** The stored node is the payload's, field by field. */
  ghost predicate NodeAsSent(n: Node, p: NodePayload) {
    && (p.id.Some? ==> n.id == p.id.value)
    && n.nodeType == p.nodeType && n.name == p.name && n.x == p.x && n.y == p.y && n.home == p.home
    && n.scanUrl == p.scanUrl && n.scanPorts == p.scanPorts && n.props == p.props
  }

  ghost predicate EdgeAsSent(e: Edge, p: EdgePayload) {
    && (p.id.Some? ==> e.id == p.id.value)
    && e.source == p.source && e.target == p.target && e.caption == p.caption && e.props == p.props
  }

  /** The stored boundary is the payload's; a coordinate that was left out may be anything here. */
  ghost predicate BoundaryAsSent(b: Boundary, p: BoundaryPayload) {
    && (p.id.Some? ==> b.id == p.id.value)
    && b.name == p.draft.name && b.members == p.draft.members
    && b.kind == p.draft.kind && b.parent == p.draft.parent && KeepsGiven(b.rect, p.draft.rect)
  }

  /** An accepted save stores what was sent, position by position. */
  ghost predicate StoredAsSent(g: Graph, d: Payload) {
    && |g.nodes| == |d.nodes| && |g.edges| == |d.edges| && |g.boundaries| == |d.boundaries|
    && (forall i | 0 <= i < |d.nodes| :: NodeAsSent(g.nodes[i], d.nodes[i]))
    && (forall i | 0 <= i < |d.edges| :: EdgeAsSent(g.edges[i], d.edges[i]))
    && (forall i | 0 <= i < |d.boundaries| :: BoundaryAsSent(g.boundaries[i], d.boundaries[i]))
  }

  lemma NodesAsSent(d: Payload, mint: nat -> Uuid, i: nat)
    requires i < |d.nodes|
    ensures NodeAsSent(BuiltNodes(d, mint)[i], d.nodes[i])
  {
    assert BuiltNodes(d, mint)[i] == BuiltNode(d.nodes[i], mint(i));
  }

  lemma EdgesAsSent(d: Payload, mint: nat -> Uuid, i: nat)
    requires i < |d.edges|
    ensures EdgeAsSent(BuiltEdges(d, mint)[i], d.edges[i])
  {
    assert BuiltEdges(d, mint)[i] == BuiltEdge(d.edges[i], mint(|d.nodes| + |d.boundaries| + i));
  }

  lemma ResolvedAsSent(p: BoundaryPayload, minted: Uuid, nodes: seq<Node>)
    requires forall id <- p.draft.members :: id in NodeIds(nodes)
    ensures BoundaryAsSent(ResolvedBoundary(p, minted, nodes), p)
  {
    GivenCoordinatesStay(p.draft.rect, Positions(nodes, p.draft.members));
  }

  lemma BoundariesAsSent(ps: seq<BoundaryPayload>, offset: nat, mint: nat -> Uuid, nodes: seq<Node>, i: nat)
    requires (forall p <- ps, id <- p.draft.members :: id in NodeIds(nodes)) && i < |ps|
    ensures BoundaryAsSent(ResolvedBoundaries(ps, offset, mint, nodes)[i], ps[i])
  {
    ResolvedAsSent(ps[i], mint(offset + i), nodes);
  }

  lemma MaterializedAsSent(d: Payload, mint: nat -> Uuid)
    requires MembersKnown(d, mint)
    ensures StoredAsSent(Materialized(d, mint), d)
  {
    forall i | 0 <= i < |d.nodes| ensures NodeAsSent(BuiltNodes(d, mint)[i], d.nodes[i]) {
      NodesAsSent(d, mint, i);
    }
    forall i | 0 <= i < |d.edges| ensures EdgeAsSent(BuiltEdges(d, mint)[i], d.edges[i]) {
      EdgesAsSent(d, mint, i);
    }
    var bs := ResolvedBoundaries(d.boundaries, |d.nodes|, mint, BuiltNodes(d, mint));
    forall i | 0 <= i < |d.boundaries| ensures BoundaryAsSent(bs[i], d.boundaries[i]) {
      BoundariesAsSent(d.boundaries, |d.nodes|, mint, BuiltNodes(d, mint), i);
    }
  }

  /** `_materialize_dfd_response_from_bulk_save`. */
  method Materialize(d: Payload, mint: nat -> Uuid) returns (r: Result<Graph, BulkError>)
    ensures r.Ok? <==> WellFormed(DraftGraph(d, mint))
    ensures r.Ok? ==> StoredAsSent(r.value, d)
    ensures r.Ok? ==> MembersKnown(d, mint) && r.value == Materialized(d, mint)
    ensures r.Err? ==> Some(r.error) == FirstFault(DraftGraph(d, mint))
  {
    var refusal := Validate(DraftGraph(d, mint));
    if refusal.Some? {
      return Err(refusal.value);
    }
    MembersKnownIfResolve(d, mint);
    MaterializedAsSent(d, mint);
    var boundaries := ResolveAll(d.boundaries, |d.nodes|, mint, BuiltNodes(d, mint));
    return Ok(Graph(BuiltNodes(d, mint), BuiltEdges(d, mint), boundaries));
  }

  // ---- What an accepted save leaves behind ----

  lemma OnlyRectsDiffer(d: Payload, mint: nat -> Uuid, g: Graph, g': Graph)
    requires g == DraftGraph(d, mint) && MembersKnown(d, mint) && g' == Materialized(d, mint)
    ensures g'.nodes == g.nodes && g'.edges == g.edges && SameButRects(g.boundaries, g'.boundaries)
  {
    RectsOnly(d.boundaries, |d.nodes|, mint, BuiltNodes(d, mint), DraftBoundaries(d, mint));
  }

  /** Filling in rectangles changes no reference, so an accepted save is well formed as a whole. */
  lemma MaterializedWellFormed(d: Payload, mint: nat -> Uuid)
    requires WellFormed(DraftGraph(d, mint))
    ensures MembersKnown(d, mint) && WellFormed(Materialized(d, mint))
  {
    MembersKnownIfResolve(d, mint);
    var g, g' := DraftGraph(d, mint), Materialized(d, mint);
    OnlyRectsDiffer(d, mint, g, g');
    SameLinks(g, g');
  }

  lemma RectsOnly(ps: seq<BoundaryPayload>, offset: nat, mint: nat -> Uuid, nodes: seq<Node>, drafts: seq<Boundary>)
    requires forall p <- ps, id <- p.draft.members :: id in NodeIds(nodes)
    requires |drafts| == |ps|
    requires forall i | 0 <= i < |ps| :: drafts[i] == BuiltBoundary(ps[i], mint(offset + i), Rect(0.0, 0.0, 0.0, 0.0))
    ensures SameButRects(drafts, ResolvedBoundaries(ps, offset, mint, nodes))
  {}

  lemma SameLinks(g: Graph, g': Graph)
    requires WellFormed(g) && g'.nodes == g.nodes && g'.edges == g.edges
    requires SameButRects(g.boundaries, g'.boundaries)
    ensures WellFormed(g')
  {
    SameRectIds(g.boundaries, g'.boundaries);
    SameIds(g.boundaries, g'.boundaries);
    SameRectParents(g.boundaries, g'.boundaries);
    forall b' <- g'.boundaries ensures exists b <- g.boundaries :: b.members == b'.members && b.parent == b'.parent {
      var i :| 0 <= i < |g'.boundaries| && g'.boundaries[i] == b';
      assert g.boundaries[i] in g.boundaries;
    }
  }

  lemma SameStory(g: Graph, g': Graph)
    requires g'.nodes == g.nodes && SameButRects(g.boundaries, g'.boundaries)
    ensures TwoWay(g) <==> TwoWay(g')
  {
    forall k | 0 <= k < |g.boundaries|
      ensures g'.boundaries[k].id == g.boundaries[k].id && g'.boundaries[k].members == g.boundaries[k].members
    {
      assert g'.boundaries[k].(rect := g.boundaries[k].rect) == g.boundaries[k];
    }
    if TwoWay(g) { StoryCarried(g, g'); }
    if TwoWay(g') { StoryCarried(g', g); }
  }

  lemma StoryCarried(g: Graph, g': Graph)
    requires TwoWay(g) && g'.nodes == g.nodes && |g'.boundaries| == |g.boundaries|
    requires forall k | 0 <= k < |g.boundaries| ::
               g'.boundaries[k].id == g.boundaries[k].id && g'.boundaries[k].members == g.boundaries[k].members
    ensures TwoWay(g')
  {
    forall b' <- g'.boundaries ensures exists b <- g.boundaries :: b.id == b'.id && b.members == b'.members {
      var k :| 0 <= k < |g'.boundaries| && g'.boundaries[k] == b';
      assert g.boundaries[k] in g.boundaries;
    }
  }

  /** A save the validator accepts leaves consistent links exactly when the payload itself tells one story:
      each node names the boundary that lists it, once. */
  lemma SavedLinkedIff(d: Payload, mint: nat -> Uuid)
    requires WellFormed(DraftGraph(d, mint))
    ensures MembersKnown(d, mint) && (Linked(Materialized(d, mint)) <==> TwoWay(DraftGraph(d, mint)))
  {
    MaterializedWellFormed(d, mint);
    var g, g' := DraftGraph(d, mint), Materialized(d, mint);
    OnlyRectsDiffer(d, mint, g, g');
    SameStory(g, g');
  }

  ghost predicate SameButRects(bs: seq<Boundary>, bs': seq<Boundary>) {
    |bs'| == |bs| && forall i | 0 <= i < |bs| :: bs'[i].(rect := bs[i].rect) == bs[i]
  }

  lemma SameRectIds(bs: seq<Boundary>, bs': seq<Boundary>)
    requires SameButRects(bs, bs')
    ensures SameIdsAt(bs, bs')
  {
    forall i | 0 <= i < |bs| ensures bs'[i].id == bs[i].id {}
  }

  lemma SameRectParents(bs: seq<Boundary>, bs': seq<Boundary>)
    requires SameButRects(bs, bs')
    ensures Parents(bs') == Parents(bs)
  {
    SameRectIds(bs, bs');
    SameIds(bs, bs');
    forall id | id in BoundaryIds(bs) ensures Parents(bs')[id] == Parents(bs)[id] {
      SameFind(bs, bs', id);
      var i := FindBoundary(bs, id).value;
      assert bs'[i].(rect := bs[i].rect) == bs[i];
    }
  }

  /** The rectangle leaves every member node's box its margin. */
  ghost predicate HoldsMembers(r: Rect, nodes: seq<Node>, members: seq<Uuid>) {
    forall n <- nodes | n.id in members :: HoldsBox(r, Point(n.x, n.y))
  }

  lemma MemberPosition(nodes: seq<Node>, members: seq<Uuid>, n: Node)
    requires UniqueNodes(nodes) && n in nodes && n.id in members
    requires forall id <- members :: id in NodeIds(nodes)
    ensures Point(n.x, n.y) in Positions(nodes, members)
  {
    var k :| 0 <= k < |members| && members[k] == n.id;
    var j :| 0 <= j < |nodes| && nodes[j] == n;
    assert FindNode(nodes, n.id) == Some(j);
    assert Positions(nodes, members)[k] == Point(n.x, n.y);
  }

  lemma PositionOf(nodes: seq<Node>, members: seq<Uuid>, p: Point) returns (n: Node)
    requires forall id <- members :: id in NodeIds(nodes)
    requires p in Positions(nodes, members)
    ensures n in nodes && n.id in members && p == Point(n.x, n.y)
  {
    var k :| 0 <= k < |members| && Positions(nodes, members)[k] == p;
    n := nodes[FindNode(nodes, members[k]).value];
  }

  lemma TightAroundMembers(nodes: seq<Node>, members: seq<Uuid>, other: Rect)
    requires UniqueNodes(nodes) && members != [] && forall id <- members :: id in NodeIds(nodes)
    ensures var r := ResolveGeometry(NO_RECT, Positions(nodes, members));
            HoldsMembers(r, nodes, members) && (HoldsMembers(other, nodes, members) ==> Within(r, other))
  {
    var ps := Positions(nodes, members);
    OmittedGeometryIsTight(ps, other);
    assert HoldsMembers(ResolveGeometry(NO_RECT, ps), nodes, members) by {
      forall n <- nodes | n.id in members ensures Point(n.x, n.y) in ps {
        MemberPosition(nodes, members, n);
      }
    }
    if HoldsMembers(other, nodes, members) {
      forall p <- ps ensures HoldsBox(other, p) {
        var n := PositionOf(nodes, members, p);
      }
    }
  }

  /** Every boundary saved without geometry and with a member is drawn as the smallest rectangle that
      leaves each member's box its margin. */
  lemma SavedGeometryIsTight(d: Payload, mint: nat -> Uuid, i: nat, other: Rect)
    requires UniqueNodes(BuiltNodes(d, mint)) && MembersKnown(d, mint) && i < |d.boundaries|
    requires d.boundaries[i].draft.rect == NO_RECT && d.boundaries[i].draft.members != []
    ensures var g, b := Materialized(d, mint), Materialized(d, mint).boundaries[i];
            b.members == d.boundaries[i].draft.members && HoldsMembers(b.rect, g.nodes, b.members)
            && (HoldsMembers(other, g.nodes, b.members) ==> Within(b.rect, other))
  {
    var nodes, draft := BuiltNodes(d, mint), d.boundaries[i].draft;
    assert d.boundaries[i] in d.boundaries;
    TightAroundMembers(nodes, draft.members, other);
    var b := ResolvedBoundary(d.boundaries[i], mint(|d.nodes| + i), nodes);
    assert b.rect == ResolveGeometry(NO_RECT, Positions(nodes, draft.members));
  }

  /** The ids the client wrote into a list of payloads. */
  function Given(ids: seq<Option<Uuid>>): set<Uuid> {
    set i | 0 <= i < |ids| && ids[i].Some? :: ids[i].value
  }

  /** Only ids the client wrote itself repeat. */
  ghost predicate GivenDistinct(ids: seq<Option<Uuid>>) {
    forall i, j | 0 <= i < j < |ids| && ids[i].Some? :: ids[i] != ids[j]
  }

  lemma MintedDistinctIff(ids: seq<Option<Uuid>>, mint: nat -> Uuid, offset: nat, built: seq<Uuid>)
    requires FreshSupply(mint, Given(ids)) && |built| == |ids|
    requires forall i | 0 <= i < |ids| :: built[i] == Mint(ids[i], mint(offset + i))
    ensures Distinct(built) <==> GivenDistinct(ids)
  {
    forall i, j | 0 <= i < j < |ids| ensures built[i] == built[j] <==> ids[i].Some? && ids[i] == ids[j] {
      assert mint(offset + i) != mint(offset + j);
      assert ids[i].Some? ==> ids[i].value in Given(ids);
      assert ids[j].Some? ==> ids[j].value in Given(ids);
    }
  }

  function NodeGivens(d: Payload): seq<Option<Uuid>> {
    seq(|d.nodes|, i requires 0 <= i < |d.nodes| => d.nodes[i].id)
  }

  function EdgeGivens(d: Payload): seq<Option<Uuid>> {
    seq(|d.edges|, i requires 0 <= i < |d.edges| => d.edges[i].id)
  }

  function BoundaryGivens(d: Payload): seq<Option<Uuid>> {
    seq(|d.boundaries|, i requires 0 <= i < |d.boundaries| => d.boundaries[i].id)
  }

  lemma NodesClashIff(d: Payload, mint: nat -> Uuid)
    requires FreshSupply(mint, Given(NodeGivens(d)))
    ensures UniqueNodes(BuiltNodes(d, mint)) <==> GivenDistinct(NodeGivens(d))
  {
    var nodes := BuiltNodes(d, mint);
    var built := seq(|nodes|, i requires 0 <= i < |nodes| => nodes[i].id);
    assert forall i: nat | i < |nodes| :: mint(i) == mint(0 + i);
    MintedDistinctIff(NodeGivens(d), mint, 0, built);
    forall i | 0 <= i < |nodes| ensures built[i] == nodes[i].id {}
  }

  lemma EdgesClashIff(d: Payload, mint: nat -> Uuid)
    requires FreshSupply(mint, Given(EdgeGivens(d)))
    ensures UniqueEdges(BuiltEdges(d, mint)) <==> GivenDistinct(EdgeGivens(d))
  {
    var edges := BuiltEdges(d, mint);
    var built := seq(|edges|, i requires 0 <= i < |edges| => edges[i].id);
    MintedDistinctIff(EdgeGivens(d), mint, |d.nodes| + |d.boundaries|, built);
    forall i | 0 <= i < |edges| ensures built[i] == edges[i].id {}
  }

  lemma BoundariesClashIff(d: Payload, mint: nat -> Uuid)
    requires FreshSupply(mint, Given(BoundaryGivens(d)))
    ensures UniqueBoundaries(DraftBoundaries(d, mint)) <==> GivenDistinct(BoundaryGivens(d))
  {
    var bs := DraftBoundaries(d, mint);
    var built := seq(|bs|, i requires 0 <= i < |bs| => bs[i].id);
    MintedDistinctIff(BoundaryGivens(d), mint, |d.nodes|, built);
    forall i | 0 <= i < |bs| ensures built[i] == bs[i].id {}
  }

  /** With minted ids as unpredictable as `uuid4`'s, only ids the client wrote itself can clash, in all three lists. */
  lemma OnlyGivenIdsClash(d: Payload, mint: nat -> Uuid)
    requires FreshSupply(mint, Given(NodeGivens(d)) + Given(EdgeGivens(d)) + Given(BoundaryGivens(d)))
    ensures UniqueIds(DraftGraph(d, mint)) <==>
            GivenDistinct(NodeGivens(d)) && GivenDistinct(EdgeGivens(d)) && GivenDistinct(BoundaryGivens(d))
  {
    var used := Given(NodeGivens(d)) + Given(EdgeGivens(d)) + Given(BoundaryGivens(d));
    forall i: nat
      ensures mint(i) !in Given(NodeGivens(d)) && mint(i) !in Given(EdgeGivens(d))
      ensures mint(i) !in Given(BoundaryGivens(d))
    {
      assert mint(i) !in used;
    }
    NodesClashIff(d, mint);
    EdgesClashIff(d, mint);
    BoundariesClashIff(d, mint);
  }
}
