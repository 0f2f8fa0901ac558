/** The simple model behind the graph document: three keyed tables in which a node's home is the
    only record of membership.  Every editor request on a linked graph is the matching table
    update, and leaves the redundant links consistent. */
module GraphTables {
  import opened Wrappers
  import opened DfdGraph
  import opened Membership
  import opened GraphOps

  datatype Tables = Tables(nodes: map<Uuid, Node>, edges: map<Uuid, Edge>, boundaries: map<Uuid, Boundary>)

  function NodeTable(nodes: seq<Node>): (t: map<Uuid, Node>)
    ensures t.Keys == NodeIds(nodes)
  {
    map id | id in NodeIds(nodes) :: nodes[FindNode(nodes, id).value]
  }

  function EdgeTable(edges: seq<Edge>): (t: map<Uuid, Edge>)
    ensures t.Keys == EdgeIds(edges)
  {
    map id | id in EdgeIds(edges) :: edges[FindEdge(edges, id).value]
  }

  /** Boundary records without their member lists. */
  function BoundaryTable(bs: seq<Boundary>): (t: map<Uuid, Boundary>)
    ensures t.Keys == BoundaryIds(bs)
  {
    map id | id in BoundaryIds(bs) :: bs[FindBoundary(bs, id).value].(members := [])
  }

  function TablesOf(g: Graph): Tables {
    Tables(NodeTable(g.nodes), EdgeTable(g.edges), BoundaryTable(g.boundaries))
  }

  lemma NodeTableIs(nodes: seq<Node>, t: map<Uuid, Node>)
    requires UniqueNodes(nodes) && t.Keys == NodeIds(nodes)
    requires forall n <- nodes :: n.id in t && t[n.id] == n
    ensures NodeTable(nodes) == t
  {
    forall id | id in t ensures NodeTable(nodes)[id] == t[id] {
      assert nodes[FindNode(nodes, id).value] in nodes;
    }
  }

  lemma EdgeTableIs(edges: seq<Edge>, t: map<Uuid, Edge>)
    requires UniqueEdges(edges) && t.Keys == EdgeIds(edges)
    requires forall e <- edges :: e.id in t && t[e.id] == e
    ensures EdgeTable(edges) == t
  {
    forall id | id in t ensures EdgeTable(edges)[id] == t[id] {
      assert edges[FindEdge(edges, id).value] in edges;
    }
  }

  lemma BoundaryTableIs(bs: seq<Boundary>, t: map<Uuid, Boundary>)
    requires UniqueBoundaries(bs) && t.Keys == BoundaryIds(bs)
    requires forall b <- bs :: b.id in t && t[b.id] == b.(members := [])
    ensures BoundaryTable(bs) == t
  {
    forall id | id in t ensures BoundaryTable(bs)[id] == t[id] {
      assert bs[FindBoundary(bs, id).value] in bs;
    }
  }

  lemma NodeRow(nodes: seq<Node>, n: Node)
    requires UniqueNodes(nodes) && n in nodes
    ensures n.id in NodeTable(nodes) && NodeTable(nodes)[n.id] == n
  {
    var i :| 0 <= i < |nodes| && nodes[i] == n;
    assert FindNode(nodes, n.id) == Some(i);
  }

  lemma EdgeRow(edges: seq<Edge>, e: Edge)
    requires UniqueEdges(edges) && e in edges
    ensures e.id in EdgeTable(edges) && EdgeTable(edges)[e.id] == e
  {
    var i :| 0 <= i < |edges| && edges[i] == e;
    assert FindEdge(edges, e.id) == Some(i);
  }

  lemma BoundaryRow(bs: seq<Boundary>, b: Boundary)
    requires UniqueBoundaries(bs) && b in bs
    ensures b.id in BoundaryTable(bs) && BoundaryTable(bs)[b.id] == b.(members := [])
  {
    var i :| 0 <= i < |bs| && bs[i] == b;
    assert FindBoundary(bs, b.id) == Some(i);
  }

  // ---- Membership moves ----

  /** `bs'` is `bs` with other member lists. */
  ghost predicate SameButMembers(bs: seq<Boundary>, bs': seq<Boundary>) {
    |bs'| == |bs| && forall i | 0 <= i < |bs| :: bs'[i].(members := bs[i].members) == bs[i]
  }

  /** Position by position the same ids: the same id set and the same lookups. */
  ghost predicate SameIdsAt(bs: seq<Boundary>, bs': seq<Boundary>) {
    |bs'| == |bs| && forall i | 0 <= i < |bs| :: bs'[i].id == bs[i].id
  }

  lemma SameIds(bs: seq<Boundary>, bs': seq<Boundary>)
    requires SameIdsAt(bs, bs')
    ensures BoundaryIds(bs') == BoundaryIds(bs)
    ensures UniqueBoundaries(bs) <==> UniqueBoundaries(bs')
  {
    forall b <- bs ensures b.id in BoundaryIds(bs') {
      var i :| 0 <= i < |bs| && bs[i] == b;
      assert bs'[i] in bs';
    }
    forall b <- bs' ensures b.id in BoundaryIds(bs) {
      var i :| 0 <= i < |bs'| && bs'[i] == b;
      assert bs[i] in bs;
    }
  }

  lemma SameFind(bs: seq<Boundary>, bs': seq<Boundary>, id: Uuid)
    requires SameIdsAt(bs, bs') && id in BoundaryIds(bs)
    ensures BoundaryIds(bs') == BoundaryIds(bs)
    ensures FindBoundary(bs', id) == FindBoundary(bs, id)
  {
    SameIds(bs, bs');
    var i, j := FindBoundary(bs, id).value, FindBoundary(bs', id).value;
    assert bs'[i].id == bs[i].id && bs'[j].id == bs[j].id;
  }

  lemma SameButMembersIds(bs: seq<Boundary>, bs': seq<Boundary>)
    requires SameButMembers(bs, bs')
    ensures SameIdsAt(bs, bs')
  {
    forall i | 0 <= i < |bs| ensures bs'[i].id == bs[i].id {}
  }

  lemma SameRow(b: Boundary, b': Boundary)
    requires b'.(members := b.members) == b
    ensures b'.(members := []) == b.(members := []) && b'.parent == b.parent
  {
    assert b'.(members := []) == b'.(members := b.members).(members := []);
  }

  lemma SameRowAt(bs: seq<Boundary>, bs': seq<Boundary>, id: Uuid)
    requires SameButMembers(bs, bs') && id in BoundaryIds(bs)
    ensures id in BoundaryIds(bs')
    ensures BoundaryTable(bs')[id] == BoundaryTable(bs)[id] && Parents(bs')[id] == Parents(bs)[id]
  {
    SameButMembersIds(bs, bs');
    SameFind(bs, bs', id);
    var i := FindBoundary(bs, id).value;
    SameRow(bs[i], bs'[i]);
  }

  /** Rewriting member lists leaves the boundary records themselves alone. */
  lemma SameRecords(bs: seq<Boundary>, bs': seq<Boundary>)
    requires SameButMembers(bs, bs')
    ensures BoundaryIds(bs') == BoundaryIds(bs)
    ensures BoundaryTable(bs') == BoundaryTable(bs) && Parents(bs') == Parents(bs)
  {
    assert BoundaryIds(bs') == BoundaryIds(bs) by {
      SameButMembersIds(bs, bs');
      SameIds(bs, bs');
    }
    forall id | id in BoundaryIds(bs)
      ensures BoundaryTable(bs')[id] == BoundaryTable(bs)[id] && Parents(bs')[id] == Parents(bs)[id]
    {
      SameRowAt(bs, bs', id);
    }
  }

  /** The member list of every boundary after a sync, in either mode, when no boundary lists the
      node without the node naming it. */
  lemma SyncPointwise(mode: Mode, bs: seq<Boundary>, id: Uuid, current: Option<Uuid>, home: Option<Uuid>, i: nat)
    requires UniqueBoundaries(bs) && i < |bs|
    requires forall b <- bs :: id in b.members ==> current == Some(b.id)
    ensures Sync(mode, bs, id, current, home)[i] == bs[i].(members := ScannedMembers(bs[i], id, home))
  {
    FullScanPointwise(bs, id, home, i);
    SyncsAgreeIff(bs, id, current, home);
  }

  /** Every boundary's list after a sync, as `SyncPointwise` states it. */
  ghost predicate Synced(bs: seq<Boundary>, bs': seq<Boundary>, id: Uuid, home: Option<Uuid>) {
    |bs'| == |bs|
    && forall k | 0 <= k < |bs| :: bs'[k] == bs[k].(members := ScannedMembers(bs[k], id, home))
  }

  lemma SyncLinked(mode: Mode, g: Graph, n: Node, home: Option<Uuid>)
    requires Linked(g) && n in g.nodes
    ensures Synced(g.boundaries, Sync(mode, g.boundaries, n.id, n.home, home), n.id, home)
  {
    forall k | 0 <= k < |g.boundaries|
      ensures Sync(mode, g.boundaries, n.id, n.home, home)[k]
           == g.boundaries[k].(members := ScannedMembers(g.boundaries[k], n.id, home))
    {
      SyncPointwise(mode, g.boundaries, n.id, n.home, home, k);
    }
  }

  lemma SyncedMembers(bs: seq<Boundary>, bs': seq<Boundary>, id: Uuid, home: Option<Uuid>, b': Boundary)
    returns (b: Boundary)
    requires Synced(bs, bs', id, home) && b' in bs'
    ensures b in bs && b'.id == b.id && b'.members == ScannedMembers(b, id, home)
  {
    var k :| 0 <= k < |bs'| && bs'[k] == b';
    b := bs[k];
  }

  lemma ReplacedAt(nodes: seq<Node>, i: nat, n: Node, m: Node) returns (j: nat)
    requires UniqueNodes(nodes) && i < |nodes| && n.id == nodes[i].id && m in nodes[i := n]
    ensures j < |nodes| && nodes[j].id == m.id
    ensures if j == i then m == n else m == nodes[j] && m.id != n.id
  {
    j :| 0 <= j < |nodes| && nodes[i := n][j] == m;
  }

  lemma ReplacedIds(nodes: seq<Node>, i: nat, n: Node)
    requires i < |nodes| && n.id == nodes[i].id
    ensures UniqueNodes(nodes) ==> UniqueNodes(nodes[i := n])
    ensures NodeIds(nodes[i := n]) == NodeIds(nodes)
  {
    var nodes' := nodes[i := n];
    forall j | 0 <= j < |nodes| ensures nodes'[j].id == nodes[j].id {}
    forall m <- nodes ensures m.id in NodeIds(nodes') {
      var j :| 0 <= j < |nodes| && nodes[j] == m;
      assert nodes'[j] in nodes';
    }
    forall m <- nodes' ensures m.id in NodeIds(nodes) {
      var j :| 0 <= j < |nodes'| && nodes'[j] == m;
      assert nodes[j] in nodes;
    }
  }

  /** Overwriting one node record in place is one table update. */
  lemma NodeReplaced(nodes: seq<Node>, i: nat, n: Node)
    requires UniqueNodes(nodes) && i < |nodes| && n.id == nodes[i].id
    ensures UniqueNodes(nodes[i := n]) && NodeIds(nodes[i := n]) == NodeIds(nodes)
    ensures NodeTable(nodes[i := n]) == NodeTable(nodes)[n.id := n]
  {
    var nodes', t := nodes[i := n], NodeTable(nodes)[n.id := n];
    ReplacedIds(nodes, i, n);
    NodeRow(nodes, nodes[i]);
    NodeTableIs(nodes', t) by {
      forall m <- nodes' ensures m.id in t && t[m.id] == m {
        var j := ReplacedAt(nodes, i, n, m);
        NodeRow(nodes, nodes[j]);
      }
    }
  }

  /** Once node `id` carries `home` and every list has been synced, the links agree again. */
  lemma SyncedTwoWay(g: Graph, g': Graph, id: Uuid, home: Option<Uuid>)
    requires Linked(g) && Synced(g.boundaries, g'.boundaries, id, home)
    requires NodeIds(g'.nodes) == NodeIds(g.nodes) + {id}
    requires forall m <- g'.nodes :: if m.id == id then m.home == home else m in g.nodes
    ensures TwoWay(g') && MembersResolve(g')
  {
    forall b' <- g'.boundaries
      ensures Distinct(b'.members)
      ensures forall x <- b'.members :: x in NodeIds(g'.nodes)
      ensures forall m <- g'.nodes :: m.home == Some(b'.id) <==> m.id in b'.members
    {
      var b := SyncedMembers(g.boundaries, g'.boundaries, id, home, b');
      forall x <- b'.members ensures x in NodeIds(g'.nodes) {
        assert x == id || x in b.members;
      }
    }
  }

  lemma SyncedLinked(g: Graph, g': Graph, id: Uuid, home: Option<Uuid>)
    requires Linked(g) && Synced(g.boundaries, g'.boundaries, id, home)
    requires HomeExists(g, home) && g'.edges == g.edges
    requires UniqueNodes(g'.nodes) && NodeIds(g'.nodes) == NodeIds(g.nodes) + {id}
    requires forall m <- g'.nodes :: if m.id == id then m.home == home else m in g.nodes
    ensures Linked(g') && BoundaryIds(g'.boundaries) == BoundaryIds(g.boundaries)
  {
    assert SameButMembers(g.boundaries, g'.boundaries);
    SameButMembersIds(g.boundaries, g'.boundaries);
    SameIds(g.boundaries, g'.boundaries);
    SyncedTwoWay(g, g', id, home);
  }

  lemma RehomedNodes(nodes: seq<Node>, i: nat, home: Option<Uuid>, nodes': seq<Node>)
    requires UniqueNodes(nodes) && i < |nodes| && nodes' == nodes[i := nodes[i].(home := home)]
    ensures UniqueNodes(nodes') && NodeIds(nodes') == NodeIds(nodes) && nodes[i].id in NodeIds(nodes)
    ensures forall m <- nodes' :: if m.id == nodes[i].id then m.home == home else m in nodes
  {
    var n := nodes[i].(home := home);
    assert nodes[i] in nodes;
    ReplacedIds(nodes, i, n);
    forall m <- nodes' ensures if m.id == n.id then m.home == home else m in nodes {
      var j := ReplacedAt(nodes, i, n, m);
    }
  }

  lemma RehomedLinked(g: Graph, i: nat, home: Option<Uuid>, bs': seq<Boundary>)
    requires Linked(g) && i < |g.nodes| && HomeExists(g, home)
    requires Synced(g.boundaries, bs', g.nodes[i].id, home)
    ensures Linked(Graph(g.nodes[i := g.nodes[i].(home := home)], g.edges, bs'))
    ensures BoundaryIds(bs') == BoundaryIds(g.boundaries)
  {
    var nodes' := g.nodes[i := g.nodes[i].(home := home)];
    RehomedNodes(g.nodes, i, home, nodes');
    SyncedLinked(g, Graph(nodes', g.edges, bs'), g.nodes[i].id, home);
  }

  lemma MoveLinked(mode: Mode, g: Graph, i: nat, home: Option<Uuid>)
    requires Linked(g) && i < |g.nodes| && HomeExists(g, home)
    ensures Linked(Move(mode, g, i, home))
    ensures BoundaryIds(Move(mode, g, i, home).boundaries) == BoundaryIds(g.boundaries)
  {
    var n := g.nodes[i];
    SyncLinked(mode, g, n, home);
    RehomedLinked(g, i, home, Sync(mode, g.boundaries, n.id, n.home, home));
  }

  lemma MoveTables(mode: Mode, g: Graph, i: nat, home: Option<Uuid>)
    requires UniqueIds(g) && i < |g.nodes|
    ensures TablesOf(Move(mode, g, i, home))
         == TablesOf(g).(nodes := NodeTable(g.nodes)[g.nodes[i].id := g.nodes[i].(home := home)])
    ensures Parents(Move(mode, g, i, home).boundaries) == Parents(g.boundaries)
  {
    SameRecords(g.boundaries, Move(mode, g, i, home).boundaries);
    NodeReplaced(g.nodes, i, g.nodes[i].(home := home));
  }
}
