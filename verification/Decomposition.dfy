/** The starter graph of a decomposition view: the decomposed node's surroundings, cloned around
    its inside. */
module Decomposition {
  import opened Wrappers
  import opened DfdGraph

  // ---- What the parent diagram says about the node ----

  predicate Incident(e: Edge, pid: Uuid) {
    e.source == pid || e.target == pid
  }

  function Counterpart(e: Edge, pid: Uuid): Uuid {
    if e.source == pid then e.target else e.source
  }

  /** `connected_edges`: the node's incident edges, in diagram order. */
  function Connected(edges: seq<Edge>, pid: Uuid): seq<Edge> {
    if edges == [] then []
    else
      var init, last := edges[..|edges| - 1], edges[|edges| - 1];
      Connected(init, pid) + if Incident(last, pid) then [last] else []
  }

  /** The incident edges whose counterpart is known, in diagram order: the node's interface. */
  function Interface(edges: seq<Edge>, pid: Uuid, known: set<Uuid>): seq<Edge> {
    if edges == [] then []
    else
      var init, last := edges[..|edges| - 1], edges[|edges| - 1];
      Interface(init, pid, known) + if Incident(last, pid) && Counterpart(last, pid) in known then [last] else []
  }

  /** Counterparts the node receives from (a self-loop counts here), with repetitions. */
  function Incoming(wanted: seq<Edge>, pid: Uuid): seq<Uuid> {
    if wanted == [] then []
    else
      var init, last := wanted[..|wanted| - 1], wanted[|wanted| - 1];
      Incoming(init, pid) + if last.source == Counterpart(last, pid) then [last.source] else []
  }

  /** Counterparts the node sends to, with repetitions. */
  function Outgoing(wanted: seq<Edge>, pid: Uuid): seq<Uuid> {
    if wanted == [] then []
    else
      var init, last := wanted[..|wanted| - 1], wanted[|wanted| - 1];
      Outgoing(init, pid) + if last.source != Counterpart(last, pid) then [Counterpart(last, pid)] else []
  }

  lemma {:induction false} InterfaceMembers(edges: seq<Edge>, pid: Uuid, known: set<Uuid>)
    ensures forall e :: e in Interface(edges, pid, known) <==>
            e in edges && Incident(e, pid) && Counterpart(e, pid) in known
  {
    if edges != [] {
      var init, last := edges[..|edges| - 1], edges[|edges| - 1];
      assert edges == init + [last];
      InterfaceMembers(init, pid, known);
    }
  }

  /** The two sides together name exactly the counterparts of the interface. */
  lemma {:induction false} SidesCoverCounterparts(wanted: seq<Edge>, pid: Uuid)
    ensures forall x :: x in Incoming(wanted, pid) + Outgoing(wanted, pid) <==>
            exists e :: e in wanted && Counterpart(e, pid) == x
  {
    if wanted != [] {
      var init, last := wanted[..|wanted| - 1], wanted[|wanted| - 1];
      assert wanted == init + [last];
      SidesCoverCounterparts(init, pid);
      forall x
        ensures x in Incoming(wanted, pid) + Outgoing(wanted, pid) <==>
                exists e :: e in wanted && Counterpart(e, pid) == x
      {
        if x in Incoming(init, pid) + Outgoing(init, pid) {
          var e :| e in init && Counterpart(e, pid) == x;
          assert e in wanted;
        }
        if x == Counterpart(last, pid) { assert last in wanted; }
      }
    }
  }

  lemma InterfaceSnoc(edges: seq<Edge>, e: Edge, pid: Uuid, known: set<Uuid>)
    ensures Interface(edges + [e], pid, known) ==
              Interface(edges, pid, known) + if Incident(e, pid) && Counterpart(e, pid) in known then [e] else []
  {
    assert (edges + [e])[..|edges|] == edges;
  }

  lemma SidesSnoc(wanted: seq<Edge>, e: Edge, pid: Uuid)
    ensures Incoming(wanted + [e], pid) == Incoming(wanted, pid)
            + if e.source == Counterpart(e, pid) then [e.source] else []
    ensures Outgoing(wanted + [e], pid) == Outgoing(wanted, pid)
            + if e.source != Counterpart(e, pid) then [Counterpart(e, pid)] else []
  {
    assert (wanted + [e])[..|wanted|] == wanted;
  }

  /** Skipping the unrelated edges first makes no difference. */
  lemma {:induction false} InterfaceOfConnected(edges: seq<Edge>, pid: Uuid, known: set<Uuid>)
    ensures Interface(Connected(edges, pid), pid, known) == Interface(edges, pid, known)
  {
    if edges != [] {
      var init, last := edges[..|edges| - 1], edges[|edges| - 1];
      InterfaceOfConnected(init, pid, known);
      if Incident(last, pid) {
        InterfaceSnoc(Connected(init, pid), last, pid, known);
      } else {
        assert Connected(edges, pid) == Connected(init, pid);
      }
    }
  }

  /** An edge without its id. */
  datatype Flow = Flow(source: Uuid, target: Uuid, caption: string, props: Props)

  function FlowsOf(edges: seq<Edge>): seq<Flow> {
    seq(|edges|, i requires 0 <= i < |edges| =>
      Flow(edges[i].source, edges[i].target, edges[i].caption, edges[i].props))
  }

  /** The edges seen through a renaming of their endpoints. */
  function Renamed(edges: seq<Edge>, origin: map<Uuid, Uuid>): seq<Flow>
    requires forall e <- edges :: e.source in origin && e.target in origin
  {
    seq(|edges|, i requires 0 <= i < |edges| =>
      Flow(origin[edges[i].source], origin[edges[i].target], edges[i].caption, edges[i].props))
  }

  // ---- Cloning ----

  function Original(g: Graph, id: Uuid): Node
    requires id in NodeIds(g.nodes)
  {
    g.nodes[FindNode(g.nodes, id).value]
  }

  function CloneNode(n: Node, id: Uuid, x: real, row: nat): Node {
    Node(id, n.nodeType, n.name, x, 60.0 + row as real * 110.0, None, None, None, n.props)
  }

  ghost predicate AllKnown(g: Graph, ids: seq<Uuid>) {
    forall id <- ids :: id in NodeIds(g.nodes)
  }

  /** The ids of `ids` that `others` does not have, in order. */
  function Minus(ids: seq<Uuid>, others: seq<Uuid>): (r: seq<Uuid>)
    ensures forall x :: x in r <==> x in ids && x !in others
    ensures Distinct(ids) ==> Distinct(r)
  {
    if ids == [] then []
    else
      var init, last := ids[..|ids| - 1], ids[|ids| - 1];
      assert ids == init + [last];
      assert Distinct(ids) ==> Distinct(init) && last !in init;
      var rest := Minus(init, others);
      assert last !in rest ==> forall k | 0 <= k < |rest| :: rest[k] != last;
      rest + if last in others then [] else [last]
  }

  /** The clone standing for `order[k]`: incoming counterparts down the left column, the remaining
      outgoing ones at their own row of the right column. */
  function PlacedClone(g: Graph, incoming: seq<Uuid>, outgoing: seq<Uuid>, right: real, x: Uuid, id: Uuid): Node
    requires x in NodeIds(g.nodes) && (x in incoming || x in outgoing)
  {
    if x in incoming then CloneNode(Original(g, x), id, 40.0, IndexOf(incoming, x))
    else CloneNode(Original(g, x), id, right, IndexOf(outgoing, x))
  }

  lemma IndexOfDistinct(ids: seq<Uuid>, i: nat)
    requires Distinct(ids) && i < |ids|
    ensures IndexOf(ids, ids[i]) == i
  {}

  /** `clone_id_by_parent_id`, when the `k`-th clone gets the `k`-th minted id. */
  ghost predicate ClonesInOrder(cloneOf: map<Uuid, Uuid>, order: seq<Uuid>, mint: nat -> Uuid, start: nat) {
    && (forall x :: x in cloneOf <==> x in order)
    && forall k | 0 <= k < |order| :: cloneOf[order[k]] == mint(start + k)
  }

  lemma ClonesExtend(cloneOf: map<Uuid, Uuid>, order: seq<Uuid>, mint: nat -> Uuid, start: nat, x: Uuid, next: nat)
    requires ClonesInOrder(cloneOf, order, mint, start) && x !in order && next == start + |order|
    ensures ClonesInOrder(cloneOf[x := mint(next)], order + [x], mint, start)
  {}

  /** `nodes` are the clones of `order`, one each. */
  ghost predicate Cloned(g: Graph, incoming: seq<Uuid>, outgoing: seq<Uuid>, right: real,
                         order: seq<Uuid>, nodes: seq<Node>, mint: nat -> Uuid, start: nat) {
    |nodes| == |order| && forall k | 0 <= k < |order| ::
      && order[k] in NodeIds(g.nodes) && (order[k] in incoming || order[k] in outgoing)
      && nodes[k] == PlacedClone(g, incoming, outgoing, right, order[k], mint(start + k))
  }

  lemma ClonedExtend(g: Graph, incoming: seq<Uuid>, outgoing: seq<Uuid>, right: real,
                     order: seq<Uuid>, nodes: seq<Node>, mint: nat -> Uuid, start: nat, x: Uuid, n: Node)
    requires Cloned(g, incoming, outgoing, right, order, nodes, mint, start)
    requires x in NodeIds(g.nodes) && (x in incoming || x in outgoing)
    requires n == PlacedClone(g, incoming, outgoing, right, x, mint(start + |order|))
    ensures Cloned(g, incoming, outgoing, right, order + [x], nodes + [n], mint, start)
  {}

  lemma LeftExtend(g: Graph, incoming: seq<Uuid>, outgoing: seq<Uuid>, right: real,
                   order: seq<Uuid>, nodes: seq<Node>, mint: nat -> Uuid, start: nat, i: nat, next: nat)
    requires Cloned(g, incoming, outgoing, right, order, nodes, mint, start) && next == start + |order|
    requires Distinct(incoming) && i < |incoming| && incoming[i] in NodeIds(g.nodes)
    ensures Cloned(g, incoming, outgoing, right, order + [incoming[i]],
                   nodes + [CloneNode(Original(g, incoming[i]), mint(next), 40.0, i)], mint, start)
  {
    IndexOfDistinct(incoming, i);
    ClonedExtend(g, incoming, outgoing, right, order, nodes, mint, start, incoming[i],
                 CloneNode(Original(g, incoming[i]), mint(next), 40.0, i));
  }

  lemma RightExtend(g: Graph, incoming: seq<Uuid>, outgoing: seq<Uuid>, right: real,
                    order: seq<Uuid>, nodes: seq<Node>, mint: nat -> Uuid, start: nat, j: nat, next: nat)
    requires Cloned(g, incoming, outgoing, right, order, nodes, mint, start) && next == start + |order|
    requires Distinct(outgoing) && j < |outgoing| && outgoing[j] in NodeIds(g.nodes) && outgoing[j] !in incoming
    ensures Cloned(g, incoming, outgoing, right, order + [outgoing[j]],
                   nodes + [CloneNode(Original(g, outgoing[j]), mint(next), right, j)], mint, start)
  {
    IndexOfDistinct(outgoing, j);
    ClonedExtend(g, incoming, outgoing, right, order, nodes, mint, start, outgoing[j],
                 CloneNode(Original(g, outgoing[j]), mint(next), right, j));
  }

  /** The left column: one fresh clone per distinct incoming counterpart. */
  method CloneIncoming(g: Graph, incoming: seq<Uuid>, outgoing: seq<Uuid>, right: real, mint: nat -> Uuid, start: nat)
    returns (nodes: seq<Node>, cloneOf: map<Uuid, Uuid>)
    requires Distinct(incoming) && AllKnown(g, incoming)
    ensures ClonesInOrder(cloneOf, incoming, mint, start)
    ensures Cloned(g, incoming, outgoing, right, incoming, nodes, mint, start)
  {
    nodes, cloneOf := [], map[];
    var next := start;
    ghost var order: seq<Uuid> := [];
    for i := 0 to |incoming|
      invariant next == start + |order| && order == incoming[..i]
      invariant ClonesInOrder(cloneOf, order, mint, start)
      invariant Cloned(g, incoming, outgoing, right, order, nodes, mint, start)
    {
      var x, clone := incoming[i], mint(next);
      LeftExtend(g, incoming, outgoing, right, order, nodes, mint, start, i, next);
      ClonesExtend(cloneOf, order, mint, start, x, next);
      nodes, cloneOf, next := nodes + [CloneNode(Original(g, x), clone, 40.0, i)], cloneOf[x := clone], next + 1;
      order := order + [x];
    }
    assert incoming[..|incoming|] == incoming;
  }

  lemma MinusSnoc(outgoing: seq<Uuid>, j: nat, incoming: seq<Uuid>)
    requires Distinct(outgoing) && j < |outgoing|
    ensures var before := Minus(outgoing[..j], incoming);
            outgoing[j] !in before
            && Minus(outgoing[..j + 1], incoming) == if outgoing[j] in incoming then before else before + [outgoing[j]]
  {
    assert outgoing[..j + 1][..j] == outgoing[..j];
  }

  /** The counterparts that have their clone after `j` outgoing ones. */
  ghost predicate OrderUpTo(order: seq<Uuid>, incoming: seq<Uuid>, outgoing: seq<Uuid>, j: nat)
    requires j <= |outgoing|
  {
    order == incoming + Minus(outgoing[..j], incoming)
  }

  lemma OrderStep(order: seq<Uuid>, incoming: seq<Uuid>, outgoing: seq<Uuid>, j: nat)
    requires j < |outgoing| && Distinct(outgoing) && OrderUpTo(order, incoming, outgoing, j)
    ensures outgoing[j] in order <==> outgoing[j] in incoming
    ensures OrderUpTo(if outgoing[j] in order then order else order + [outgoing[j]], incoming, outgoing, j + 1)
  {
    MinusSnoc(outgoing, j, incoming);
  }

  /** The right column: counterparts that only receive; the others already have their clone. */
  method CloneOutgoing(g: Graph, incoming: seq<Uuid>, outgoing: seq<Uuid>, right: real, mint: nat -> Uuid, start: nat,
                       nodes0: seq<Node>, cloneOf0: map<Uuid, Uuid>)
    returns (nodes: seq<Node>, cloneOf: map<Uuid, Uuid>)
    requires Distinct(outgoing) && AllKnown(g, outgoing)
    requires ClonesInOrder(cloneOf0, incoming, mint, start)
    requires Cloned(g, incoming, outgoing, right, incoming, nodes0, mint, start)
    ensures ClonesInOrder(cloneOf, incoming + Minus(outgoing, incoming), mint, start)
    ensures Cloned(g, incoming, outgoing, right, incoming + Minus(outgoing, incoming), nodes, mint, start)
  {
    nodes, cloneOf := nodes0, cloneOf0;
    var next := start + |nodes0|;
    ghost var order := incoming;
    assert incoming + [] == incoming;
    for j := 0 to |outgoing|
      invariant next == start + |order| && OrderUpTo(order, incoming, outgoing, j)
      invariant ClonesInOrder(cloneOf, order, mint, start)
      invariant Cloned(g, incoming, outgoing, right, order, nodes, mint, start)
    {
      var x := outgoing[j];
      OrderStep(order, incoming, outgoing, j);
      if x !in cloneOf {
        var clone := mint(next);
        RightExtend(g, incoming, outgoing, right, order, nodes, mint, start, j, next);
        ClonesExtend(cloneOf, order, mint, start, x, next);
        nodes, cloneOf, next := nodes + [CloneNode(Original(g, x), clone, right, j)], cloneOf[x := clone], next + 1;
        order := order + [x];
      }
    }
    assert outgoing[..|outgoing|] == outgoing;
  }

  /** `lifted` is `e` with the decomposed node replaced by `anchor` and the counterpart by its clone. */
  predicate Lifted(lifted: Edge, e: Edge, pid: Uuid, anchor: Uuid, cloneOf: map<Uuid, Uuid>) {
    && Counterpart(e, pid) in cloneOf
    && lifted.caption == e.caption && lifted.props == e.props
    && lifted.source == (if e.source == pid then anchor else cloneOf[e.source])
    && lifted.target == (if e.source == pid then cloneOf[e.target] else anchor)
  }

  ghost predicate AllLifted(lifted: seq<Edge>, wanted: seq<Edge>, pid: Uuid, anchor: Uuid, cloneOf: map<Uuid, Uuid>,
                            mint: nat -> Uuid, start: nat) {
    |lifted| == |wanted| && forall k | 0 <= k < |wanted| ::
      Lifted(lifted[k], wanted[k], pid, anchor, cloneOf) && lifted[k].id == mint(start + k)
  }

  lemma LiftedExtend(lifted: seq<Edge>, wanted: seq<Edge>, pid: Uuid, anchor: Uuid, cloneOf: map<Uuid, Uuid>,
                     mint: nat -> Uuid, start: nat, e': Edge, e: Edge)
    requires AllLifted(lifted, wanted, pid, anchor, cloneOf, mint, start)
    requires Lifted(e', e, pid, anchor, cloneOf) && e'.id == mint(start + |wanted|)
    ensures AllLifted(lifted + [e'], wanted + [e], pid, anchor, cloneOf, mint, start)
  {}

  /** The final loop of both builders; an edge whose counterpart has no clone is skipped. */
  method LiftEdges(connected: seq<Edge>, pid: Uuid, anchor: Uuid, cloneOf: map<Uuid, Uuid>, mint: nat -> Uuid,
                   start: nat)
    returns (lifted: seq<Edge>)
    requires forall i | 0 <= i < |connected| :: Incident(connected[i], pid)
    ensures AllLifted(lifted, Interface(connected, pid, cloneOf.Keys), pid, anchor, cloneOf, mint, start)
  {
    lifted := [];
    var next := start;
    ghost var wanted: seq<Edge> := [];
    for i := 0 to |connected|
      invariant next == start + |wanted| && wanted == Interface(connected[..i], pid, cloneOf.Keys)
      invariant AllLifted(lifted, wanted, pid, anchor, cloneOf, mint, start)
    {
      var e := connected[i];
      assert connected[..i + 1] == connected[..i] + [e];
      InterfaceSnoc(connected[..i], e, pid, cloneOf.Keys);
      if Counterpart(e, pid) in cloneOf {
        var clone := cloneOf[Counterpart(e, pid)];
        var edge := Edge(mint(next), if e.source == pid then anchor else clone,
                         if e.source == pid then clone else anchor, e.caption, e.props);
        LiftedExtend(lifted, wanted, pid, anchor, cloneOf, mint, start, edge, e);
        lifted, wanted, next := lifted + [edge], wanted + [e], next + 1;
      }
    }
    assert connected[..|connected|] == connected;
  }

  /** The counterparts on the two sides, as the first loop of both builders collects them. */
  method CollectCounterparts(nodes: seq<Node>, connected: seq<Edge>, pid: Uuid)
    returns (incoming: seq<Uuid>, outgoing: seq<Uuid>)
    requires forall i | 0 <= i < |connected| :: Incident(connected[i], pid)
    ensures incoming == Dedupe(Incoming(Interface(connected, pid, NodeIds(nodes)), pid))
    ensures outgoing == Dedupe(Outgoing(Interface(connected, pid, NodeIds(nodes)), pid))
  {
    var ins: seq<Uuid>, outs: seq<Uuid> := [], [];
    ghost var wanted: seq<Edge> := [];
    for i := 0 to |connected|
      invariant wanted == Interface(connected[..i], pid, NodeIds(nodes))
      invariant ins == Incoming(wanted, pid) && outs == Outgoing(wanted, pid)
    {
      var e := connected[i];
      assert connected[..i + 1] == connected[..i] + [e];
      InterfaceSnoc(connected[..i], e, pid, NodeIds(nodes));
      var c := Counterpart(e, pid);
      if FindNode(nodes, c).Some? {
        SidesSnoc(wanted, e, pid);
        wanted := wanted + [e];
        if e.source == c { ins := ins + [c]; } else { outs := outs + [c]; }
      }
    }
    assert connected[..|connected|] == connected;
    incoming, outgoing := Dedupe(ins), Dedupe(outs);
  }

  // ---- The two builders ----

  /** A starter graph, the node standing for the decomposed one, and `clone_id_by_parent_id`. */
  datatype Seed = Seed(graph: Graph, anchor: Uuid, cloneOf: map<Uuid, Uuid>)

  function WantedEdges(g: Graph, pid: Uuid): seq<Edge> {
    Interface(g.edges, pid, NodeIds(g.nodes))
  }

  function LeftIds(g: Graph, pid: Uuid): seq<Uuid> {
    Dedupe(Incoming(WantedEdges(g, pid), pid))
  }

  function RightIds(g: Graph, pid: Uuid): seq<Uuid> {
    Dedupe(Outgoing(WantedEdges(g, pid), pid))
  }

  /** The counterparts in the order they are cloned. */
  function CloneOrder(g: Graph, pid: Uuid): seq<Uuid> {
    LeftIds(g, pid) + Minus(RightIds(g, pid), LeftIds(g, pid))
  }

  /** After `own` nodes and `ownEdges` edges of its own, the seed consists of one clone per counterpart
      and one lifted edge per interface edge. */
  ghost predicate Surrounded(seed: Seed, g: Graph, pid: Uuid, own: nat, ownEdges: nat, right: real,
                             mint: nat -> Uuid, start: nat, mintEdge: nat -> Uuid) {
    && own <= |seed.graph.nodes| && ownEdges <= |seed.graph.edges|
    && ClonesInOrder(seed.cloneOf, CloneOrder(g, pid), mint, start)
    && Cloned(g, LeftIds(g, pid), RightIds(g, pid), right, CloneOrder(g, pid), seed.graph.nodes[own..], mint, start)
    && AllLifted(seed.graph.edges[ownEdges..], WantedEdges(g, pid), pid, seed.anchor, seed.cloneOf, mintEdge, ownEdges)
  }

  lemma OrderIsCounterparts(g: Graph, pid: Uuid)
    ensures forall x :: x in CloneOrder(g, pid) <==> exists e :: e in WantedEdges(g, pid) && Counterpart(e, pid) == x
  {
    var wanted := WantedEdges(g, pid);
    SidesCoverCounterparts(wanted, pid);
    forall x ensures x in CloneOrder(g, pid) <==> x in Incoming(wanted, pid) + Outgoing(wanted, pid) {}
  }

  lemma OrderKnown(g: Graph, pid: Uuid)
    ensures AllKnown(g, CloneOrder(g, pid)) && AllKnown(g, LeftIds(g, pid)) && AllKnown(g, RightIds(g, pid))
  {
    OrderIsCounterparts(g, pid);
    InterfaceMembers(g.edges, pid, NodeIds(g.nodes));
    forall x <- CloneOrder(g, pid) ensures x in NodeIds(g.nodes) {
      var e :| e in WantedEdges(g, pid) && Counterpart(e, pid) == x;
    }
    forall x | x in LeftIds(g, pid) || x in RightIds(g, pid) ensures x in CloneOrder(g, pid) {}
  }

  lemma OrderDistinct(g: Graph, pid: Uuid)
    ensures Distinct(CloneOrder(g, pid))
  {
    var order := CloneOrder(g, pid);
    forall i, j | 0 <= i < j < |order| ensures order[i] != order[j] {
      if i < |LeftIds(g, pid)| <= j {
        assert order[j] in Minus(RightIds(g, pid), LeftIds(g, pid));
      }
    }
  }

  /** Edges whose counterpart was found are exactly those whose counterpart has a clone. */
  lemma {:induction false} ClonedIffKnown(edges: seq<Edge>, pid: Uuid, known: set<Uuid>, cloned: set<Uuid>)
    requires forall e <- edges | Incident(e, pid) :: Counterpart(e, pid) in known <==> Counterpart(e, pid) in cloned
    ensures Interface(edges, pid, cloned) == Interface(edges, pid, known)
  {
    if edges != [] {
      var init, last := edges[..|edges| - 1], edges[|edges| - 1];
      assert edges == init + [last];
      ClonedIffKnown(init, pid, known, cloned);
    }
  }

  lemma {:induction false} ConnectedIncident(edges: seq<Edge>, pid: Uuid)
    ensures forall e <- Connected(edges, pid) :: e in edges && Incident(e, pid)
  {
    if edges != [] {
      var init := edges[..|edges| - 1];
      assert edges == init + [edges[|edges| - 1]];
      ConnectedIncident(init, pid);
    }
  }

  /** So skipping edges without a clone loses nothing of the interface. */
  lemma ClonesCoverInterface(g: Graph, pid: Uuid, cloned: set<Uuid>)
    requires forall x :: x in cloned <==> x in CloneOrder(g, pid)
    ensures Interface(Connected(g.edges, pid), pid, cloned) == WantedEdges(g, pid)
  {
    OrderIsCounterparts(g, pid);
    OrderKnown(g, pid);
    InterfaceMembers(g.edges, pid, NodeIds(g.nodes));
    forall e <- g.edges | Incident(e, pid)
      ensures Counterpart(e, pid) in NodeIds(g.nodes) <==> Counterpart(e, pid) in cloned
    {
      if Counterpart(e, pid) in NodeIds(g.nodes) { assert e in WantedEdges(g, pid); }
    }
    ClonedIffKnown(g.edges, pid, NodeIds(g.nodes), cloned);
    InterfaceOfConnected(g.edges, pid, cloned);
  }

  /** The part the two builders share: clone the surroundings and lift the edges onto `anchor`. */
  method Surround(g: Graph, pid: Uuid, anchor: Uuid, right: real, mint: nat -> Uuid, start: nat,
                  mintEdge: nat -> Uuid, ownEdges: nat)
    returns (clones: seq<Node>, lifted: seq<Edge>, cloneOf: map<Uuid, Uuid>)
    ensures ClonesInOrder(cloneOf, CloneOrder(g, pid), mint, start)
    ensures Cloned(g, LeftIds(g, pid), RightIds(g, pid), right, CloneOrder(g, pid), clones, mint, start)
    ensures AllLifted(lifted, WantedEdges(g, pid), pid, anchor, cloneOf, mintEdge, ownEdges)
  {
    var connected := Connected(g.edges, pid);
    ConnectedIncident(g.edges, pid);
    InterfaceOfConnected(g.edges, pid, NodeIds(g.nodes));
    var incoming, outgoing := CollectCounterparts(g.nodes, connected, pid);
    OrderKnown(g, pid);
    clones, cloneOf := CloneIncoming(g, incoming, outgoing, right, mint, start);
    clones, cloneOf := CloneOutgoing(g, incoming, outgoing, right, mint, start, clones, cloneOf);
    ClonesCoverInterface(g, pid, cloneOf.Keys);
    lifted := LiftEdges(connected, pid, anchor, cloneOf, mintEdge, ownEdges);
  }

  /** `_build_decomposition_seed_graph` for a node that is not a container: a star around the centre. */
  method BuildStar(parent: Node, g: Graph, mint: nat -> Uuid, mintEdge: nat -> Uuid) returns (seed: Seed)
    ensures Surrounded(seed, g, parent.id, 1, 0, 520.0, mint, 1, mintEdge)
    ensures seed.anchor == mint(0) && seed.graph.boundaries == []
    ensures seed.graph.nodes[0] ==
              Node(mint(0), parent.nodeType, parent.name + " Internal", 280.0, 180.0, None, None, None, parent.props)
  {
    var center := Node(mint(0), parent.nodeType, parent.name + " Internal", 280.0, 180.0, None, None, None,
        parent.props);
    var clones, lifted, cloneOf := Surround(g, parent.id, center.id, 520.0, mint, 1, mintEdge, 0);
    var nodes := [center] + clones;
    seed := Seed(Graph(nodes, lifted, []), center.id, cloneOf);
    assert seed.graph.nodes[1..] == clones;
    assert seed.graph.edges[0..] == lifted;
  }

  predicate Truthy(j: Json) {
    match j
    case Text(t) => t != ""
    case Flag(b) => b
  }

  /** A parent that was read back has fields; see `NullProps`. */
  function WorkloadProps(p: Props): Props {
    var fields := if p.Fields? then p.fields else map[];
    var isolation := if "isolation_boundary" in fields && Truthy(fields["isolation_boundary"])
                     then fields["isolation_boundary"] else Text("container");
    Fields(fields["runtime_type" := Text("container")]["isolation_boundary" := isolation])
  }

  const SIDECAR_PROPS := Fields(map["runtime_type" := Text("worker"), "logging_level" := Text("audit"),
                                    "network_exposure" := Text("internal")])
  const SECRETS_PROPS := Fields(map["service_name" := Text("Secrets Store"), "stores_secrets" := Flag(true),
                                    "responsibility" := Text("provider"), "network_exposure" := Text("internal")])

  /** The three nodes, two edges and one boundary a container decomposition starts with. */
  function ContainerCore(parent: Node, mint: nat -> Uuid, mintEdge: nat -> Uuid): Graph {
    Graph([Node(mint(1), "process", parent.name + " Workload", 260.0, 150.0, Some(mint(0)), None, None,
                WorkloadProps(parent.props)),
           Node(mint(2), "process", "Telemetry / Policy Sidecar", 260.0, 270.0, Some(mint(0)), None, None,
                SIDECAR_PROPS),
           Node(mint(3), "managed_service", "Secrets / Config", 520.0, 210.0, None, None, None, SECRETS_PROPS)],
          [Edge(mintEdge(0), mint(1), mint(2), "policy + telemetry", Fields(map["protocol" := Text("localhost")])),
           Edge(mintEdge(1), mint(1), mint(3), "load secrets / config",
                Fields(map["protocol" := Text("TLS"), "carries_secrets" := Flag(true)]))],
          [Boundary(mint(0), parent.name + " Runtime Boundary", [mint(1), mint(2)], Rect(210.0, 110.0, 320.0, 260.0),
                    Some("cloud"), None)])
  }

  /** The seed starts with the builder's own nodes and edges, and has its boundary only. */
  ghost predicate HasCore(seed: Seed, core: Graph) {
    && |seed.graph.nodes| >= 3 && |seed.graph.edges| >= 2 && seed.graph.boundaries == core.boundaries
    && seed.graph.nodes[..3] == core.nodes && seed.graph.edges[..2] == core.edges
  }

  /** `_build_container_decomposition_seed_graph`: the star around the workload, plus its runtime. */
  method BuildContainer(parent: Node, g: Graph, mint: nat -> Uuid, mintEdge: nat -> Uuid) returns (seed: Seed)
    ensures Surrounded(seed, g, parent.id, 3, 2, 760.0, mint, 4, mintEdge)
    ensures seed.anchor == mint(1) && HasCore(seed, ContainerCore(parent, mint, mintEdge))
  {
    var clones, lifted, cloneOf := Surround(g, parent.id, mint(1), 760.0, mint, 4, mintEdge, 2);
    var runtime, workload, sidecar, secrets := mint(0), mint(1), mint(2), mint(3);
    var own := [Node(workload, "process", parent.name + " Workload", 260.0, 150.0, Some(runtime), None, None,
                     WorkloadProps(parent.props)),
                Node(sidecar, "process", "Telemetry / Policy Sidecar", 260.0, 270.0, Some(runtime), None, None,
                     SIDECAR_PROPS),
                Node(secrets, "managed_service", "Secrets / Config", 520.0, 210.0, None, None, None, SECRETS_PROPS)];
    var telemetry := Edge(mintEdge(0), workload, sidecar, "policy + telemetry",
                          Fields(map["protocol" := Text("localhost")]));
    var config := Edge(mintEdge(1), workload, secrets, "load secrets / config",
                       Fields(map["protocol" := Text("TLS"), "carries_secrets" := Flag(true)]));
    var boundary := Boundary(runtime, parent.name + " Runtime Boundary", [workload, sidecar],
                             Rect(210.0, 110.0, 320.0, 260.0), Some("cloud"), None);
    ghost var core := ContainerCore(parent, mint, mintEdge);
    var nodes, edges := own + clones, [telemetry, config] + lifted;
    assert nodes[3..] == clones && edges[2..] == lifted && nodes[..3] == core.nodes && edges[..2] == core.edges;
    seed := Seed(Graph(nodes, edges, [boundary]), workload, cloneOf);
  }

  /** The workload inherits the parent's properties except that it runs in a container, behind the isolation boundary
      the parent names or else the container's. */
  lemma WorkloadInherits(fields: map<string, Json>)
    ensures var r := WorkloadProps(Fields(fields));
            && r.Fields? && r.fields.Keys == fields.Keys + {"runtime_type", "isolation_boundary"}
            && r.fields["runtime_type"] == Text("container")
            && (forall k | k in fields && k != "runtime_type" && k != "isolation_boundary" :: r.fields[k] == fields[k])
            && r.fields["isolation_boundary"]
               == if "isolation_boundary" in fields && fields["isolation_boundary"] !in {Text(""), Flag(false)}
                  then fields["isolation_boundary"] else Text("container")
  {}

  // ---- What the seed preserves ----

  ghost predicate Injective(m: map<Uuid, Uuid>) {
    forall a, b | a in m && b in m && m[a] == m[b] :: a == b
  }

  /** Reading a seed id back: the anchor stands for the decomposed node, a clone for its counterpart. */
  ghost function OriginOf(cloneOf: map<Uuid, Uuid>, anchor: Uuid, pid: Uuid): map<Uuid, Uuid>
    requires Injective(cloneOf)
  {
    (map c | c in cloneOf :: cloneOf[c] := c)[anchor := pid]
  }

  ghost predicate Distinguishable(mint: nat -> Uuid) {
    forall i: nat, j: nat | i != j :: mint(i) != mint(j)
  }

  /** Distinct counterparts got distinct clones, none of them the anchor. */
  lemma ClonesInjective(cloneOf: map<Uuid, Uuid>, order: seq<Uuid>, mint: nat -> Uuid, start: nat, own: nat)
    requires ClonesInOrder(cloneOf, order, mint, start) && Distinguishable(mint) && own < start
    ensures Injective(cloneOf) && forall c | c in cloneOf :: cloneOf[c] != mint(own)
  {
    forall a, b | a in cloneOf && b in cloneOf && a != b ensures cloneOf[a] != cloneOf[b] {
      var i :| 0 <= i < |order| && order[i] == a;
      var j :| 0 <= j < |order| && order[j] == b;
      assert mint(start + i) != mint(start + j);
    }
    forall c | c in cloneOf ensures cloneOf[c] != mint(own) {
      var i :| 0 <= i < |order| && order[i] == c;
      assert mint(start + i) != mint(own);
    }
  }

  lemma LiftedReadsBack(lifted: Edge, e: Edge, pid: Uuid, anchor: Uuid, cloneOf: map<Uuid, Uuid>)
    requires Lifted(lifted, e, pid, anchor, cloneOf) && Incident(e, pid)
    requires Injective(cloneOf) && forall c | c in cloneOf :: cloneOf[c] != anchor
    ensures var origin := OriginOf(cloneOf, anchor, pid);
            lifted.source in origin && lifted.target in origin
            && origin[lifted.source] == e.source && origin[lifted.target] == e.target
  {
    var c := Counterpart(e, pid);
    var inverse := map c | c in cloneOf :: cloneOf[c] := c;
    assert cloneOf[c] in inverse && inverse[cloneOf[c]] == c;
  }

  lemma AllReadBack(lifted: seq<Edge>, wanted: seq<Edge>, pid: Uuid, anchor: Uuid, cloneOf: map<Uuid, Uuid>)
    requires |lifted| == |wanted| && forall k | 0 <= k < |wanted| :: Lifted(lifted[k], wanted[k], pid, anchor, cloneOf)
    requires forall k | 0 <= k < |wanted| :: Incident(wanted[k], pid)
    requires Injective(cloneOf) && forall c | c in cloneOf :: cloneOf[c] != anchor
    ensures var origin := OriginOf(cloneOf, anchor, pid);
            (forall e <- lifted :: e.source in origin && e.target in origin)
            && Renamed(lifted, origin) == FlowsOf(wanted)
  {
    var origin := OriginOf(cloneOf, anchor, pid);
    forall k | 0 <= k < |lifted|
      ensures lifted[k].source in origin && lifted[k].target in origin
      ensures origin[lifted[k].source] == wanted[k].source && origin[lifted[k].target] == wanted[k].target
    {
      LiftedReadsBack(lifted[k], wanted[k], pid, anchor, cloneOf);
    }
  }

  ghost predicate InterfaceKept(seed: Seed, g: Graph, pid: Uuid, ownEdges: nat)
    requires ownEdges <= |seed.graph.edges| && Injective(seed.cloneOf)
  {
    var lifted, origin := seed.graph.edges[ownEdges..], OriginOf(seed.cloneOf, seed.anchor, pid);
    && (forall e <- lifted :: e.source in origin && e.target in origin)
    && Renamed(lifted, origin) == FlowsOf(WantedEdges(g, pid))
  }

  /** The parent's interface survives: read back through `OriginOf`, the lifted edges are exactly the
      parent's incident edges with a known counterpart - order, direction, caption and properties. */
  lemma InterfacePreserved(seed: Seed, g: Graph, pid: Uuid, own: nat, ownEdges: nat, right: real,
                           mint: nat -> Uuid, start: nat, mintEdge: nat -> Uuid, at: nat)
    requires Surrounded(seed, g, pid, own, ownEdges, right, mint, start, mintEdge)
    requires Distinguishable(mint) && at < start && seed.anchor == mint(at)
    ensures Injective(seed.cloneOf) && InterfaceKept(seed, g, pid, ownEdges)
  {
    ClonesInjective(seed.cloneOf, CloneOrder(g, pid), mint, start, at);
    var lifted, wanted := seed.graph.edges[ownEdges..], WantedEdges(g, pid);
    forall k | 0 <= k < |wanted| ensures Incident(wanted[k], pid) {
      InterfaceMembers(g.edges, pid, NodeIds(g.nodes));
      assert wanted[k] in wanted;
    }
    AllReadBack(lifted, wanted, pid, seed.anchor, seed.cloneOf);
  }

  /** `clone` copies counterpart `x` and some lifted edge ends at it. */
  ghost predicate FaithfulClone(seed: Seed, g: Graph, ownEdges: nat, clone: Node, x: Uuid)
    requires ownEdges <= |seed.graph.edges|
  {
    && x in seed.cloneOf && x in NodeIds(g.nodes) && clone.id == seed.cloneOf[x] && clone.home == None
    && clone.nodeType == Original(g, x).nodeType && clone.name == Original(g, x).name
    && clone.props == Original(g, x).props
    && exists e <- seed.graph.edges[ownEdges..] :: e.source == clone.id || e.target == clone.id
  }

  lemma CloneIsFaithful(seed: Seed, g: Graph, pid: Uuid, own: nat, ownEdges: nat, right: real,
                        mint: nat -> Uuid, start: nat, mintEdge: nat -> Uuid, k: nat)
    requires Surrounded(seed, g, pid, own, ownEdges, right, mint, start, mintEdge) && own <= k < |seed.graph.nodes|
    ensures FaithfulClone(seed, g, ownEdges, seed.graph.nodes[k], CloneOrder(g, pid)[k - own])
  {
    var x := CloneOrder(g, pid)[k - own];
    assert seed.graph.nodes[own..][k - own] == seed.graph.nodes[k];
    CloneTouched(seed, g, pid, ownEdges, mintEdge, x);
  }

  /** One clone per distinct counterpart, a faithful copy of it, and every clone touches a lifted edge. */
  lemma ClonesMatchCounterparts(seed: Seed, g: Graph, pid: Uuid, own: nat, ownEdges: nat, right: real,
                                mint: nat -> Uuid, start: nat, mintEdge: nat -> Uuid)
    requires Surrounded(seed, g, pid, own, ownEdges, right, mint, start, mintEdge)
    ensures forall x :: x in seed.cloneOf <==> exists e :: e in WantedEdges(g, pid) && Counterpart(e, pid) == x
    ensures |seed.graph.nodes| == own + |seed.cloneOf|
    ensures forall k | own <= k < |seed.graph.nodes| ::
              FaithfulClone(seed, g, ownEdges, seed.graph.nodes[k], CloneOrder(g, pid)[k - own])
  {
    var order := CloneOrder(g, pid);
    forall k | own <= k < |seed.graph.nodes|
      ensures FaithfulClone(seed, g, ownEdges, seed.graph.nodes[k], order[k - own])
    {
      CloneIsFaithful(seed, g, pid, own, ownEdges, right, mint, start, mintEdge, k);
    }
    OrderIsCounterparts(g, pid);
    OrderDistinct(g, pid);
    DistinctKeys(seed.cloneOf, order);
  }

  lemma CloneTouched(seed: Seed, g: Graph, pid: Uuid, ownEdges: nat, mintEdge: nat -> Uuid, x: Uuid)
    requires ownEdges <= |seed.graph.edges| && x in CloneOrder(g, pid)
    requires AllLifted(seed.graph.edges[ownEdges..], WantedEdges(g, pid), pid, seed.anchor, seed.cloneOf, mintEdge,
            ownEdges)
    ensures x in seed.cloneOf
    ensures exists e <- seed.graph.edges[ownEdges..] :: e.source == seed.cloneOf[x] || e.target == seed.cloneOf[x]
  {
    OrderIsCounterparts(g, pid);
    InterfaceMembers(g.edges, pid, NodeIds(g.nodes));
    var wanted, lifted := WantedEdges(g, pid), seed.graph.edges[ownEdges..];
    var e :| e in wanted && Counterpart(e, pid) == x;
    var i :| 0 <= i < |wanted| && wanted[i] == e;
    assert lifted[i] in lifted;
  }

  lemma {:induction false} DistinctKeys(m: map<Uuid, Uuid>, order: seq<Uuid>)
    requires Distinct(order) && forall x :: x in m <==> x in order
    ensures |m| == |order|
    decreases |order|
  {
    if order == [] {
      assert m == map[];
    } else {
      var last := order[|order| - 1];
      assert order == order[..|order| - 1] + [last];
      assert |m| == |m - {last}| + 1 by {
        assert m.Keys == (m - {last}).Keys + {last};
        assert |m.Keys| == |(m - {last}).Keys| + 1;
      }
      DistinctKeys(m - {last}, order[..|order| - 1]);
    }
  }

  // ---- The seed is a linked graph, ready for the editor ----

  lemma LiftedEndpoint(seed: Seed, g: Graph, pid: Uuid, own: nat, right: real, mint: nat -> Uuid, start: nat, x: Uuid)
    requires own <= |seed.graph.nodes| && x in seed.cloneOf
    requires ClonesInOrder(seed.cloneOf, CloneOrder(g, pid), mint, start)
    requires Cloned(g, LeftIds(g, pid), RightIds(g, pid), right, CloneOrder(g, pid), seed.graph.nodes[own..], mint,
            start)
    ensures seed.cloneOf[x] in NodeIds(seed.graph.nodes)
  {
    var order, clones := CloneOrder(g, pid), seed.graph.nodes[own..];
    var k :| 0 <= k < |order| && order[k] == x;
    assert clones[k].id == seed.cloneOf[x] && clones[k] in seed.graph.nodes;
  }

  /** Ids and endpoints of the surrounding part are sound whatever the builder's own part is. */
  lemma SurroundingsSound(seed: Seed, g: Graph, pid: Uuid, own: nat, ownEdges: nat, right: real,
                          mint: nat -> Uuid, start: nat, mintEdge: nat -> Uuid)
    requires Surrounded(seed, g, pid, own, ownEdges, right, mint, start, mintEdge)
    requires Distinguishable(mint) && Distinguishable(mintEdge) && seed.anchor in NodeIds(seed.graph.nodes)
    ensures forall k | own <= k < |seed.graph.nodes| ::
              seed.graph.nodes[k].id == mint(start + (k - own)) && seed.graph.nodes[k].home == None
    ensures forall k | ownEdges <= k < |seed.graph.edges| :: seed.graph.edges[k].id == mintEdge(k)
    ensures forall k | ownEdges <= k < |seed.graph.edges| ::
              seed.graph.edges[k].source in NodeIds(seed.graph.nodes)
              && seed.graph.edges[k].target in NodeIds(seed.graph.nodes)
  {
    var clones, lifted := seed.graph.nodes[own..], seed.graph.edges[ownEdges..];
    forall k | own <= k < |seed.graph.nodes|
      ensures seed.graph.nodes[k].id == mint(start + (k - own)) && seed.graph.nodes[k].home == None
    {
      assert clones[k - own] == seed.graph.nodes[k];
    }
    forall k | ownEdges <= k < |seed.graph.edges|
      ensures seed.graph.edges[k].id == mintEdge(k)
      ensures seed.graph.edges[k].source in NodeIds(seed.graph.nodes)
              && seed.graph.edges[k].target in NodeIds(seed.graph.nodes)
    {
      assert lifted[k - ownEdges] == seed.graph.edges[k];
      LiftedEndpoint(seed, g, pid, own, right, mint, start, Counterpart(WantedEdges(g, pid)[k - ownEdges], pid));
    }
  }

  lemma NumberedEdges(edges: seq<Edge>, mintEdge: nat -> Uuid)
    requires Distinguishable(mintEdge) && forall k | 0 <= k < |edges| :: edges[k].id == mintEdge(k)
    ensures UniqueEdges(edges)
  {}

  lemma StarNodesUnique(nodes: seq<Node>, mint: nat -> Uuid)
    requires Distinguishable(mint) && nodes != [] && nodes[0].id == mint(0)
    requires forall k | 1 <= k < |nodes| :: nodes[k].id == mint(1 + (k - 1))
    ensures UniqueNodes(nodes)
  {
    forall i, j | 0 <= i < j < |nodes| ensures nodes[i].id != nodes[j].id {
      assert mint(i) != mint(j);
    }
  }

  lemma StarIsLinked(seed: Seed, parent: Node, g: Graph, mint: nat -> Uuid, mintEdge: nat -> Uuid)
    requires Surrounded(seed, g, parent.id, 1, 0, 520.0, mint, 1, mintEdge)
    requires seed.anchor == mint(0) && seed.graph.boundaries == []
    requires seed.graph.nodes[0].id == mint(0) && seed.graph.nodes[0].home == None
    requires Distinguishable(mint) && Distinguishable(mintEdge)
    ensures Linked(seed.graph)
  {
    assert seed.graph.nodes[0] in seed.graph.nodes;
    SurroundingsSound(seed, g, parent.id, 1, 0, 520.0, mint, 1, mintEdge);
    NumberedEdges(seed.graph.edges, mintEdge);
    StarNodesUnique(seed.graph.nodes, mint);
  }

  /** Three own nodes, then the clones, all with distinct ids: node `i` carries `mint(i + 1)`. */
  lemma ContainerNodesUnique(nodes: seq<Node>, mint: nat -> Uuid)
    requires Distinguishable(mint) && forall k | 0 <= k < |nodes| :: nodes[k].id == mint(k + 1)
    ensures UniqueNodes(nodes)
  {}

  lemma CoreRecords(seed: Seed, core: Graph)
    requires HasCore(seed, core)
    ensures |core.nodes| == 3 && |core.edges| == 2
    ensures forall k | 0 <= k < 3 ::
              seed.graph.nodes[k] == core.nodes[k] && seed.graph.nodes[k].id in NodeIds(seed.graph.nodes)
    ensures forall k | 0 <= k < 2 :: seed.graph.edges[k] == core.edges[k]
  {
    forall k | 0 <= k < 3 ensures seed.graph.nodes[k] == core.nodes[k] {
      assert seed.graph.nodes[..3][k] == core.nodes[k];
    }
    forall k | 0 <= k < 2 ensures seed.graph.edges[k] == core.edges[k] {
      assert seed.graph.edges[..2][k] == core.edges[k];
    }
  }

  /** The ids and endpoints of the builder's own part. */
  ghost predicate CoreIds(g: Graph, mint: nat -> Uuid, mintEdge: nat -> Uuid) {
    && |g.nodes| >= 3 && |g.edges| >= 2
    && (forall k: nat | k < 3 :: g.nodes[k].id == mint(k + 1) && g.nodes[k].id in NodeIds(g.nodes))
    && (forall k: nat | k < 2 ::
          var e := g.edges[k]; e.id == mintEdge(k) && e.source in NodeIds(g.nodes) && e.target in NodeIds(g.nodes))
  }

  lemma CoreHasIds(seed: Seed, parent: Node, mint: nat -> Uuid, mintEdge: nat -> Uuid)
    requires HasCore(seed, ContainerCore(parent, mint, mintEdge))
    ensures CoreIds(seed.graph, mint, mintEdge)
  {
    var core, ids := ContainerCore(parent, mint, mintEdge), NodeIds(seed.graph.nodes);
    CoreRecords(seed, core);
    assert core.nodes[0].id == mint(1) && core.nodes[1].id == mint(2) && core.nodes[2].id == mint(3);
    assert mint(1) in ids && mint(2) in ids && mint(3) in ids;
  }

  lemma ContainerRecords(seed: Seed, pid: Uuid, g: Graph, mint: nat -> Uuid, mintEdge: nat -> Uuid)
    requires Surrounded(seed, g, pid, 3, 2, 760.0, mint, 4, mintEdge) && seed.anchor == mint(1)
    requires CoreIds(seed.graph, mint, mintEdge) && Distinguishable(mint) && Distinguishable(mintEdge)
    ensures UniqueNodes(seed.graph.nodes) && UniqueEdges(seed.graph.edges) && EdgesResolve(seed.graph)
    ensures forall k | 3 <= k < |seed.graph.nodes| :: seed.graph.nodes[k].home == None
  {
    assert seed.graph.nodes[0].id == mint(0 + 1);
    SurroundingsSound(seed, g, pid, 3, 2, 760.0, mint, 4, mintEdge);
    ContainerNodesUnique(seed.graph.nodes, mint);
    NumberedEdges(seed.graph.edges, mintEdge);
  }

  lemma ContainerIsLinked(seed: Seed, parent: Node, g: Graph, mint: nat -> Uuid, mintEdge: nat -> Uuid)
    requires Surrounded(seed, g, parent.id, 3, 2, 760.0, mint, 4, mintEdge) && seed.anchor == mint(1)
    requires HasCore(seed, ContainerCore(parent, mint, mintEdge))
    requires Distinguishable(mint) && Distinguishable(mintEdge)
    ensures Linked(seed.graph)
  {
    CoreHasIds(seed, parent, mint, mintEdge);
    ContainerRecords(seed, parent.id, g, mint, mintEdge);
    CoreRecords(seed, ContainerCore(parent, mint, mintEdge));
    RuntimeTwoWay(seed.graph, parent, mint, mintEdge);
  }

  lemma RuntimeTwoWay(g: Graph, parent: Node, mint: nat -> Uuid, mintEdge: nat -> Uuid)
    requires Distinguishable(mint) && |g.nodes| >= 3 && UniqueNodes(g.nodes)
    requires forall k | 0 <= k < 3 :: g.nodes[k] == ContainerCore(parent, mint, mintEdge).nodes[k]
    requires forall k | 3 <= k < |g.nodes| :: g.nodes[k].home == None
    requires g.boundaries == ContainerCore(parent, mint, mintEdge).boundaries
    ensures TwoWay(g) && HomesResolve(g) && MembersResolve(g)
  {
    var b := g.boundaries[0];
    assert b in g.boundaries && b.members == [g.nodes[0].id, g.nodes[1].id];
    assert g.nodes[0] in g.nodes && g.nodes[1] in g.nodes;
    assert mint(1) != mint(2);
    forall n <- g.nodes ensures n.home == Some(b.id) <==> n.id in b.members {
      var k :| 0 <= k < |g.nodes| && g.nodes[k] == n;
      assert k == 2 ==> g.nodes[k].home == None;
    }
  }

  // ---- The seed, read off the two diagrams ----

  /** The edge joins the decomposed node and a node of the diagram; a self-loop joins it with itself. */
  ghost predicate Joins(e: Edge, pid: Uuid, g: Graph) {
    if e.source == pid then exists n <- g.nodes :: n.id == e.target
    else e.target == pid && exists n <- g.nodes :: n.id == e.source
  }

  /** `l` is `e` with the decomposed node replaced by the anchor and the other end by its clone. */
  ghost predicate Redraws(l: Edge, e: Edge, pid: Uuid, anchor: Uuid, cloneOf: map<Uuid, Uuid>) {
    && l.caption == e.caption && l.props == e.props
    && if e.source == pid then e.target in cloneOf && l.source == anchor && l.target == cloneOf[e.target]
       else e.source in cloneOf && l.source == cloneOf[e.source] && l.target == anchor
  }

  /** The diagram's edges at the positions `at` are exactly the joining ones, and each is redrawn once, in order. */
  ghost predicate RedrawnAt(seed: Seed, g: Graph, pid: Uuid, ownEdges: nat, at: seq<nat>) {
    && |seed.graph.edges| == ownEdges + |at| && (forall j, k | 0 <= j < k < |at| :: at[j] < at[k])
    && (forall i | 0 <= i < |g.edges| :: i in at <==> Joins(g.edges[i], pid, g))
    && forall k | 0 <= k < |at| ::
         at[k] < |g.edges| && Redraws(seed.graph.edges[ownEdges + k], g.edges[at[k]], pid, seed.anchor, seed.cloneOf)
  }

  lemma {:induction false} InterfaceAt(edges: seq<Edge>, pid: Uuid, g: Graph) returns (at: seq<nat>)
    ensures PickedAt(edges, Interface(edges, pid, NodeIds(g.nodes)), at)
    ensures forall i | 0 <= i < |edges| :: i in at <==> Joins(edges[i], pid, g)
  {
    at := [];
    if edges != [] {
      var n := |edges| - 1;
      at := InterfaceAt(edges[..n], pid, g);
      assert Joins(edges[n], pid, g) <==> Incident(edges[n], pid) && Counterpart(edges[n], pid) in NodeIds(g.nodes);
      var before := at;
      if Joins(edges[n], pid, g) { at := at + [n]; }
      forall i | 0 <= i < |edges| ensures i in at <==> Joins(edges[i], pid, g) {
        if i < n { assert edges[..n][i] == edges[i] && (i in at <==> i in before); }
      }
    }
  }

  lemma SeedRedraws(seed: Seed, g: Graph, pid: Uuid, own: nat, ownEdges: nat, right: real,
                    mint: nat -> Uuid, start: nat, mintEdge: nat -> Uuid) returns (at: seq<nat>)
    requires Surrounded(seed, g, pid, own, ownEdges, right, mint, start, mintEdge)
    ensures RedrawnAt(seed, g, pid, ownEdges, at)
  {
    at := InterfaceAt(g.edges, pid, g);
    var wanted, lifted := WantedEdges(g, pid), seed.graph.edges[ownEdges..];
    forall k | 0 <= k < |at|
      ensures at[k] < |g.edges|
      ensures Redraws(seed.graph.edges[ownEdges + k], g.edges[at[k]], pid, seed.anchor, seed.cloneOf)
    {
      assert wanted[k] == g.edges[at[k]] && lifted[k] == seed.graph.edges[ownEdges + k];
      assert Lifted(lifted[k], wanted[k], pid, seed.anchor, seed.cloneOf);
      assert at[k] in at;
    }
  }

  /** The node sends to the decomposed one, or is the decomposed one with a self-loop. */
  ghost predicate Sends(g: Graph, pid: Uuid, x: Uuid) {
    exists e <- g.edges :: e.source == x && e.target == pid && Joins(e, pid, g)
  }

  /** Senders stand on the left, one below the other; the rest on the right, at least a row apart. */
  ghost predicate Placed(clones: seq<Node>, cloneOf: map<Uuid, Uuid>, g: Graph, pid: Uuid, right: real) {
    && (forall k | 0 <= k < |clones| ::
          var n := clones[k];
          && (n.x == 40.0 || n.x == right) && n.y >= 60.0 && (n.x == 40.0 ==> n.y == 60.0 + k as real * 110.0)
          && forall x | x in cloneOf && cloneOf[x] == n.id :: n.x == 40.0 <==> Sends(g, pid, x))
    && forall j, k | 0 <= j < k < |clones| && clones[j].x == clones[k].x :: clones[k].y >= clones[j].y + 110.0
  }

  lemma {:induction false} IncomingMembers(wanted: seq<Edge>, pid: Uuid, x: Uuid)
    ensures x in Incoming(wanted, pid) <==> exists e <- wanted :: e.source == x && e.source == Counterpart(e, pid)
  {
    if wanted != [] {
      assert wanted == wanted[..|wanted| - 1] + [wanted[|wanted| - 1]];
      IncomingMembers(wanted[..|wanted| - 1], pid, x);
    }
  }

  lemma LeftSends(g: Graph, pid: Uuid, x: Uuid)
    ensures x in LeftIds(g, pid) <==> Sends(g, pid, x)
  {
    IncomingMembers(WantedEdges(g, pid), pid, x);
    InterfaceMembers(g.edges, pid, NodeIds(g.nodes));
    if x in LeftIds(g, pid) {
      var e :| e in WantedEdges(g, pid) && e.source == x && e.source == Counterpart(e, pid);
      assert e in g.edges && e.target == pid && Joins(e, pid, g);
    }
    if Sends(g, pid, x) {
      var e :| e in g.edges && e.source == x && e.target == pid && Joins(e, pid, g);
      assert Counterpart(e, pid) in NodeIds(g.nodes) && e in WantedEdges(g, pid);
    }
  }

  lemma {:induction false} MinusInOrder(ids: seq<Uuid>, others: seq<Uuid>, i: nat, j: nat)
    requires Distinct(ids) && i < j < |Minus(ids, others)|
    ensures IndexOf(ids, Minus(ids, others)[i]) < IndexOf(ids, Minus(ids, others)[j])
  {
    var init, last, r := ids[..|ids| - 1], ids[|ids| - 1], Minus(ids, others);
    assert ids == init + [last];
    var before := Minus(init, others);
    assert r[i] == before[i] && before[i] in before;
    IndexInPrefix(init, last, r[i]);
    if j < |before| {
      MinusInOrder(init, others, i, j);
      assert r[j] == before[j] && before[j] in before;
      IndexInPrefix(init, last, r[j]);
    } else {
      IndexOfDistinct(ids, |ids| - 1);
    }
  }

  /** Where the clone of `x`, the `k`-th one, stands between the two columns. */
  ghost predicate StandsAt(n: Node, l: seq<Uuid>, r: seq<Uuid>, right: real, k: nat, x: Uuid) {
    if k < |l| then x in l && n.x == 40.0 && n.y == 60.0 + k as real * 110.0
    else x !in l && x in r && n.x == right && n.y == 60.0 + IndexOf(r, x) as real * 110.0
  }

  lemma OrderSide(l: seq<Uuid>, r: seq<Uuid>, order: seq<Uuid>, k: nat)
    requires order == l + Minus(r, l) && k < |order|
    ensures if k < |l| then order[k] == l[k] else order[k] == Minus(r, l)[k - |l|] && order[k] in r && order[k] !in l
  {
    if k >= |l| { assert Minus(r, l)[k - |l|] in Minus(r, l); }
  }

  lemma CloneStands(g: Graph, l: seq<Uuid>, r: seq<Uuid>, right: real, order: seq<Uuid>, k: nat, n: Node, id: Uuid)
    requires Distinct(l) && order == l + Minus(r, l) && k < |order| && order[k] in NodeIds(g.nodes)
    requires (order[k] in l || order[k] in r) && n == PlacedClone(g, l, r, right, order[k], id)
    ensures StandsAt(n, l, r, right, k, order[k]) && n.id == id
  {
    OrderSide(l, r, order, k);
    if k < |l| { IndexOfDistinct(l, k); }
  }

  lemma RowsApart(i: nat, j: nat)
    requires i < j
    ensures 60.0 + j as real * 110.0 >= 60.0 + i as real * 110.0 + 110.0
  {
    assert j as real >= i as real + 1.0;
  }

  lemma CloneRows(l: seq<Uuid>, r: seq<Uuid>, right: real, order: seq<Uuid>, j: nat, k: nat, m: Node, n: Node)
    requires Distinct(r) && order == l + Minus(r, l) && j < k < |order| && right != 40.0
    requires StandsAt(m, l, r, right, j, order[j]) && StandsAt(n, l, r, right, k, order[k])
    ensures m.x == n.x ==> n.y >= m.y + 110.0
  {
    if |l| <= j {
      OrderSide(l, r, order, j);
      OrderSide(l, r, order, k);
      MinusInOrder(r, l, j - |l|, k - |l|);
      RowsApart(IndexOf(r, order[j]), IndexOf(r, order[k]));
    } else if k < |l| {
      RowsApart(j, k);
    }
  }

  /** Clone `k` is the clone of no counterpart but its own. */
  lemma OwnCounterpart(cloneOf: map<Uuid, Uuid>, order: seq<Uuid>, mint: nat -> Uuid, start: nat, k: nat, x: Uuid)
    requires ClonesInOrder(cloneOf, order, mint, start) && Distinguishable(mint) && k < |order|
    requires x in cloneOf && cloneOf[x] == mint(start + k)
    ensures x == order[k]
  {
    var i :| 0 <= i < |order| && order[i] == x;
  }

  lemma AllStand(g: Graph, l: seq<Uuid>, r: seq<Uuid>, right: real, order: seq<Uuid>, clones: seq<Node>,
                 mint: nat -> Uuid, start: nat)
    requires Distinct(l) && order == l + Minus(r, l) && Cloned(g, l, r, right, order, clones, mint, start)
    ensures forall k | 0 <= k < |order| ::
              StandsAt(clones[k], l, r, right, k, order[k]) && clones[k].id == mint(start + k)
  {
    forall k | 0 <= k < |order|
      ensures StandsAt(clones[k], l, r, right, k, order[k]) && clones[k].id == mint(start + k)
    {
      CloneStands(g, l, r, right, order, k, clones[k], mint(start + k));
    }
  }

  lemma ColumnsPlaced(g: Graph, pid: Uuid, l: seq<Uuid>, r: seq<Uuid>, right: real, order: seq<Uuid>,
                      clones: seq<Node>, cloneOf: map<Uuid, Uuid>, mint: nat -> Uuid, start: nat)
    requires Distinct(r) && order == l + Minus(r, l) && right != 40.0 && |clones| == |order|
    requires ClonesInOrder(cloneOf, order, mint, start) && Distinguishable(mint)
    requires forall k | 0 <= k < |order| ::
               StandsAt(clones[k], l, r, right, k, order[k]) && clones[k].id == mint(start + k)
    requires forall x :: x in l <==> Sends(g, pid, x)
    ensures Placed(clones, cloneOf, g, pid, right)
  {
    forall k, x | 0 <= k < |clones| && x in cloneOf && cloneOf[x] == clones[k].id
      ensures clones[k].x == 40.0 <==> Sends(g, pid, x)
    {
      OwnCounterpart(cloneOf, order, mint, start, k, x);
    }
    forall j, k | 0 <= j < k < |clones| && clones[j].x == clones[k].x ensures clones[k].y >= clones[j].y + 110.0 {
      CloneRows(l, r, right, order, j, k, clones[j], clones[k]);
    }
  }

  lemma SeedPlaces(seed: Seed, g: Graph, pid: Uuid, own: nat, ownEdges: nat, right: real,
                   mint: nat -> Uuid, start: nat, mintEdge: nat -> Uuid)
    requires Surrounded(seed, g, pid, own, ownEdges, right, mint, start, mintEdge)
    requires Distinguishable(mint) && right != 40.0
    ensures Placed(seed.graph.nodes[own..], seed.cloneOf, g, pid, right)
  {
    var l, r, order, clones := LeftIds(g, pid), RightIds(g, pid), CloneOrder(g, pid), seed.graph.nodes[own..];
    forall x ensures x in l <==> Sends(g, pid, x) {
      LeftSends(g, pid, x);
    }
    AllStand(g, l, r, right, order, clones, mint, start);
    ColumnsPlaced(g, pid, l, r, right, order, clones, seed.cloneOf, mint, start);
  }

  /** The seed preserves the parent's interface around its anchor: read back through `OriginOf`, the edges after
      the builder's own are the parent's incident edges, and the nodes after its own are faithful clones. */
  ghost predicate Preserves(seed: Seed, g: Graph, pid: Uuid, own: nat, ownEdges: nat, right: real) {
    && own <= |seed.graph.nodes| && ownEdges <= |seed.graph.edges| && Injective(seed.cloneOf)
    && (exists at :: RedrawnAt(seed, g, pid, ownEdges, at))
    && Placed(seed.graph.nodes[own..], seed.cloneOf, g, pid, right)
    && InterfaceKept(seed, g, pid, ownEdges)
    && |seed.graph.nodes| == own + |seed.cloneOf| == own + |CloneOrder(g, pid)|
    && forall k | own <= k < |seed.graph.nodes| ::
         FaithfulClone(seed, g, ownEdges, seed.graph.nodes[k], CloneOrder(g, pid)[k - own])
  }

  lemma SurroundedPreserves(seed: Seed, g: Graph, pid: Uuid, own: nat, ownEdges: nat, right: real,
                            mint: nat -> Uuid, start: nat, mintEdge: nat -> Uuid, at: nat)
    requires Surrounded(seed, g, pid, own, ownEdges, right, mint, start, mintEdge)
    requires Distinguishable(mint) && at < start && seed.anchor == mint(at) && right != 40.0
    ensures Preserves(seed, g, pid, own, ownEdges, right)
  {
    var redrawn := SeedRedraws(seed, g, pid, own, ownEdges, right, mint, start, mintEdge);
    SeedPlaces(seed, g, pid, own, ownEdges, right, mint, start, mintEdge);
    InterfacePreserved(seed, g, pid, own, ownEdges, right, mint, start, mintEdge, at);
    ClonesMatchCounterparts(seed, g, pid, own, ownEdges, right, mint, start, mintEdge);
  }

  /** Either way the new view opens on a linked graph that keeps the decomposed node's interface. */
  method BuildSeed(parent: Node, g: Graph, mint: nat -> Uuid, mintEdge: nat -> Uuid) returns (seed: Seed)
    requires Distinguishable(mint) && Distinguishable(mintEdge)
    ensures Linked(seed.graph) && seed.anchor in NodeIds(seed.graph.nodes)
    ensures if parent.nodeType == "container"
            then Preserves(seed, g, parent.id, 3, 2, 760.0) && HasCore(seed, ContainerCore(parent, mint, mintEdge))
            else Preserves(seed, g, parent.id, 1, 0, 520.0) && seed.graph.boundaries == []
  {
    if parent.nodeType == "container" {
      seed := BuildContainer(parent, g, mint, mintEdge);
      ContainerIsLinked(seed, parent, g, mint, mintEdge);
      CoreHasIds(seed, parent, mint, mintEdge);
      assert seed.graph.nodes[0].id == mint(0 + 1);
      SurroundedPreserves(seed, g, parent.id, 3, 2, 760.0, mint, 4, mintEdge, 1);
    } else {
      seed := BuildStar(parent, g, mint, mintEdge);
      StarIsLinked(seed, parent, g, mint, mintEdge);
      assert seed.graph.nodes[0] in seed.graph.nodes;
      SurroundedPreserves(seed, g, parent.id, 1, 0, 520.0, mint, 1, mintEdge, 0);
    }
  }
}
