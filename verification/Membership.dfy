/** The two ways a node's boundary membership is rewritten: the full scan used on custom view
    graphs and the incremental update used on the root tables. */
module Membership {
  import opened Wrappers
  import opened DfdGraph

  function RemoveMember(members: seq<Uuid>, id: Uuid): (r: seq<Uuid>)
    ensures id !in r
    ensures forall x :: x in r <==> x in members && x != id
    ensures id !in members ==> r == members
    ensures Distinct(members) ==> Distinct(r)
    ensures |r| <= |members|
  {
    if members == [] then []
    else
      assert members == [members[0]] + members[1..];
      var rest := RemoveMember(members[1..], id);
      assert Distinct(members) ==> Distinct(members[1..]) && forall j | 0 <= j < |rest| :: rest[j] != members[0] by {
        assert forall j | 0 <= j < |rest| :: rest[j] in rest;
      }
      (if members[0] == id then [] else [members[0]]) + rest
  }

  function AddMember(members: seq<Uuid>, id: Uuid): seq<Uuid> {
    if id in members then members else members + [id]
  }

  function ScanRemove(bs: seq<Boundary>, id: Uuid): (r: seq<Boundary>)
    ensures |r| == |bs|
  {
    seq(|bs|, i requires 0 <= i < |bs| => bs[i].(members := RemoveMember(bs[i].members, id)))
  }

  /** `_sync_node_boundary_membership_in_dfd`, boundary side: drop the node from every boundary,
      then append it to the first boundary with the new id. */
  function FullScan(bs: seq<Boundary>, id: Uuid, home: Option<Uuid>): (r: seq<Boundary>)
    ensures |r| == |bs|
    ensures forall i | 0 <= i < |bs| :: r[i].(members := bs[i].members) == bs[i]
  {
    var cleared := ScanRemove(bs, id);
    if home == None then cleared
    else match FindBoundary(cleared, home.value)
      case None => cleared
      case Some(i) => cleared[i := cleared[i].(members := AddMember(cleared[i].members, id))]
  }

  /** `_sync_node_boundary_membership`, boundary side: only the current and the new row change. */
  function Incremental(bs: seq<Boundary>, id: Uuid, current: Option<Uuid>, home: Option<Uuid>): (r: seq<Boundary>)
    ensures |r| == |bs|
    ensures forall i | 0 <= i < |bs| :: r[i].(members := bs[i].members) == bs[i]
  {
    seq(|bs|, i requires 0 <= i < |bs| => bs[i].(members := IncrementalMembers(bs[i], id, current, home)))
  }

  function IncrementalMembers(b: Boundary, id: Uuid, current: Option<Uuid>, home: Option<Uuid>): seq<Uuid> {
    var kept := if current == Some(b.id) then RemoveMember(b.members, id) else b.members;
    if home == Some(b.id) then AddMember(kept, id) else kept
  }

  function ScannedMembers(b: Boundary, id: Uuid, home: Option<Uuid>): seq<Uuid> {
    RemoveMember(b.members, id) + if home == Some(b.id) then [id] else []
  }

  /** With unique boundary ids the full scan acts on each boundary separately. */
  lemma FullScanPointwise(bs: seq<Boundary>, id: Uuid, home: Option<Uuid>, i: nat)
    requires UniqueBoundaries(bs) && i < |bs|
    ensures FullScan(bs, id, home)[i] == bs[i].(members := ScannedMembers(bs[i], id, home))
  {
    var cleared := ScanRemove(bs, id);
    assert cleared[i].id == bs[i].id;
    assert RemoveMember(bs[i].members, id) + [] == RemoveMember(bs[i].members, id);
    if home.Some? && FindBoundary(cleared, home.value).Some? {
      var k := FindBoundary(cleared, home.value).value;
      assert k != i ==> bs[k].id != bs[i].id;
    }
  }

  /** This boundary, unless it is the current one, does not list the node - except that the new boundary may
      already list it in the one place the full scan would put it, the very end. */
  predicate NotStray(b: Boundary, id: Uuid, current: Option<Uuid>, home: Option<Uuid>) {
    current != Some(b.id) && id in b.members ==>
      home == Some(b.id) && b.members == RemoveMember(b.members, id) + [id]
  }

  ghost predicate NoStrayListing(bs: seq<Boundary>, id: Uuid, current: Option<Uuid>, home: Option<Uuid>) {
    forall b <- bs :: NotStray(b, id, current, home)
  }

  lemma SyncsAgreeAt(bs: seq<Boundary>, id: Uuid, current: Option<Uuid>, home: Option<Uuid>, i: nat)
    requires UniqueBoundaries(bs) && i < |bs|
    ensures Incremental(bs, id, current, home)[i] == FullScan(bs, id, home)[i] <==> NotStray(bs[i], id, current, home)
  {
    FullScanPointwise(bs, id, home, i);
  }

  /** Exactly when the cheap update and the full scan write the same member lists. */
  lemma SyncsAgreeIff(bs: seq<Boundary>, id: Uuid, current: Option<Uuid>, home: Option<Uuid>)
    requires UniqueBoundaries(bs)
    ensures Incremental(bs, id, current, home) == FullScan(bs, id, home)
            <==> NoStrayListing(bs, id, current, home)
  {
    var cheap, full := Incremental(bs, id, current, home), FullScan(bs, id, home);
    forall i | 0 <= i < |bs| ensures cheap[i] == full[i] <==> NotStray(bs[i], id, current, home) {
      SyncsAgreeAt(bs, id, current, home, i);
    }
    if NoStrayListing(bs, id, current, home) {
      forall i | 0 <= i < |bs| ensures cheap[i] == full[i] {
        assert bs[i] in bs;
      }
    }
  }

  /** Two-way links rule out stray listings, so on such graphs the incremental update refines the scan. */
  lemma LinkedSyncsAgree(g: Graph, n: Node, home: Option<Uuid>)
    requires Linked(g) && n in g.nodes
    ensures Incremental(g.boundaries, n.id, n.home, home) == FullScan(g.boundaries, n.id, home)
  {
    SyncsAgreeIff(g.boundaries, n.id, n.home, home);
  }

  /** Without two-way links the two really differ: a stray listing survives the incremental update. */
  lemma SyncsDisagreeOnStray()
    ensures exists g: Graph, n: Node, home: Option<Uuid> ::
              Resolved(g) && n in g.nodes
              && Incremental(g.boundaries, n.id, n.home, home) != FullScan(g.boundaries, n.id, home)
  {
    var n := Node(1, "process", "n", 0.0, 0.0, None, None, None, Fields(map[]));
    var b := Boundary(2, "b", [1], Rect(0.0, 0.0, 0.0, 0.0), None, None);
    var g := Graph([n], [], [b]);
    assert n in g.nodes && b in g.boundaries;
    assert 1 in NodeIds(g.nodes);
    assert Resolved(g);
    assert Incremental(g.boundaries, 1, None, None)[0].members == [1];
    assert FullScan(g.boundaries, 1, None)[0].members == RemoveMember([1], 1);
  }
}
