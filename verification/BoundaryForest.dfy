/** The parent relation between trust boundaries, and the depth-first cycle check that guards
    bulk saves (`_ensure_no_boundary_parent_cycles`). */
module BoundaryForest {
  import opened Wrappers

  type ParentMap = map<Uuid, Option<Uuid>>

  /** `parent_lookup.get(id)`: an id outside the map has no parent. */
  function ParentOf(m: ParentMap, id: Uuid): Option<Uuid> {
    if id in m then m[id] else None
  }

  /** The `n`-th ancestor of `id`, or None when the chain ends before that. */
  function Ancestor(m: ParentMap, id: Uuid, n: nat): Option<Uuid>
    decreases n
  {
    if n == 0 then Some(id)
    else match ParentOf(m, id)
      case None => None
      case Some(p) => Ancestor(m, p, n - 1)
  }

  /** The parent chain of `id` is finite: it runs into None or leaves the map. */
  ghost predicate Ends(m: ParentMap, id: Uuid) {
    exists n: nat :: Ancestor(m, id, n) == None
  }

  ghost predicate Acyclic(m: ParentMap) {
    forall id | id in m :: Ends(m, id)
  }

  ghost predicate Reaches(m: ParentMap, from: Uuid, to: Uuid) {
    exists n: nat :: n > 0 && Ancestor(m, from, n) == Some(to)
  }

  ghost predicate HasCycle(m: ParentMap) {
    exists id :: Reaches(m, id, id)
  }

  lemma {:induction false} AncestorCompose(m: ParentMap, id: Uuid, a: nat, b: nat)
    ensures Ancestor(m, id, a) == None ==> Ancestor(m, id, a + b) == None
    ensures Ancestor(m, id, a).Some? ==> Ancestor(m, id, a + b) == Ancestor(m, Ancestor(m, id, a).value, b)
    decreases a
  {
    if a > 0 && ParentOf(m, id).Some? {
      AncestorCompose(m, ParentOf(m, id).value, a - 1, b);
    }
  }

  lemma EndsIffParentEnds(m: ParentMap, id: Uuid)
    ensures Ends(m, id) <==> (ParentOf(m, id).Some? ==> Ends(m, ParentOf(m, id).value))
  {
    match ParentOf(m, id)
    case None =>
      assert Ancestor(m, id, 1) == None;
    case Some(p) =>
      if Ends(m, id) {
        var n: nat :| Ancestor(m, id, n) == None;
        assert Ancestor(m, p, n - 1) == None;
      }
      if Ends(m, p) {
        var n: nat :| Ancestor(m, p, n) == None;
        assert Ancestor(m, id, n + 1) == None;
      }
  }

  lemma {:induction false} CycleNeverEnds(m: ParentMap, id: Uuid, n: nat, k: nat)
    requires n > 0 && Ancestor(m, id, n) == Some(id)
    ensures Ancestor(m, id, k) != None
    decreases k
  {
    if k >= n {
      AncestorCompose(m, id, n, k - n);
      CycleNeverEnds(m, id, n, k - n);
    } else {
      AncestorCompose(m, id, k, n - k);
    }
  }

  lemma ReachesSelfNeverEnds(m: ParentMap, id: Uuid)
    requires Reaches(m, id, id)
    ensures !Ends(m, id)
  {
    var n: nat :| n > 0 && Ancestor(m, id, n) == Some(id);
    forall k: nat ensures Ancestor(m, id, k) != None {
      CycleNeverEnds(m, id, n, k);
    }
  }

  /** Following one parent link extends every path that led to `id`. */
  lemma ReachesStep(m: ParentMap, onPath: set<Uuid>, id: Uuid, p: Uuid)
    requires forall v <- onPath :: Reaches(m, v, id)
    requires ParentOf(m, id) == Some(p)
    ensures forall v <- onPath + {id} :: Reaches(m, v, p)
  {
    assert Ancestor(m, p, 0) == Some(p);
    assert Ancestor(m, id, 1) == Some(p);
    forall v <- onPath ensures Reaches(m, v, p) {
      var n: nat :| n > 0 && Ancestor(m, v, n) == Some(id);
      AncestorCompose(m, v, n, 1);
      assert Ancestor(m, v, n + 1) == Some(p);
    }
  }

  lemma {:induction false} EndsOrCycle(m: ParentMap, id: Uuid, onPath: set<Uuid>)
    requires forall v <- onPath :: Reaches(m, v, id)
    ensures Ends(m, id) || HasCycle(m)
    decreases m.Keys - onPath
  {
    if id !in onPath {
      EndsIffParentEnds(m, id);
      if ParentOf(m, id).Some? {
        var p := ParentOf(m, id).value;
        ReachesStep(m, onPath, id, p);
        assert id in m.Keys - onPath && id !in m.Keys - (onPath + {id});
        EndsOrCycle(m, p, onPath + {id});
      }
    }
  }

  /** "Every parent chain ends" and "no boundary is its own ancestor" are the same requirement. */
  lemma AcyclicIffNoCycle(m: ParentMap)
    ensures Acyclic(m) <==> !HasCycle(m)
  {
    if Acyclic(m) && HasCycle(m) {
      var id: Uuid :| Reaches(m, id, id);
      var n: nat :| n > 0 && Ancestor(m, id, n) == Some(id);
      assert id in m;
      ReachesSelfNeverEnds(m, id);
      assert false;
    }
    if !HasCycle(m) {
      forall id | id in m ensures Ends(m, id) {
        EndsOrCycle(m, id, {});
      }
    }
  }

  /** The closure `visit` with the two sets it captures.  Raising the 400 is returning false. */
  class CycleCheck {
    const parentLookup: ParentMap
    var visiting: set<Uuid>
    var visited: set<Uuid>

    constructor (m: ParentMap)
      ensures parentLookup == m && visiting == {} && visited == {}
    {
      parentLookup, visiting, visited := m, {}, {};
    }

    ghost predicate Sound()
      reads this
    {
      forall v <- visited :: Ends(parentLookup, v)
    }

    method Visit(id: Uuid) returns (ok: bool)
      requires Sound()
      requires forall v <- visiting :: Reaches(parentLookup, v, id)
      modifies this
      ensures ok <==> Ends(parentLookup, id)
      ensures ok ==> Sound() && visiting == old(visiting) && visited >= old(visited) + {id}
      decreases parentLookup.Keys - visiting
    {
      if id in visited {
        return true;
      }
      if id in visiting {
        ReachesSelfNeverEnds(parentLookup, id);
        return false;
      }
      EndsIffParentEnds(parentLookup, id);
      visiting := visiting + {id};
      var parent := ParentOf(parentLookup, id);
      if parent.Some? {
        ReachesStep(parentLookup, old(visiting), id, parent.value);
        assert id in parentLookup.Keys - old(visiting) && id !in parentLookup.Keys - visiting;
        ok := Visit(parent.value);
        if !ok {
          return false;
        }
      }
      visiting := visiting - {id};
      visited := visited + {id};
      ok := true;
    }
  }

  /** Accepts exactly the maps all of whose parent chains end.  `keys` is the dictionary's
      iteration order. */
  method EnsureNoBoundaryParentCycles(m: ParentMap, keys: seq<Uuid>) returns (ok: bool)
    requires forall id :: id in keys <==> id in m
    ensures ok <==> Acyclic(m)
  {
    var check := new CycleCheck(m);
    for i := 0 to |keys|
      invariant check.parentLookup == m && check.visiting == {} && check.Sound()
      invariant forall j | 0 <= j < i :: Ends(m, keys[j])
    {
      ok := check.Visit(keys[i]);
      if !ok {
        assert keys[i] in m;
        return false;
      }
    }
    return true;
  }

  // ---- What the editor does to the parent map ----

  /** `m'` only drops parent links of `m`: deleting a boundary (dangling or SET NULL) and adding
      a parentless one both do no more than that. */
  ghost predicate Pruned(m': ParentMap, m: ParentMap) {
    forall id :: ParentOf(m', id) == None || ParentOf(m', id) == ParentOf(m, id)
  }

  lemma {:induction false} PruneShortens(m': ParentMap, m: ParentMap, id: Uuid, n: nat)
    requires Pruned(m', m) && Ancestor(m, id, n) == None
    ensures Ancestor(m', id, n) == None
    decreases n
  {
    if n > 0 && ParentOf(m', id).Some? {
      PruneShortens(m', m, ParentOf(m', id).value, n - 1);
    }
  }

  lemma PruneKeepsAcyclic(m': ParentMap, m: ParentMap)
    requires Pruned(m', m) && Acyclic(m)
    ensures Acyclic(m')
  {
    forall id | id in m' ensures Ends(m', id) {
      if id in m {
        var n: nat :| Ancestor(m, id, n) == None;
        PruneShortens(m', m, id, n);
      } else {
        assert ParentOf(m', id) == None;
        assert Ancestor(m', id, 1) == None;
      }
    }
  }

  lemma {:induction false} AncestorSkipsNewKey(m: ParentMap, k: Uuid, p: Option<Uuid>, id: Uuid, n: nat)
    requires id != k && forall x | x in m :: m[x] != Some(k)
    ensures Ancestor(m[k := p], id, n) == Ancestor(m, id, n)
    decreases n
  {
    if n > 0 && ParentOf(m, id).Some? {
      AncestorSkipsNewKey(m, k, p, ParentOf(m, id).value, n - 1);
    }
  }

  /** A new boundary below an existing one cannot close a cycle as long as nothing points to it yet. */
  lemma NewChildKeepsAcyclic(m: ParentMap, k: Uuid, q: Uuid)
    requires Acyclic(m) && k !in m && q in m && forall x | x in m :: m[x] != Some(k)
    ensures Acyclic(m[k := Some(q)])
  {
    var m' := m[k := Some(q)];
    forall id | id in m' && id != k ensures Ends(m', id) {
      var n: nat :| Ancestor(m, id, n) == None;
      AncestorSkipsNewKey(m, k, Some(q), id, n);
    }
    EndsIffParentEnds(m', k);
  }
}
