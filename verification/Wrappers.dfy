/** Stock result types, the identifier type every other module uses, and lists without repetition. */
module Wrappers {
  datatype Option<+T> = None | Some(value: T)

  datatype Result<+T, +E> = Ok(value: T) | Err(error: E)

  /** A UUID, as the 128-bit number it denotes.  `str(uuid)` is fixed-width lower-case
      hexadecimal, so ordering the strings and ordering the numbers agree. */
  type Uuid = nat

  /** `uuid4` as an oracle: `mint(0)`, `mint(1)`, ... are pairwise distinct and none is in use. */
  ghost predicate FreshSupply(mint: nat -> Uuid, used: set<Uuid>) {
    && (forall i: nat :: mint(i) !in used)
    && (forall i: nat, j: nat :: i != j ==> mint(i) != mint(j))
  }

  /** A partial update: the value sent, if any. */
  function Patch<T>(current: T, sent: Option<T>): T {
    if sent.Some? then sent.value else current
  }

  ghost predicate Distinct<T>(s: seq<T>) {
    forall i, j | 0 <= i < j < |s| :: s[i] != s[j]
  }

  function Elements(ids: seq<Uuid>): set<Uuid> {
    set id: Uuid | id in ids
  }

  /** `len({ids})` falls short of `len(ids)` exactly when an id repeats. */
  lemma {:induction false} DistinctCount(ids: seq<Uuid>)
    ensures |Elements(ids)| <= |ids|
    ensures |Elements(ids)| == |ids| <==> Distinct(ids)
  {
    if ids != [] {
      var init, last := ids[..|ids| - 1], ids[|ids| - 1];
      DistinctCount(init);
      assert ids == init + [last];
      assert Elements(ids) == Elements(init) + {last};
      if last !in init {
        assert forall i | 0 <= i < |init| :: ids[i] == init[i] != last;
      }
    }
  }

  /** `after` are the elements of `before` at the positions `at`, in order. */
  ghost predicate PickedAt<T>(before: seq<T>, after: seq<T>, at: seq<nat>) {
    && |at| == |after| && (forall k | 0 <= k < |at| :: at[k] < |before| && after[k] == before[at[k]])
    && forall j, k | 0 <= j < k < |at| :: at[j] < at[k]
  }
}
