/** The `Claims` table seen through the data context: a finite map from
    primary key to claim row, and the two `Where` filters the controller
    runs over it. */
module ClaimStore {
  import opened ClaimModel

  type Store = map<int, ClaimSubmission>

  /** Every row sits under its own primary key. */
  predicate KeyedById(store: Store) {
    forall k :: k in store ==> store[k].id == k
  }

  /** The filters the controller passes to `Where`. */
  datatype Query =
    | ByStatus(status: string)
    | ByLecturerAndStatus(lecturer: string, status: string)

  predicate Matches(q: Query, c: ClaimSubmission) {
    match q
    case ByStatus(s) => c.status == s
    case ByLecturerAndStatus(n, s) => c.lecturerName == Some(n) && c.status == s
  }

  /** The keys of the rows a query selects: the reference the listing is
      checked against. */
  function MatchingIds(store: Store, q: Query): set<int> {
    set k | k in store && Matches(q, store[k])
  }

  /** `Where(q).ToListAsync()`: the selected rows, each exactly once, in the
      order the database scans them. The scan order is not specified by the
      system, so it is left to the choice made in each iteration. */
  method Where(store: Store, q: Query) returns (ids: seq<int>, rows: seq<ClaimSubmission>)
    ensures |rows| == |ids|
    ensures forall i :: 0 <= i < |ids| ==> ids[i] in store && rows[i] == store[ids[i]]
    ensures forall c :: c in rows ==> Matches(q, c)
    ensures forall i, j :: 0 <= i < j < |ids| ==> ids[i] != ids[j]
    ensures forall k :: k in ids <==> k in MatchingIds(store, q)
  {
    ids, rows := [], [];
    var todo := store.Keys;
    while todo != {}
      invariant todo <= store.Keys
      invariant |rows| == |ids|
      invariant forall i :: 0 <= i < |ids| ==>
        ids[i] in store && ids[i] !in todo && rows[i] == store[ids[i]] && Matches(q, rows[i])
      invariant forall i, j :: 0 <= i < j < |ids| ==> ids[i] != ids[j]
      invariant forall k :: k in store && k !in todo && Matches(q, store[k]) ==> k in ids
      decreases |todo|
    {
      EmptyOrInhabited(todo);
      var key :| key in todo;
      if Matches(q, store[key]) {
        ids, rows := ids + [key], rows + [store[key]];
      }
      todo := todo - {key};
    }
  }

  /** A key set is empty or has a member. */
  lemma EmptyOrInhabited(s: set<int>)
    ensures s == {} || exists x :: x in s
  {
    if forall x :: x !in s {
      assert s == {};
    }
  }
}
