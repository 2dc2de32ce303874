/** Properties of the claim workflow across actions: the invariant every
    stored row keeps, what a run of actions preserves, and how a decision
    moves a claim between the status listings. */
module WorkflowProperties {
  import opened ClaimModel
  import opened ClaimStore
  import opened ClaimsController

  /** What every stored row satisfies: it sits under its own key, carries one
      of the three workflow statuses, has an owner and non-negative amounts. */
  predicate WellFormed(store: Store) {
    forall k :: k in store ==>
      && store[k].id == k
      && IsKnownStatus(store[k].status)
      && store[k].lecturerName.Some?
      && store[k].hoursWorked >= 0.0
      && store[k].hourlyRate >= 0.0
  }

  /** The store-changing requests. */
  datatype Action =
    | Submit(caller: Caller, claim: ClaimSubmission, file: Option<FormFile>, freshId: int)
    | Approve(caller: Caller, claimId: int)
    | Reject(caller: Caller, claimId: int)
    | Upload(caller: Caller, claimId: int, files: seq<FormFile>)

  /** The store can serve the request: a submission gets a key not in use. */
  predicate Enabled(store: Store, a: Action) {
    a.Submit? ==> a.freshId !in store
  }

  function Apply(store: Store, a: Action): Step
    requires Enabled(store, a)
  {
    match a
    case Submit(caller, claim, file, id) => SubmitClaim(store, caller, claim, file, id)
    case Approve(caller, id) => ApproveClaim(store, caller, id)
    case Reject(caller, id) => RejectClaim(store, caller, id)
    case Upload(caller, id, files) => UploadAdditionalFiles(store, caller, id, files)
  }

  /** Each request of the sequence can be served in turn. */
  predicate Feasible(store: Store, actions: seq<Action>)
    decreases |actions|
  {
    actions == [] || (Enabled(store, actions[0]) && Feasible(Apply(store, actions[0]).store, actions[1..]))
  }

  /** The store after serving the requests one after another. */
  function Run(store: Store, actions: seq<Action>): Store
    requires Feasible(store, actions)
    decreases |actions|
  {
    if actions == [] then store else Run(Apply(store, actions[0]).store, actions[1..])
  }

  /** How a row may change once stored: key, owner, amounts, notes, date
      and supporting document stay; the upload list only grows at the end;
      the status may be anything the workflow writes. */
  predicate RowEvolves(before: ClaimSubmission, after: ClaimSubmission) {
    && after.id == before.id
    && after.lecturerName == before.lecturerName
    && after.hoursWorked == before.hoursWorked
    && after.hourlyRate == before.hourlyRate
    && after.additionalNotes == before.additionalNotes
    && after.claimDate == before.claimDate
    && after.supportingDocument == before.supportingDocument
    && before.additionalUploads <= after.additionalUploads
  }

  /** No row is ever removed, and every row evolves as above. */
  predicate Evolves(before: Store, after: Store) {
    forall k :: k in before ==> k in after && RowEvolves(before[k], after[k])
  }

  lemma SubmitPreservesWellFormed(store: Store, caller: Caller, claim: ClaimSubmission,
                                  file: Option<FormFile>, freshId: int)
    requires WellFormed(store) && freshId !in store
    ensures WellFormed(SubmitClaim(store, caller, claim, file, freshId).store)
    ensures Evolves(store, SubmitClaim(store, caller, claim, file, freshId).store)
  {
    IsValidIff(claim);
    var after := SubmitClaim(store, caller, claim, file, freshId).store;
    forall k | k in store
      ensures k in after && RowEvolves(store[k], after[k])
    {
      assert after[k] == store[k];
    }
  }

  lemma DecidePreservesWellFormed(store: Store, caller: Caller, claimId: int, status: string)
    requires WellFormed(store) && IsKnownStatus(status)
    ensures WellFormed(Decide(store, caller, claimId, status).store)
    ensures Evolves(store, Decide(store, caller, claimId, status).store)
  {
  }

  lemma UploadPreservesWellFormed(store: Store, caller: Caller, claimId: int, files: seq<FormFile>)
    requires WellFormed(store)
    ensures WellFormed(UploadAdditionalFiles(store, caller, claimId, files).store)
    ensures Evolves(store, UploadAdditionalFiles(store, caller, claimId, files).store)
  {
  }

  /** Every request keeps the store well formed and lets rows only evolve. */
  lemma ApplyPreservesWellFormed(store: Store, a: Action)
    requires WellFormed(store) && Enabled(store, a)
    ensures WellFormed(Apply(store, a).store)
    ensures Evolves(store, Apply(store, a).store)
  {
    match a
    case Submit(caller, claim, file, id) => SubmitPreservesWellFormed(store, caller, claim, file, id);
    case Approve(caller, id) => DecidePreservesWellFormed(store, caller, id, Approved);
    case Reject(caller, id) => DecidePreservesWellFormed(store, caller, id, Rejected);
    case Upload(caller, id, files) => UploadPreservesWellFormed(store, caller, id, files);
  }

  /** A run of requests keeps the store well formed and only lets rows
      evolve: statuses stay within the three workflow values, no claim
      disappears, and an owner or an upload once recorded stays. */
  lemma {:induction false} RunPreservesWellFormed(store: Store, actions: seq<Action>)
    requires WellFormed(store) && Feasible(store, actions)
    ensures WellFormed(Run(store, actions))
    ensures Evolves(store, Run(store, actions))
    decreases |actions|
  {
    if actions != [] {
      var next := Apply(store, actions[0]).store;
      ApplyPreservesWellFormed(store, actions[0]);
      RunPreservesWellFormed(next, actions[1..]);
      var last := Run(next, actions[1..]);
      forall k | k in store
        ensures k in last && RowEvolves(store[k], last[k])
      {
        assert k in next && RowEvolves(store[k], next[k]);
        assert RowEvolves(next[k], last[k]);
      }
    }
  }

  /** Starting from an empty table, every stored status is Pending,
      Approved or Rejected, whatever requests arrive. */
  lemma StatusesAlwaysKnown(actions: seq<Action>)
    requires Feasible(map[], actions)
    ensures forall k :: k in Run(map[], actions) ==> IsKnownStatus(Run(map[], actions)[k].status)
  {
    RunPreservesWellFormed(map[], actions);
  }

  /** A submission adds a row exactly when a lecturer submits a valid claim,
      and then the row is among the caller's own pending claims. */
  lemma SubmitAddsOneIffValid(store: Store, caller: Caller, claim: ClaimSubmission,
                              file: Option<FormFile>, freshId: int)
    requires freshId !in store
    ensures var after := SubmitClaim(store, caller, claim, file, freshId).store;
      && (after == store <==> !(LecturerRole in caller.roles && IsValid(claim)))
      && |after| == |store| + (if LecturerRole in caller.roles && IsValid(claim) then 1 else 0)
      && (after != store ==>
            MatchingIds(after, ByLecturerAndStatus(caller.name, Pending))
              == MatchingIds(store, ByLecturerAndStatus(caller.name, Pending)) + {freshId})
  {
  }

  /** The lecturer name the form carries does not matter: two valid
      submissions differing only in that name have the same outcome. */
  lemma SubmitIgnoresClaimedName(store: Store, caller: Caller, claim: ClaimSubmission,
                                 file: Option<FormFile>, freshId: int, n1: string, n2: string)
    requires freshId !in store
    requires RequiredHolds(Some(n1)) && RequiredHolds(Some(n2))
    ensures SubmitClaim(store, caller, claim.(lecturerName := Some(n1)), file, freshId)
         == SubmitClaim(store, caller, claim.(lecturerName := Some(n2)), file, freshId)
  {
  }

  /** A decision moves the claim into the listing of its new status and out
      of the other two; every other claim stays where it was. */
  lemma DecisionMovesBetweenListings(store: Store, caller: Caller, claimId: int, status: string)
    requires ManagerRole in caller.roles && claimId in store
    ensures var after := ApproveClaim(store, caller, claimId).store;
      MatchingIds(after, ByStatus(status))
        == if status == Approved then MatchingIds(store, ByStatus(status)) + {claimId}
           else MatchingIds(store, ByStatus(status)) - {claimId}
    ensures var after := RejectClaim(store, caller, claimId).store;
      MatchingIds(after, ByStatus(status))
        == if status == Rejected then MatchingIds(store, ByStatus(status)) + {claimId}
           else MatchingIds(store, ByStatus(status)) - {claimId}
  {
  }

  /** Nothing guards a decided claim: deciding again overwrites the status,
      and repeating a decision changes nothing. */
  lemma DecisionsOverwrite(store: Store, caller: Caller, claimId: int)
    requires ManagerRole in caller.roles && claimId in store
    ensures var approved := ApproveClaim(store, caller, claimId).store;
      && ApproveClaim(approved, caller, claimId).store == approved
      && RejectClaim(approved, caller, claimId).store[claimId].status == Rejected
    ensures var rejected := RejectClaim(store, caller, claimId).store;
      && RejectClaim(rejected, caller, claimId).store == rejected
      && ApproveClaim(rejected, caller, claimId).store[claimId].status == Approved
  {
  }

  /** The store an owner's upload request leaves behind. */
  lemma UploadStore(store: Store, caller: Caller, claimId: int, files: seq<FormFile>)
    requires LecturerRole in caller.roles && Owns(store, caller, claimId)
    ensures UploadAdditionalFiles(store, caller, claimId, files).store
         == store[claimId := store[claimId].(additionalUploads := store[claimId].additionalUploads + References(files))]
  {
  }

  /** Two appends to one row's upload list are one append of both. */
  lemma AppendTwice(store: Store, claimId: int, x: seq<string>, y: seq<string>)
    requires claimId in store
    ensures var once := store[claimId := store[claimId].(additionalUploads := store[claimId].additionalUploads + x)];
      once[claimId := once[claimId].(additionalUploads := once[claimId].additionalUploads + y)]
      == store[claimId := store[claimId].(additionalUploads := store[claimId].additionalUploads + (x + y))]
  {
    assert store[claimId].additionalUploads + x + y == store[claimId].additionalUploads + (x + y);
  }

  /** Appending uploads in two requests gives the same list as appending
      all the files in one. */
  lemma UploadsCompose(store: Store, caller: Caller, claimId: int, a: seq<FormFile>, b: seq<FormFile>)
    requires LecturerRole in caller.roles && Owns(store, caller, claimId)
    ensures var once := UploadAdditionalFiles(store, caller, claimId, a).store;
      && Owns(once, caller, claimId)
      && UploadAdditionalFiles(once, caller, claimId, b).store
           == UploadAdditionalFiles(store, caller, claimId, a + b).store
  {
    UploadStore(store, caller, claimId, a);
    var once := UploadAdditionalFiles(store, caller, claimId, a).store;
    UploadStore(once, caller, claimId, b);
    UploadStore(store, caller, claimId, a + b);
    ReferencesAppend(a, b);
    AppendTwice(store, claimId, References(a), References(b));
  }

  /** A lecturer submits the claim of the controller test (named "Test
      Lecturer", 10 hours at rate 20, notes "Some notes", no file) while
      signed in as Bob; the action redirects to ClaimSubmitted and the stored
      row is Bob's, pending, without a document. A manager then approves it,
      and it leaves the pending listing for the approved one. */
  lemma SubmitApproveScenario()
    ensures
      var bob := Caller("Bob", {LecturerRole});
      var manager := Caller("Dean", {ManagerRole});
      var input := NewClaim(7).(lecturerName := Some("Test Lecturer"), hoursWorked := 10.0,
                                hourlyRate := 20.0, additionalNotes := Some("Some notes"));
      var submitted := SubmitClaim(map[], bob, input, None, 1);
      var approved := ApproveClaim(submitted.store, manager, 1);
      && submitted.response == RedirectToAction("ClaimSubmitted")
      && submitted.store == map[1 := ClaimSubmission(1, Some("Bob"), 10.0, 20.0, Some("Some notes"), 7, Pending, None, [])]
      && MatchingIds(submitted.store, ByStatus(Pending)) == {1}
      && MatchingIds(approved.store, ByStatus(Pending)) == {}
      && MatchingIds(approved.store, ByStatus(Approved)) == {1}
  {
    var input := NewClaim(7).(lecturerName := Some("Test Lecturer"), hoursWorked := 10.0,
                              hourlyRate := 20.0, additionalNotes := Some("Some notes"));
    assert !IsWhiteSpace(input.lecturerName.value[0]);
    IsValidIff(input);
    var bob := Caller("Bob", {LecturerRole});
    var manager := Caller("Dean", {ManagerRole});
    var submitted := SubmitClaim(map[], bob, input, None, 1);
    assert submitted.store.Keys == {1};
    DecisionMovesBetweenListings(submitted.store, manager, 1, Pending);
    DecisionMovesBetweenListings(submitted.store, manager, 1, Approved);
  }

  /** A claim with negative hours is turned back and nothing is stored. */
  lemma NegativeHoursRejected(store: Store, caller: Caller, claim: ClaimSubmission,
                              file: Option<FormFile>, freshId: int)
    requires freshId !in store && LecturerRole in caller.roles
    requires claim.hoursWorked < 0.0
    ensures var r := SubmitClaim(store, caller, claim, file, freshId);
      r.store == store && r.response.View? && r.response.model.ClaimForm?
      && HoursWorkedRange in ValidationErrors(claim)
  {
  }
}
