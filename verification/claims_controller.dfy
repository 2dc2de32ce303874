/** The actions of the claims controller as transitions over the claim
    store. Each action takes the authenticated caller explicitly and checks
    the role its authorisation attribute names before anything else; the
    mutating actions return the response together with the new store, the
    listings return the response and the keys of the rows they list.

    Writing files to disk is not modelled: an uploaded file contributes
    only its name and byte count, and the action records the reference
    path the file would be served under. */
module ClaimsController {
  import opened ClaimModel
  import opened ClaimStore

  /** The authenticated user: identity name and role claims. */
  datatype Caller = Caller(name: string, roles: set<string>)

  const LecturerRole: string := "Lecturer"
  const ManagerRole: string := "AcademicManager"

  /** An uploaded form file. */
  datatype FormFile = FormFile(fileName: string, length: int)

  datatype ViewModel =
    | ClaimForm(claim: ClaimSubmission)
    | ClaimList(claims: seq<ClaimSubmission>)

  /** Action results: a redirect to a named action, a rendered view, a 404,
      or the authorisation failure for a caller without the role. */
  datatype Response =
    | RedirectToAction(action: string)
    | View(model: ViewModel)
    | NotFound
    | Forbidden

  /** What a mutating action returns and the store it leaves behind. */
  datatype Step = Step(response: Response, store: Store)

  // ---------------------------------------------------------------------
  // File intake: reference paths
  // ---------------------------------------------------------------------

  const UploadsPrefix: string := "/uploads/"

  /** The public path of a saved upload: the uploads prefix followed by the
      file name, unchanged. */
  function UploadRef(fileName: string): (path: string)
    ensures |path| == |UploadsPrefix| + |fileName|
    ensures path[..|UploadsPrefix|] == UploadsPrefix
    ensures path[|UploadsPrefix|..] == fileName
  {
    UploadsPrefix + fileName
  }

  /** The file name a reference path stands for, if it is one: the inverse
      of `UploadRef`, used to state what a recorded reference names. */
  function ParseUploadRef(path: string): (name: Option<string>)
    ensures name.Some? ==> UploadRef(name.value) == path
    ensures name.None? ==> forall n :: UploadRef(n) != path
  {
    if |path| >= |UploadsPrefix| && path[..|UploadsPrefix|] == UploadsPrefix then
      Some(path[|UploadsPrefix|..])
    else
      assert forall n :: UploadRef(n)[..|UploadsPrefix|] == UploadsPrefix;
      None
  }

  /** Reference paths and file names are in one-to-one correspondence. */
  lemma UploadRefRoundTrip(fileName: string)
    ensures ParseUploadRef(UploadRef(fileName)) == Some(fileName)
  {
  }

  /** The supporting-document reference of a submission: a file with
      content is referenced by its name; a missing or empty file leaves the
      document unset. */
  function SupportingDocumentFor(file: Option<FormFile>): (doc: Option<string>)
    ensures doc.Some? <==> file.Some? && file.value.length > 0
    ensures doc.Some? ==> ParseUploadRef(doc.value) == Some(file.value.fileName)
  {
    if file.Some? && file.value.length > 0 then
      UploadRefRoundTrip(file.value.fileName);
      Some(UploadRef(file.value.fileName))
    else
      None
  }

  /** The references appended for a list of additional files: one per file
      with content, in the order given; empty files are skipped. */
  function References(files: seq<FormFile>): (refs: seq<string>)
    ensures |refs| <= |files|
  {
    if files == [] then
      []
    else
      (if files[0].length > 0 then [UploadRef(files[0].fileName)] else []) + References(files[1..])
  }

  /** Every reference stands for a file with content, and every file with
      content has its reference. */
  lemma {:induction false} ReferencesContents(files: seq<FormFile>)
    ensures forall p :: p in References(files) ==>
      exists i :: 0 <= i < |files| && files[i].length > 0 && p == UploadRef(files[i].fileName)
    ensures forall i :: 0 <= i < |files| && files[i].length > 0 ==>
      UploadRef(files[i].fileName) in References(files)
    decreases |files|
  {
    if files != [] {
      ReferencesContents(files[1..]);
      assert forall i :: 1 <= i < |files| ==> files[i] == files[1..][i - 1];
    }
  }

  /** Processing files one after another appends their references in order. */
  lemma {:induction false} ReferencesAppend(a: seq<FormFile>, b: seq<FormFile>)
    ensures References(a + b) == References(a) + References(b)
    decreases |a|
  {
    if a == [] {
      assert a + b == b;
    } else {
      assert (a + b)[1..] == a[1..] + b;
      ReferencesAppend(a[1..], b);
    }
  }

  /** Taking one more file appends at most its reference. */
  lemma ReferencesSnoc(files: seq<FormFile>, i: int)
    requires 0 <= i < |files|
    ensures References(files[..i + 1])
         == References(files[..i]) + (if files[i].length > 0 then [UploadRef(files[i].fileName)] else [])
  {
    assert files[..i + 1] == files[..i] + [files[i]];
    ReferencesAppend(files[..i], [files[i]]);
    assert [files[i]][1..] == [];
  }

  /** The loop over the additional files: each file with content appends its
      reference to the claim's upload list. */
  method AppendUploads(uploads: seq<string>, files: seq<FormFile>) returns (result: seq<string>)
    ensures result == uploads + References(files)
  {
    result := uploads;
    var i := 0;
    while i < |files|
      invariant 0 <= i <= |files|
      invariant result == uploads + References(files[..i])
    {
      ReferencesSnoc(files, i);
      if files[i].length > 0 {
        result := result + [UploadRef(files[i].fileName)];
      }
      i := i + 1;
    }
    assert files[..|files|] == files;
  }

  // ---------------------------------------------------------------------
  // Submitting a claim
  // ---------------------------------------------------------------------

  /** The bound claim after the action overwrites the lecturer name with the
      caller's and sets the supporting-document reference; every other
      field keeps the value the form carried. */
  function Prepare(claim: ClaimSubmission, caller: Caller, file: Option<FormFile>): (c: ClaimSubmission)
    ensures c.lecturerName == Some(caller.name)
    ensures c.supportingDocument == SupportingDocumentFor(file)
    ensures c.(lecturerName := claim.lecturerName, supportingDocument := claim.supportingDocument) == claim
  {
    claim.(lecturerName := Some(caller.name), supportingDocument := SupportingDocumentFor(file))
  }

  /** The row a successful submission stores under `id`: owned by the
      caller, pending, referencing the supporting document, with hours,
      rate, notes, date and uploads as submitted. */
  predicate StoredFrom(row: ClaimSubmission, claim: ClaimSubmission, caller: Caller,
                       file: Option<FormFile>, id: int)
  {
    && row.id == id
    && row.lecturerName == Some(caller.name)
    && row.status == Pending
    && row.supportingDocument == SupportingDocumentFor(file)
    && row.hoursWorked == claim.hoursWorked
    && row.hourlyRate == claim.hourlyRate
    && row.additionalNotes == claim.additionalNotes
    && row.claimDate == claim.claimDate
    && row.additionalUploads == claim.additionalUploads
  }

  /** POST SubmitClaim. Validity is decided on the claim as bound from the
      form, before the lecturer name is overwritten. A valid claim is stored
      under the key the store allocates (`freshId`); an invalid one is
      shown again, as modified, and nothing is stored. */
  function SubmitClaim(store: Store, caller: Caller, claim: ClaimSubmission,
                       supportingDocument: Option<FormFile>, freshId: int): (r: Step)
    requires freshId !in store
    ensures LecturerRole !in caller.roles ==> r == Step(Forbidden, store)
    ensures LecturerRole in caller.roles && !IsValid(claim) ==>
      r == Step(View(ClaimForm(Prepare(claim, caller, supportingDocument))), store)
    ensures LecturerRole in caller.roles && IsValid(claim) ==>
      && r.response == RedirectToAction("ClaimSubmitted")
      && r.store.Keys == store.Keys + {freshId}
      && (forall k :: k in store ==> r.store[k] == store[k])
      && StoredFrom(r.store[freshId], claim, caller, supportingDocument, freshId)
  {
    if LecturerRole !in caller.roles then
      Step(Forbidden, store)
    else
      var prepared := Prepare(claim, caller, supportingDocument);
      if IsValid(claim) then
        Step(RedirectToAction("ClaimSubmitted"), store[freshId := prepared.(id := freshId, status := Pending)])
      else
        Step(View(ClaimForm(prepared)), store)
  }

  // ---------------------------------------------------------------------
  // Approving and rejecting
  // ---------------------------------------------------------------------

  /** `after` is `before` with the status of row `id` set to `status`:
      no key added or removed, no other field or row touched. */
  predicate StatusSet(before: Store, after: Store, id: int, status: string) {
    && id in before
    && after.Keys == before.Keys
    && after[id].status == status
    && after[id].(status := before[id].status) == before[id]
    && forall k :: k in before && k != id ==> after[k] == before[k]
  }

  /** The shared body of ApproveClaim and RejectClaim. */
  function Decide(store: Store, caller: Caller, claimId: int, status: string): (r: Step)
    ensures ManagerRole !in caller.roles ==> r == Step(Forbidden, store)
    ensures ManagerRole in caller.roles && claimId !in store ==> r == Step(NotFound, store)
    ensures ManagerRole in caller.roles && claimId in store ==>
      r.response == RedirectToAction("ManageClaims") && StatusSet(store, r.store, claimId, status)
  {
    if ManagerRole !in caller.roles then
      Step(Forbidden, store)
    else if claimId !in store then
      Step(NotFound, store)
    else
      Step(RedirectToAction("ManageClaims"), store[claimId := store[claimId].(status := status)])
  }

  /** POST ApproveClaim: whatever the claim's current status. */
  function ApproveClaim(store: Store, caller: Caller, claimId: int): (r: Step)
    ensures ManagerRole !in caller.roles ==> r == Step(Forbidden, store)
    ensures ManagerRole in caller.roles && claimId !in store ==> r == Step(NotFound, store)
    ensures ManagerRole in caller.roles && claimId in store ==>
      r.response == RedirectToAction("ManageClaims") && StatusSet(store, r.store, claimId, Approved)
  {
    Decide(store, caller, claimId, Approved)
  }

  /** POST RejectClaim: whatever the claim's current status. */
  function RejectClaim(store: Store, caller: Caller, claimId: int): (r: Step)
    ensures ManagerRole !in caller.roles ==> r == Step(Forbidden, store)
    ensures ManagerRole in caller.roles && claimId !in store ==> r == Step(NotFound, store)
    ensures ManagerRole in caller.roles && claimId in store ==>
      r.response == RedirectToAction("ManageClaims") && StatusSet(store, r.store, claimId, Rejected)
  {
    Decide(store, caller, claimId, Rejected)
  }

  // ---------------------------------------------------------------------
  // Listings
  // ---------------------------------------------------------------------

  /** `rows`, listed under keys `ids`, are exactly the rows `q` selects, each
      once. */
  predicate ListsExactly(store: Store, q: Query, ids: seq<int>, rows: seq<ClaimSubmission>) {
    && |rows| == |ids|
    && (forall i :: 0 <= i < |ids| ==> ids[i] in store && rows[i] == store[ids[i]])
    && (forall i, j :: 0 <= i < j < |ids| ==> ids[i] != ids[j])
    && (forall i :: 0 <= i < |ids| ==> ids[i] in MatchingIds(store, q))
    && (forall k :: k in MatchingIds(store, q) ==> k in ids)
  }

  /** A listing guarded by `role`: the view of the rows `q` selects. */
  method ListFor(store: Store, caller: Caller, role: string, q: Query) returns (r: Response, ids: seq<int>)
    ensures role !in caller.roles ==> r == Forbidden && ids == []
    ensures role in caller.roles ==>
      r.View? && r.model.ClaimList? && ListsExactly(store, q, ids, r.model.claims)
      && forall c :: c in r.model.claims ==> Matches(q, c)
  {
    if role !in caller.roles {
      return Forbidden, [];
    }
    var rows;
    ids, rows := Where(store, q);
    r := View(ClaimList(rows));
  }

  /** GET ManageClaims: the pending claims. */
  method ManageClaims(store: Store, caller: Caller) returns (r: Response, ids: seq<int>)
    ensures ManagerRole !in caller.roles ==> r == Forbidden
    ensures ManagerRole in caller.roles ==>
      r.View? && r.model.ClaimList? && ListsExactly(store, ByStatus(Pending), ids, r.model.claims)
      && forall c :: c in r.model.claims ==> c.status == Pending
  {
    r, ids := ListFor(store, caller, ManagerRole, ByStatus(Pending));
  }

  /** GET ApprovedClaims: the approved claims. */
  method ApprovedClaims(store: Store, caller: Caller) returns (r: Response, ids: seq<int>)
    ensures ManagerRole !in caller.roles ==> r == Forbidden
    ensures ManagerRole in caller.roles ==>
      r.View? && r.model.ClaimList? && ListsExactly(store, ByStatus(Approved), ids, r.model.claims)
      && forall c :: c in r.model.claims ==> c.status == Approved
  {
    r, ids := ListFor(store, caller, ManagerRole, ByStatus(Approved));
  }

  /** GET RejectedClaims: the rejected claims. */
  method RejectedClaims(store: Store, caller: Caller) returns (r: Response, ids: seq<int>)
    ensures ManagerRole !in caller.roles ==> r == Forbidden
    ensures ManagerRole in caller.roles ==>
      r.View? && r.model.ClaimList? && ListsExactly(store, ByStatus(Rejected), ids, r.model.claims)
      && forall c :: c in r.model.claims ==> c.status == Rejected
  {
    r, ids := ListFor(store, caller, ManagerRole, ByStatus(Rejected));
  }

  /** GET UploadDocument: the caller's own pending claims, and never a claim
      of another lecturer. */
  method UploadDocument(store: Store, caller: Caller) returns (r: Response, ids: seq<int>)
    ensures LecturerRole !in caller.roles ==> r == Forbidden
    ensures LecturerRole in caller.roles ==>
      r.View? && r.model.ClaimList?
      && ListsExactly(store, ByLecturerAndStatus(caller.name, Pending), ids, r.model.claims)
      && forall c :: c in r.model.claims ==> c.lecturerName == Some(caller.name) && c.status == Pending
  {
    r, ids := ListFor(store, caller, LecturerRole, ByLecturerAndStatus(caller.name, Pending));
  }

  // ---------------------------------------------------------------------
  // Additional uploads
  // ---------------------------------------------------------------------

  /** The caller owns the claim stored under `claimId`. */
  predicate Owns(store: Store, caller: Caller, claimId: int) {
    claimId in store && store[claimId].lecturerName == Some(caller.name)
  }

  /** POST UploadAdditionalFiles: a missing claim and another lecturer's
      claim both answer NotFound; otherwise the references of the files
      with content are appended, in order, to the claim's upload list. */
  function UploadAdditionalFiles(store: Store, caller: Caller, claimId: int,
                                 additionalFiles: seq<FormFile>): (r: Step)
    ensures LecturerRole !in caller.roles ==> r == Step(Forbidden, store)
    ensures LecturerRole in caller.roles && !Owns(store, caller, claimId) ==> r == Step(NotFound, store)
    ensures LecturerRole in caller.roles && Owns(store, caller, claimId) ==>
      && r.response == RedirectToAction("UploadDocument")
      && r.store.Keys == store.Keys
      && (forall k :: k in store && k != claimId ==> r.store[k] == store[k])
      && store[claimId].additionalUploads <= r.store[claimId].additionalUploads
      && r.store[claimId].additionalUploads[|store[claimId].additionalUploads|..] == References(additionalFiles)
      && r.store[claimId].(additionalUploads := store[claimId].additionalUploads) == store[claimId]
  {
    if LecturerRole !in caller.roles then
      Step(Forbidden, store)
    else if !Owns(store, caller, claimId) then
      Step(NotFound, store)
    else
      var claim := store[claimId];
      var uploads := claim.additionalUploads + References(additionalFiles);
      assert uploads[|claim.additionalUploads|..] == References(additionalFiles);
      Step(RedirectToAction("UploadDocument"), store[claimId := claim.(additionalUploads := uploads)])
  }
}
