# Contract claim workflow: a Dafny model

This project models the claim workflow of the ContractClaimSystem web application.
Lecturers submit hourly-work claims, with an optional supporting document, and may
attach further files to their own claims later. Academic managers list pending,
approved and rejected claims and approve or reject them.

The model is a small state machine over the `Claims` table, written as a finite map
from primary key to claim row (`ClaimStore.Store`):

- `claim_model.dfy` (module `ClaimModel`): the `ClaimSubmission` record and its
  defaults. It also holds the model-state validation that the data annotations
  impose on a claim bound from a form: `[Required]` on the lecturer name and
  `[Range(0, double.MaxValue)]` on hours and rate.
- `claim_store.dfy` (module `ClaimStore`): the table as a map, and the `Where`
  filters the controller runs over it (by status, and by lecturer and status).
- `claims_controller.dfy` (module `ClaimsController`): every action of
  `ClaimsController`. Each one is a transition that takes the authenticated caller
  `(name, roles)` explicitly and checks the role named in the action's
  `[Authorize(Roles = ...)]` attribute first. A caller without the role gets
  `Forbidden` and the store is left as it was. The mutating actions return a
  `Step(response, store)`. The listings return the response and the keys of the
  listed rows.
- `workflow_properties.dfy` (module `WorkflowProperties`): properties across
  actions. It covers the invariant every stored row keeps, runs of requests from
  an empty table, how a decision moves a claim between the listings, how upload
  requests compose, and the submit-then-approve scenario.

Behaviour of the code that is easy to miss:

- Validity is decided on the claim as the form bound it, before the action
  replaces the lecturer name with the caller's (ClaimsController.cs:38 runs after
  model binding has filled `ModelState`). A form without a lecturer name is
  therefore turned back even though the stored name would come from the caller.
- `[Required]` on a string rejects null and strings made only of white space. `IsWhiteSpace` lists the characters .NET's
  `char.IsWhiteSpace` accepts.
- A supporting document is recorded only for a file with `Length > 0`. A present
  but empty file leaves `SupportingDocument` null.
- An invalid submission renders the form again with the claim as modified by the
  action, carrying the caller's name and the document reference
  (ClaimsController.cs:93). The per-field errors stay in the model state
  (`ValidationErrors`, `ErrorMessages`).
- Approving or rejecting does not look at the current status
  (ClaimsController.cs:123, 140). A decided claim can be decided again, either
  way (`WorkflowProperties.DecisionsOverwrite`).
- On submission, the fields the form may carry besides name and document (notes,
  claim date, status, upload list) are bound from the form. Status is then set to
  Pending. Date and upload list are stored as bound.

## Model

| member | source | states |
|---|---|---|
| ClaimModel.NewClaim | ContractClaimSystem/Models/ClaimSubmission.cs:25-32 | A newly constructed claim is Pending, has an empty upload list, no name, notes or document, zero amounts, and the clock reading as its date |
| ClaimModel.ValidationErrors | ContractClaimSystem/Models/ClaimSubmission.cs:12-21 | Each of the three field errors is reported exactly when its annotation fails (name null or blank; hours below 0; rate below 0), at most once each |
| ClaimModel.ErrorMessages | ContractClaimSystem/Models/ClaimSubmission.cs:15-21 | The model state holds one message per field error; the hours and rate messages are the ones the Range attributes declare, each present exactly when its amount is negative, and the name message exactly when the name is null or blank |
| ClaimModel.IsValidIff | ContractClaimSystem/Models/ClaimSubmission.cs:12-29 | A bound claim is valid iff its lecturer name is present and not blank and hours and rate are at least 0; notes, document and the other fields play no part |
| ClaimModel.NewClaimNeedsOnlyName | ContractClaimSystem/Models/ClaimSubmission.cs:12-32 | A default claim fails validation only for its missing name, and giving it a name makes it valid exactly when the name is not blank |
| ClaimStore.Where | ContractClaimSystem/Controllers/ClaimsController.cs:170-172 | The filtered listing holds every row the query selects, each exactly once and under its own key, and no other row |
| ClaimsController.UploadRef | ContractClaimSystem/Controllers/ClaimsController.cs:51 | A reference path is "/uploads/" followed by the file name exactly as given, the same format the loop at line 197 builds |
| ClaimsController.ParseUploadRef | ContractClaimSystem/Controllers/ClaimsController.cs:51 | The specification inverse of the reference format (no source line parses paths): it recovers the name from a reference, and a path that no file name produces has none |
| ClaimsController.UploadRefRoundTrip | ContractClaimSystem/Controllers/ClaimsController.cs:197 | The reference path of a file name gives back exactly that name |
| ClaimsController.SupportingDocumentFor | ContractClaimSystem/Controllers/ClaimsController.cs:40-58 | A document reference is set iff a file is given with length above 0, and then it names that file under /uploads/; otherwise it is null |
| ClaimsController.References | ContractClaimSystem/Controllers/ClaimsController.cs:186-199 | The per-file processing appends at most one reference per file |
| ClaimsController.ReferencesContents | ContractClaimSystem/Controllers/ClaimsController.cs:189-197 | Every appended reference names a file with content under /uploads/, and every file with content gets its reference; zero-length files get none |
| ClaimsController.ReferencesAppend | ContractClaimSystem/Controllers/ClaimsController.cs:187-199 | Files are processed in call order: the references for a concatenation are the references of the first part followed by those of the second |
| ClaimsController.AppendUploads | ContractClaimSystem/Controllers/ClaimsController.cs:187-199 | The per-file loop leaves the old upload list followed by the references of the non-empty files, in order |
| ClaimsController.Prepare | ContractClaimSystem/Controllers/ClaimsController.cs:37-58 | After the action's edits the claim names the caller as lecturer and carries the document reference; every other field is as bound |
| ClaimsController.SubmitClaim | ContractClaimSystem/Controllers/ClaimsController.cs:33-94 | Non-lecturers are refused with nothing stored; an invalid bound claim is shown again, modified, with nothing stored; a valid one adds exactly one Pending row under the fresh key, owned by the caller, leaving every existing row untouched |
| ClaimsController.ApproveClaim | ContractClaimSystem/Controllers/ClaimsController.cs:113-127 | Non-managers are refused and an absent key answers NotFound, both with the store unchanged; otherwise only that row's status changes, to Approved, whatever it was |
| ClaimsController.RejectClaim | ContractClaimSystem/Controllers/ClaimsController.cs:130-144 | Non-managers are refused and an absent key answers NotFound, both with the store unchanged; otherwise only that row's status changes, to Rejected, whatever it was |
| ClaimsController.ManageClaims | ContractClaimSystem/Controllers/ClaimsController.cs:104-110 | Managers see exactly the Pending claims, each once; other callers are refused |
| ClaimsController.ApprovedClaims | ContractClaimSystem/Controllers/ClaimsController.cs:147-153 | Managers see exactly the Approved claims, each once; other callers are refused |
| ClaimsController.RejectedClaims | ContractClaimSystem/Controllers/ClaimsController.cs:156-162 | Managers see exactly the Rejected claims, each once; other callers are refused |
| ClaimsController.UploadDocument | ContractClaimSystem/Controllers/ClaimsController.cs:164-174 | A lecturer sees exactly their own Pending claims and never another lecturer's; other callers are refused |
| ClaimsController.UploadAdditionalFiles | ContractClaimSystem/Controllers/ClaimsController.cs:176-203 | Non-lecturers are refused; an absent or foreign claim answers NotFound with the store unchanged; otherwise the old upload list stays as a prefix and the new references follow, with no other field or row changed |
| WorkflowProperties.ApplyPreservesWellFormed | ContractClaimSystem/Controllers/ClaimsController.cs:69-199 | Every store-changing request keeps each row under its own key with a known status, an owner and non-negative amounts, removes no row, and changes no owner, amount, date, document or earlier upload |
| WorkflowProperties.RunPreservesWellFormed | ContractClaimSystem/Controllers/ClaimsController.cs:69-199 | The same holds across any sequence of requests |
| WorkflowProperties.StatusesAlwaysKnown | ContractClaimSystem/Controllers/ClaimsController.cs:74-140 | From an empty table, every status ever stored is Pending, Approved or Rejected |
| WorkflowProperties.SubmitAddsOneIffValid | ContractClaimSystem/Controllers/ClaimsController.cs:69-93 | The store changes exactly when a lecturer submits a valid claim; it then grows by one row, which joins the caller's own pending listing |
| WorkflowProperties.SubmitIgnoresClaimedName | ContractClaimSystem/Controllers/ClaimsController.cs:38 | Any non-blank lecturer name the form carries leads to the same response and store |
| WorkflowProperties.DecisionMovesBetweenListings | ContractClaimSystem/Controllers/ClaimsController.cs:115-161 | Approving or rejecting puts the claim in the listing of its new status and takes it out of the other two; no other claim moves |
| WorkflowProperties.DecisionsOverwrite | ContractClaimSystem/Controllers/ClaimsController.cs:117-141 | Repeating a decision changes nothing, and a decided claim can be decided the other way |
| WorkflowProperties.UploadsCompose | ContractClaimSystem/Controllers/ClaimsController.cs:187-201 | Two upload requests by the owner leave the same store as one request with all the files in order |
| WorkflowProperties.SubmitApproveScenario | ContractClaimSystem.Tests/ClaimsControllerTest.cs:28-41 | The test's claim ("Test Lecturer", 10 hours, rate 20, "Some notes", no file) submitted by Bob redirects to ClaimSubmitted, as the test asserts, and stores Bob's Pending row without a document; the approval half (ClaimsController.cs:113-127) has no test: after it the pending listing is empty and the approved listing holds the row |
| WorkflowProperties.NegativeHoursRejected | ContractClaimSystem/Models/ClaimSubmission.cs:15-17 | A submission with negative hours stores nothing, shows the form again and reports the hours error |

## Left out

- Writing uploaded files to disk (`FileStream`, `Path.Combine`) is I/O. A file contributes only its name and length, and only the reference path is modelled. Files that are written even though the submission turns out to be invalid, and same-name overwrites, are therefore not visible in the model.
- The database and the ORM are replaced by a map. The fresh key of a new row is a parameter that must not be in use. The catch of a failed save (ClaimsController.cs:81-84) is not modelled, and neither is a client-supplied `Id`: the store assigns the key.
- The `decimal(18,2)` column type from the schema migration (rounding to two places) and the range and precision limits of `decimal` are not modelled. Amounts are unbounded exact reals.
- `ClaimDate = DateTime.Now` is a clock read. `ClaimModel.NewClaim` takes the reading as a parameter.
- Authentication is not modelled. The caller is assumed to be signed in, and the challenge for an anonymous caller is left out. `Forbidden` stands for the framework's forbid result.
- Model-binding failures (a non-numeric amount) and the implicit `[Required]` that non-nullable reference types get under nullable annotations depend on project settings that are not part of this model. Validity follows the explicit attributes only.
- The GET form of `SubmitClaim` (ClaimsController.cs:25-30) and `ClaimSubmitted` (ClaimsController.cs:98-101) only render views and change nothing.
- Logging and view rendering are not modelled. Async execution is treated as sequential.
- The listing filters (ClaimsController.cs:108, 151, 160, 171) run as SQL under the database's collation, which for SQL Server by default ignores case and trailing spaces. `ClaimStore.Matches` uses exact string equality instead. So the model cannot show a claim that `UploadDocument` lists because its name differs from the caller's only in case, and that `UploadAdditionalFiles` then refuses, because its owner test (ClaimsController.cs:181) is an exact C# comparison.
- The row order of a listing is whatever order the database returns. `ClaimStore.Where` leaves it to the choice made at each iteration and promises only which rows appear.
- `AccountController.cs` is delegated entirely to the identity library (user and sign-in managers, role manager) and is not part of this model. Its tests (`AccountControllerTests.cs`) call members the controller does not have.
- The listing test at ClaimsControllerTest.cs:63-83 mocks an empty set and says nothing about filtering.
