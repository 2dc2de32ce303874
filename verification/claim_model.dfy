/** The claim record of the contract-claim system and the validation its
    data annotations impose on a claim bound from a submitted form.

    Amounts are `decimal` in the system; they are modelled as exact `real`s.
    Nullable strings are `Option<string>`. */
module ClaimModel {

  datatype Option<+T> = None | Some(value: T)

  /** The three status strings the claim workflow writes. */
  const Pending: string := "Pending"
  const Approved: string := "Approved"
  const Rejected: string := "Rejected"

  predicate IsKnownStatus(s: string) {
    s == Pending || s == Approved || s == Rejected
  }

  /** A clock reading, kept opaque. */
  type Timestamp = int

  /** One claim row. `id` is the primary key the store assigns. */
  datatype ClaimSubmission = ClaimSubmission(
    id: int,
    lecturerName: Option<string>,
    hoursWorked: real,
    hourlyRate: real,
    additionalNotes: Option<string>,
    claimDate: Timestamp,
    status: string,
    supportingDocument: Option<string>,
    additionalUploads: seq<string>)

  /** A claim as the parameterless constructor builds it when the clock reads
      `now`: every property holds its declared default. */
  function NewClaim(now: Timestamp): (c: ClaimSubmission)
    ensures c.status == Pending
    ensures c.additionalUploads == []
    ensures c.claimDate == now
    ensures c.lecturerName.None? && c.additionalNotes.None? && c.supportingDocument.None?
    ensures c.hoursWorked == 0.0 && c.hourlyRate == 0.0
  {
    ClaimSubmission(0, None, 0.0, 0.0, None, now, Pending, None, [])
  }

  // ---------------------------------------------------------------------
  // Validation
  // ---------------------------------------------------------------------

  /** The characters .NET's `char.IsWhiteSpace` accepts (Unicode categories
      Zs, Zl, Zp plus the control characters TAB..CR and NEL). */
  predicate IsWhiteSpace(ch: char) {
    || ('\t' <= ch <= '\r')
    || ch == ' '
    || ch == '\U{85}'
    || ch == '\U{A0}'
    || ch == '\U{1680}'
    || ('\U{2000}' <= ch <= '\U{200A}')
    || ch == '\U{2028}'
    || ch == '\U{2029}'
    || ch == '\U{202F}'
    || ch == '\U{205F}'
    || ch == '\U{3000}'
  }

  /** `[Required]` on a string: rejects null, and (empty strings being
      allowed only on request) every string made of white space alone. */
  predicate RequiredHolds(s: Option<string>) {
    s.Some? && exists i :: 0 <= i < |s.value| && !IsWhiteSpace(s.value[i])
  }

  /** `[Range(0, double.MaxValue)]` on a decimal: the upper bound exceeds
      every decimal, so only the lower bound constrains. */
  predicate InRange(x: real) {
    x >= 0.0
  }

  /** A model-state error, one per failing annotated field. */
  datatype FieldError = LecturerNameRequired | HoursWorkedRange | HourlyRateRange {
    function Message(): string {
      match this
      case LecturerNameRequired => "The LecturerName field is required."
      case HoursWorkedRange => "Hours Worked must be a positive value."
      case HourlyRateRange => "Hourly Rate must be a positive value."
    }
  }

  /** The model-state errors the annotations produce for a bound claim, in
      declaration order of the fields. */
  function ValidationErrors(c: ClaimSubmission): (errs: seq<FieldError>)
    ensures LecturerNameRequired in errs <==> !RequiredHolds(c.lecturerName)
    ensures HoursWorkedRange in errs <==> !InRange(c.hoursWorked)
    ensures HourlyRateRange in errs <==> !InRange(c.hourlyRate)
    ensures forall i, j :: 0 <= i < j < |errs| ==> errs[i] != errs[j]
  {
    (if RequiredHolds(c.lecturerName) then [] else [LecturerNameRequired])
    + (if InRange(c.hoursWorked) then [] else [HoursWorkedRange])
    + (if InRange(c.hourlyRate) then [] else [HourlyRateRange])
  }

  /** The messages the model state carries for a bound claim, one per
      field error and in the same order. */
  function ErrorMessages(c: ClaimSubmission): (msgs: seq<string>)
    ensures |msgs| == |ValidationErrors(c)|
    ensures "The LecturerName field is required." in msgs <==> !RequiredHolds(c.lecturerName)
    ensures "Hours Worked must be a positive value." in msgs <==> c.hoursWorked < 0.0
    ensures "Hourly Rate must be a positive value." in msgs <==> c.hourlyRate < 0.0
  {
    var errs := ValidationErrors(c);
    var msgs := seq(|errs|, i requires 0 <= i < |errs| => errs[i].Message());
    forall e: FieldError
      ensures e.Message() in msgs <==> e in errs
    {
      if e in errs {
        var i :| 0 <= i < |errs| && errs[i] == e;
        assert msgs[i] == e.Message();
      }
      if e.Message() in msgs {
        var i :| 0 <= i < |msgs| && msgs[i] == e.Message();
        MessagesDistinct(errs[i], e);
      }
    }
    msgs
  }

  /** Different errors carry different messages. */
  lemma MessagesDistinct(e1: FieldError, e2: FieldError)
    ensures e1.Message() == e2.Message() ==> e1 == e2
  {
    if e1 != e2 {
      assert |e1.Message()| != |e2.Message()|;
    }
  }

  /** `ModelState.IsValid` for a bound claim. */
  predicate IsValid(c: ClaimSubmission) {
    ValidationErrors(c) == []
  }

  /** Validity needs a present, non-blank lecturer name and non-negative
      hours and rate; notes, supporting document, status, date and uploads
      play no part. */
  lemma IsValidIff(c: ClaimSubmission)
    ensures IsValid(c) <==>
      RequiredHolds(c.lecturerName) && c.hoursWorked >= 0.0 && c.hourlyRate >= 0.0
  {
  }

  /** A freshly constructed claim fails validation, and only for lack of a
      lecturer name: giving it a non-blank name makes it valid. */
  lemma NewClaimNeedsOnlyName(now: Timestamp, name: string)
    ensures ValidationErrors(NewClaim(now)) == [LecturerNameRequired]
    ensures IsValid(NewClaim(now).(lecturerName := Some(name))) <==> RequiredHolds(Some(name))
  {
  }
}
