/** The entities of the case-status lifecycle: a case status episode and its versioned answers. */
module CaseStatusModel {
  import opened Wrappers

  /** Dates (`DateTime.Today`, start and end dates) and instants (`ISystemTime.Now`) on one tick scale. */
  type Date = int

  /** The text of a `Guid` that tags one generation of answers. */
  type GroupId = string

  /** The two readings of the clock an operation uses: the current instant and today's date. */
  datatype Clock = Clock(now: Date, today: Date)

  /** One versioned option/value pair of a case status. The row id and owning status id are not modelled:
      an answer belongs to the status whose `answers` hold it. */
  datatype Answer = Answer(
    option: string,
    value: string,
    startDate: Date,
    endDate: Option<Date>,
    discardedAt: Option<Date>,
    groupId: GroupId,
    createdBy: string,
    createdAt: Date,
    lastModifiedBy: Option<string>)
  {
    /** The option/value pair the answer records. */
    function Input(): AnswerInput {
      AnswerInput(option, value)
    }
  }

  /** One case-status episode of a person; `kind` is the type string as stored ("CIN", "cp", ...). */
  datatype CaseStatus = CaseStatus(
    id: int,
    personId: int,
    kind: string,
    startDate: Date,
    endDate: Option<Date>,
    notes: Option<string>,
    createdBy: string,
    lastModifiedBy: Option<string>,
    answers: seq<Answer>)

  /** An option/value pair as it arrives in a request. */
  datatype AnswerInput = AnswerInput(option: string, value: string)

  datatype CreateStatusRequest = CreateStatusRequest(
    personId: int,
    kind: string,
    startDate: Date,
    notes: Option<string>,
    createdBy: string,
    answers: seq<AnswerInput>)

  datatype UpdateStatusRequest = UpdateStatusRequest(
    caseStatusId: int,
    startDate: Option<Date>,
    endDate: Option<Date>,
    notes: Option<string>,
    editedBy: string,
    answers: seq<AnswerInput>)

  /** The request of both `CreateCaseStatusAnswer` and `ReplaceCaseStatusAnswers`. */
  datatype AnswerRequest = AnswerRequest(
    caseStatusId: int,
    startDate: Date,
    createdBy: string,
    answers: seq<AnswerInput>)

  /** The exceptions the gateway throws. `MissingStartDate` is the failing `(DateTime)` cast
      of a null start date. */
  datatype Error = StatusNotFound | InvalidEndDate | InvalidStartDate | MissingStartDate

  /** The status types the update policy distinguishes. */
  datatype StatusType = Cin | Cp | Lac | OtherType

  /** ASCII lower-casing of one character. */
  function LowerChar(c: char): char {
    if 'A' <= c <= 'Z' then (c as int + 32) as char else c
  }

  /** ASCII upper-casing of one character. */
  function UpperChar(c: char): char {
    if 'a' <= c <= 'z' then (c as int - 32) as char else c
  }

  /** `string.ToLower()` restricted to ASCII letters. */
  function Lower(s: string): string {
    seq(|s|, i requires 0 <= i < |s| => LowerChar(s[i]))
  }

  /** The branch of the update policy a stored type string selects (`Type.ToLower()` compared with
      "cin", "cp" and "lac"). */
  function Classify(kind: string): StatusType {
    var k := Lower(kind);
    if k == "cin" then Cin
    else if k == "cp" then Cp
    else if k == "lac" then Lac
    else OtherType
  }

  /** `s` spells the lower-case word `word` with each letter in either case. */
  predicate SpelledIgnoringCase(s: string, word: string) {
    |s| == |word| && forall i :: 0 <= i < |s| ==> s[i] == word[i] || s[i] == UpperChar(word[i])
  }

  /** Neither discarded nor ended. */
  predicate IsActive(a: Answer) {
    a.discardedAt.None? && a.endDate.None?
  }

  /** Not discarded, and either open or ending after `today`. */
  predicate IsLive(a: Answer, today: Date) {
    a.discardedAt.None? && (a.endDate.None? || a.endDate.value > today)
  }

  /** Not discarded. */
  predicate IsKept(a: Answer) {
    a.discardedAt.None?
  }

  /** `b` is the same answer version as `a`: only its retirement fields (end date, discard time,
      last editor) may differ. */
  predicate SameVersion(a: Answer, b: Answer) {
    && a.option == b.option
    && a.value == b.value
    && a.startDate == b.startDate
    && a.groupId == b.groupId
    && a.createdBy == b.createdBy
    && a.createdAt == b.createdAt
  }

  /** The generations present in `xs`. */
  function GroupIds(xs: seq<Answer>): set<GroupId> {
    set a | a in xs :: a.groupId
  }

  /** All active answers belong to one generation. */
  predicate SingleActiveGroup(xs: seq<Answer>) {
    forall i, j :: 0 <= i < |xs| && 0 <= j < |xs| && IsActive(xs[i]) && IsActive(xs[j]) ==>
      xs[i].groupId == xs[j].groupId
  }

  /** The option/value pairs of `xs`, in order. */
  function Inputs(xs: seq<Answer>): (r: seq<AnswerInput>)
    ensures |r| == |xs|
  {
    seq(|xs|, i requires 0 <= i < |xs| => xs[i].Input())
  }
}
