/** The case-status gateway: lookups, the two read filters, status creation, the per-type update
    policy and the two answer operations. Every operation takes the loaded rows, the clock and the
    fresh group id as inputs and returns the status it would commit, or the exception it throws. */
module CaseStatusGateway {
  import opened Wrappers
  import opened CaseStatusModel
  import opened AnswerVersioning
  import Seqs

  /* ---------- Lookups and read filters ---------- */

  /** `FirstOrDefault(x => x.Id == id)`: the first row with the id, if any. */
  function Lookup(rows: seq<CaseStatus>, id: int): (r: Option<CaseStatus>)
    ensures r.None? <==> forall k :: 0 <= k < |rows| ==> rows[k].id != id
    ensures r.Some? ==> exists k :: 0 <= k < |rows| && rows[k] == r.value && r.value.id == id &&
                                    forall j :: 0 <= j < k ==> rows[j].id != id
  {
    if rows == [] then None
    else if rows[0].id == id then Some(rows[0])
    else
      var r := Lookup(rows[1..], id);
      assert r.Some? ==> exists k :: 0 <= k < |rows[1..]| && rows[1..][k] == r.value &&
                                     forall j :: 0 <= j < k ==> rows[1..][j].id != id;
      assert forall k :: 0 < k < |rows| ==> rows[k] == rows[1..][k - 1];
      r
  }

  /** `GetCaseStatusesByPersonId`: every status of the person, answers untouched. */
  function StatusesOfPerson(rows: seq<CaseStatus>, personId: int): (r: seq<CaseStatus>)
    ensures |r| <= |rows|
    ensures forall t :: t in r <==> t in rows && t.personId == personId
  {
    Seqs.Filter(rows, (s: CaseStatus) => s.personId == personId)
  }

  /** The status is open on `today`: no end date, or one after today. */
  predicate IsOpenOn(s: CaseStatus, today: Date) {
    s.endDate.None? || s.endDate.value > today
  }

  /** The status ends after `date`. */
  predicate EndsAfter(s: CaseStatus, date: Date) {
    s.endDate.Some? && s.endDate.value > date
  }

  /** A status of the active-statuses query, showing only its answers that are not discarded. */
  function WithoutDiscarded(s: CaseStatus): CaseStatus {
    s.(answers := Kept(s.answers))
  }

  /** A status of the closed-statuses query, showing only its active answers. */
  function WithActiveOnly(s: CaseStatus): CaseStatus {
    s.(answers := ActiveOnly(s.answers))
  }

  /** `GetActiveCaseStatusesByPersonId`: the person's statuses open today, without discarded answers. */
  function ActiveStatuses(rows: seq<CaseStatus>, personId: int, today: Date): (r: seq<CaseStatus>)
    ensures |r| <= |rows|
    ensures forall t :: t in r <==>
      exists s :: s in rows && s.personId == personId && IsOpenOn(s, today) && t == WithoutDiscarded(s)
    ensures forall t, a :: t in r && a in t.answers ==> IsKept(a)
  {
    if rows == [] then []
    else
      var s := rows[0];
      assert rows == [s] + rows[1..];
      (if s.personId == personId && IsOpenOn(s, today) then [WithoutDiscarded(s)] else [])
        + ActiveStatuses(rows[1..], personId, today)
  }

  /** `GetClosedCaseStatusesByPersonIdAndDate`: the person's statuses ending after `date`, showing
      only their active answers. */
  function ClosedStatuses(rows: seq<CaseStatus>, personId: int, date: Date): (r: seq<CaseStatus>)
    ensures |r| <= |rows|
    ensures forall t :: t in r <==>
      exists s :: s in rows && s.personId == personId && EndsAfter(s, date) && t == WithActiveOnly(s)
    ensures forall t, a :: t in r && a in t.answers ==> IsActive(a)
  {
    if rows == [] then []
    else
      var s := rows[0];
      assert rows == [s] + rows[1..];
      (if s.personId == personId && EndsAfter(s, date) then [WithActiveOnly(s)] else [])
        + ClosedStatuses(rows[1..], personId, date)
  }

  /* ---------- Creation ---------- */

  /** `CreateCaseStatus`: a new open status whose answers are one generation dated from its start. */
  function CreateCaseStatus(req: CreateStatusRequest, id: int, clock: Clock, group: GroupId): (r: CaseStatus)
    ensures r.id == id && r.personId == req.personId && r.kind == req.kind
    ensures r.startDate == req.startDate && r.notes == req.notes && r.createdBy == req.createdBy
    ensures r.endDate.None? && r.lastModifiedBy.None?
    ensures |r.answers| == |req.answers|
    ensures IsGroup(r.answers, req.answers, req.startDate, None, group, req.createdBy, clock.now)
  {
    CaseStatus(id, req.personId, req.kind, req.startDate, None, req.notes, req.createdBy, None,
               NewGroup(req.answers, req.startDate, None, group, req.createdBy, clock.now))
  }

  /** `after` is `before` followed by one new generation of `inputs` starting on `start`. */
  predicate Appended(before: seq<Answer>, after: seq<Answer>, inputs: seq<AnswerInput>, start: Date,
                     group: GroupId, editor: string, now: Date)
  {
    && |after| == |before| + |inputs|
    && after[..|before|] == before
    && IsGroup(after[|before|..], inputs, start, None, group, editor, now)
  }

  /** `CreateCaseStatusAnswer`: appends one generation to an existing status, retiring nothing. */
  function CreateCaseStatusAnswer(rows: seq<CaseStatus>, req: AnswerRequest, clock: Clock, group: GroupId)
    : (r: Result<CaseStatus, Error>)
    ensures match Lookup(rows, req.caseStatusId)
      case None => r == Failure(StatusNotFound)
      case Some(s) =>
        && r.Success?
        && r.value.(answers := s.answers) == s
        && Appended(s.answers, r.value.answers, req.answers, req.startDate, group, req.createdBy, clock.now)
  {
    match Lookup(rows, req.caseStatusId)
    case None => Failure(StatusNotFound)
    case Some(s) =>
      var added := NewGroup(req.answers, req.startDate, None, group, req.createdBy, clock.now);
      assert (s.answers + added)[..|s.answers|] == s.answers;
      assert (s.answers + added)[|s.answers|..] == added;
      Success(s.(answers := s.answers + added))
  }

  /* ---------- Replacing answers ---------- */

  /** Some active answer starts after today, so the active generation has not taken effect. */
  predicate HasFutureActive(xs: seq<Answer>, today: Date) {
    exists a :: a in xs && IsActive(a) && a.startDate > today
  }

  /** `after` is `before` with its active answers discarded (when the active generation has not
      started) or else ended on `req.startDate`, followed by one new generation of the request. */
  predicate Replaced(before: seq<Answer>, after: seq<Answer>, req: AnswerRequest, clock: Clock, group: GroupId) {
    var n := |before|;
    && |after| == n + |req.answers|
    && (forall i :: 0 <= i < n ==>
          if !IsActive(before[i]) then after[i] == before[i]
          else if HasFutureActive(before, clock.today) then Discarded(before[i], after[i], clock.now, req.createdBy)
          else Ended(before[i], after[i], req.startDate, req.createdBy))
    && IsGroup(after[n..], req.answers, req.startDate, None, group, req.createdBy, clock.now)
  }

  /** `ReplaceCaseStatusAnswers`: retires the active generation and appends the request's. */
  function ReplaceCaseStatusAnswers(rows: seq<CaseStatus>, req: AnswerRequest, clock: Clock, group: GroupId)
    : (r: Result<CaseStatus, Error>)
    ensures match Lookup(rows, req.caseStatusId)
      case None => r == Failure(StatusNotFound)
      case Some(s) =>
        && r.Success?
        && r.value.(answers := s.answers) == s
        && Replaced(s.answers, r.value.answers, req, clock, group)
  {
    match Lookup(rows, req.caseStatusId)
    case None => Failure(StatusNotFound)
    case Some(s) =>
      var retired :=
        if HasFutureActive(s.answers, clock.today) then DiscardActive(s.answers, clock.now, req.createdBy)
        else EndActive(s.answers, req.startDate, req.createdBy);
      var added := NewGroup(req.answers, req.startDate, None, group, req.createdBy, clock.now);
      var after := retired + added;
      DiscardActiveEffect(s.answers, clock.now, req.createdBy);
      EndActiveEffect(s.answers, req.startDate, req.createdBy);
      assert after[|s.answers|..] == added;
      assert forall i :: 0 <= i < |s.answers| ==> after[i] == retired[i];
      Success(s.(answers := after))
  }

  /* ---------- Updating a status ---------- */

  /** The end-date guard: only an already closed status rejects an end date before today. */
  predicate BadEndDate(s: CaseStatus, req: UpdateStatusRequest, today: Date) {
    s.endDate.Some? && req.endDate.Some? && req.endDate.value < today
  }

  /** `ValidateUpdate`: the status must exist, and re-closing it must not backdate past today. */
  function ValidateUpdate(found: Option<CaseStatus>, req: UpdateStatusRequest, today: Date)
    : (r: Result<CaseStatus, Error>)
    ensures found.None? ==> r == Failure(StatusNotFound)
    ensures found.Some? && BadEndDate(found.value, req, today) ==> r == Failure(InvalidEndDate)
    ensures found.Some? && !BadEndDate(found.value, req, today) ==> r == Success(found.value)
  {
    match found
    case None => Failure(StatusNotFound)
    case Some(s) => if BadEndDate(s, req, today) then Failure(InvalidEndDate) else Success(s)
  }

  /** `after` is `before` with its active answers ended at `d`, followed by one closing generation
      of `inputs` dated [d, d]. */
  predicate LacClosed(before: seq<Answer>, after: seq<Answer>, inputs: seq<AnswerInput>, d: Date,
                      editor: string, group: GroupId, now: Date)
  {
    var n := |before|;
    && |after| == n + |inputs|
    && (forall i :: 0 <= i < n ==>
          if IsActive(before[i]) then Ended(before[i], after[i], d, editor) else after[i] == before[i])
    && IsGroup(after[n..], inputs, d, Some(d), group, editor, now)
  }

  /** The end-date branch: sets the status end date; an LAC status also ends its active answers
      and records a closing generation built from all request answers. */
  function CloseStatus(s: CaseStatus, req: UpdateStatusRequest, d: Date, now: Date, group: GroupId)
    : (r: CaseStatus)
    ensures r.endDate == Some(d)
    ensures r.(endDate := s.endDate, answers := s.answers) == s
    ensures Classify(s.kind) != Lac ==> r.answers == s.answers
    ensures Classify(s.kind) == Lac ==> LacClosed(s.answers, r.answers, req.answers, d, req.editedBy, group, now)
    ensures Classify(s.kind) == Lac ==> forall a :: a in r.answers ==> !IsActive(a)
  {
    var ended := s.(endDate := Some(d));
    if Classify(s.kind) == Lac then
      var closing := NewGroup(req.answers, d, Some(d), group, req.editedBy, now);
      var kept := EndActive(s.answers, d, req.editedBy);
      var after := kept + closing;
      EndActiveEffect(s.answers, d, req.editedBy);
      assert after[|s.answers|..] == closing;
      assert forall i :: 0 <= i < |s.answers| ==> after[i] == kept[i];
      assert forall i :: |s.answers| <= i < |after| ==> after[i] in closing by {
        forall i | |s.answers| <= i < |after| ensures after[i] in closing {
          assert after[i] == closing[i - |s.answers|];
        }
      }
      ended.(answers := after)
    else ended
  }

  /** The "cin" branch without an end date: notes always, the start date only when supplied. */
  function UpdateCin(s: CaseStatus, req: UpdateStatusRequest): (r: CaseStatus)
    ensures r.notes == req.notes
    ensures req.startDate.Some? ==> r.startDate == req.startDate.value
    ensures req.startDate.None? ==> r.startDate == s.startDate
    ensures r.(notes := s.notes, startDate := s.startDate) == s
  {
    s.(notes := req.notes, startDate := if req.startDate.Some? then req.startDate.value else s.startDate)
  }

  /** `after` discards every answer of `before` and continues with one new generation of `inputs`
      starting on `start`. */
  predicate CpRestarted(before: seq<Answer>, after: seq<Answer>, inputs: seq<AnswerInput>, start: Date,
                        editor: string, group: GroupId, now: Date)
  {
    var n := |before|;
    && |after| == n + |inputs|
    && (forall i :: 0 <= i < n ==> Discarded(before[i], after[i], now, editor))
    && IsGroup(after[n..], inputs, start, None, group, editor, now)
  }

  /** The "cp" branch without an end date, once the start date is known. */
  function RestartCp(s: CaseStatus, req: UpdateStatusRequest, start: Date, now: Date, group: GroupId)
    : (r: CaseStatus)
    ensures r.startDate == start
    ensures r.(startDate := s.startDate, answers := s.answers) == s
    ensures CpRestarted(s.answers, r.answers, req.answers, start, req.editedBy, group, now)
    ensures forall i :: 0 <= i < |r.answers| && IsKept(r.answers[i]) ==> |s.answers| <= i
  {
    var discarded := DiscardAll(s.answers, now, req.editedBy);
    var added := NewGroup(req.answers, start, None, group, req.editedBy, now);
    assert (discarded + added)[|s.answers|..] == added;
    s.(startDate := start, answers := discarded + added)
  }

  /** The LAC overlap guard: with more than one generation among the answers that are not
      discarded, the new start date must be later than every such answer's start date.
      A null start date never trips it (a lifted comparison with null is false). */
  predicate LacOverlap(xs: seq<Answer>, start: Option<Date>) {
    && start.Some?
    && |GroupIds(Kept(xs))| > 1
    && exists a :: a in Kept(xs) && start.value <= a.startDate
  }

  /** `after` discards every answer of `before` that is live on `today` and ends it at `start`,
      then appends one successor per live answer in start-date order, carrying its option and value. */
  predicate LacRestarted(before: seq<Answer>, after: seq<Answer>, today: Date, now: Date, start: Date,
                         editor: string, group: GroupId)
  {
    var n := |before|;
    && |after| == n + |Live(before, today)|
    && (forall i :: 0 <= i < n ==>
          if IsLive(before[i], today) then DiscardedAndEnded(before[i], after[i], now, start, editor)
          else after[i] == before[i])
    && IsGroup(after[n..], Inputs(SortByStart(Live(before, today))), start, None, group, editor, now)
  }

  /** `ReplaceCurrentActiveAnswers` after the start date is known: every live answer is
      discarded and ended at `start`, and renewed into the generation `group`. */
  function RenewLive(s: CaseStatus, start: Date, editor: string, clock: Clock, group: GroupId)
    : (r: CaseStatus)
    ensures r.startDate == start
    ensures r.(startDate := s.startDate, answers := s.answers) == s
    ensures LacRestarted(s.answers, r.answers, clock.today, clock.now, start, editor, group)
    ensures multiset(Inputs(r.answers[|s.answers|..])) == multiset(Inputs(Live(s.answers, clock.today)))
    ensures forall i :: 0 <= i < |s.answers| ==> !IsLive(r.answers[i], clock.today)
  {
    var live := SortByStart(Live(s.answers, clock.today));
    var retired := RetireLive(s.answers, clock.today, clock.now, start, editor);
    var successors := NewGroup(Inputs(live), start, None, group, editor, clock.now);
    var after := retired + successors;
    RetireLiveEffect(s.answers, clock.today, clock.now, start, editor);
    assert after[|s.answers|..] == successors;
    assert forall i :: 0 <= i < |s.answers| ==> after[i] == retired[i];
    InputsOfSort(Live(s.answers, clock.today));
    s.(startDate := start, answers := after)
  }

  /** The "lac" branch without an end date: the overlap guard, the start-date cast, then the
      renewal of the live answers. */
  function RestartLac(s: CaseStatus, req: UpdateStatusRequest, clock: Clock, group: GroupId)
    : (r: Result<CaseStatus, Error>)
    ensures LacOverlap(s.answers, req.startDate) ==> r == Failure(InvalidStartDate)
    ensures req.startDate.None? ==> r == Failure(MissingStartDate)
    ensures req.startDate.Some? && !LacOverlap(s.answers, req.startDate) ==>
              r == Success(RenewLive(s, req.startDate.value, req.editedBy, clock, group))
  {
    if LacOverlap(s.answers, req.startDate) then Failure(InvalidStartDate)
    else if req.startDate.None? then Failure(MissingStartDate)
    else Success(RenewLive(s, req.startDate.value, req.editedBy, clock, group))
  }

  /** The update is refused: by the end-date guard, by the LAC overlap guard, or because a
      "cp" or "lac" restart has no start date. */
  predicate UpdateRefused(s: CaseStatus, req: UpdateStatusRequest, today: Date) {
    || BadEndDate(s, req, today)
    || (req.endDate.None? && Classify(s.kind) == Cp && req.startDate.None?)
    || (req.endDate.None? && Classify(s.kind) == Lac && (req.startDate.None? || LacOverlap(s.answers, req.startDate)))
  }

  /** The branch taken by an update that passed its guards. */
  function ApplyUpdate(s: CaseStatus, req: UpdateStatusRequest, clock: Clock, group: GroupId)
    : Result<CaseStatus, Error>
  {
    if req.endDate.Some? then Success(CloseStatus(s, req, req.endDate.value, clock.now, group))
    else
      match Classify(s.kind)
      case Cin => Success(UpdateCin(s, req))
      case Cp =>
        if req.startDate.None? then Failure(MissingStartDate)
        else Success(RestartCp(s, req, req.startDate.value, clock.now, group))
      case Lac => RestartLac(s, req, clock, group)
      case OtherType => Success(s)
  }

  /** `UpdateCaseStatus`: validates, applies the per-type policy and stamps the editor. */
  function UpdateCaseStatus(rows: seq<CaseStatus>, req: UpdateStatusRequest, clock: Clock, group: GroupId)
    : (r: Result<CaseStatus, Error>)
    ensures match Lookup(rows, req.caseStatusId)
      case None => r == Failure(StatusNotFound)
      case Some(s) =>
        && (r.Failure? <==> UpdateRefused(s, req, clock.today))
        && (r == Failure(InvalidEndDate) <==> BadEndDate(s, req, clock.today))
        && (r == Failure(InvalidStartDate) <==>
              req.endDate.None? && Classify(s.kind) == Lac && LacOverlap(s.answers, req.startDate))
        && (r == Failure(MissingStartDate) <==>
              req.endDate.None? && Classify(s.kind) in {Cp, Lac} && req.startDate.None?)
        && (r.Success? ==>
              var t := r.value;
              && t.lastModifiedBy == Some(req.editedBy)
              && t.(startDate := s.startDate, endDate := s.endDate, notes := s.notes,
                    lastModifiedBy := s.lastModifiedBy, answers := s.answers) == s
              && (req.endDate.Some? ==>
                    && t.endDate == req.endDate && t.startDate == s.startDate && t.notes == s.notes
                    && (Classify(s.kind) != Lac ==> t.answers == s.answers)
                    && (Classify(s.kind) == Lac ==>
                          LacClosed(s.answers, t.answers, req.answers, req.endDate.value, req.editedBy, group, clock.now)))
              && (req.endDate.None? ==> t.endDate == s.endDate)
              && (req.endDate.None? && Classify(s.kind) == Cin ==>
                    && t.notes == req.notes
                    && t.startDate == (if req.startDate.Some? then req.startDate.value else s.startDate)
                    && t.answers == s.answers)
              && (req.endDate.None? && Classify(s.kind) == Cp ==>
                    && t.startDate == req.startDate.value && t.notes == s.notes
                    && CpRestarted(s.answers, t.answers, req.answers, t.startDate, req.editedBy, group, clock.now))
              && (req.endDate.None? && Classify(s.kind) == Lac ==>
                    && t.startDate == req.startDate.value && t.notes == s.notes
                    && LacRestarted(s.answers, t.answers, clock.today, clock.now, t.startDate, req.editedBy, group))
              && (req.endDate.None? && Classify(s.kind) == OtherType ==>
                    t.(lastModifiedBy := s.lastModifiedBy) == s))
  {
    match ValidateUpdate(Lookup(rows, req.caseStatusId), req, clock.today)
    case Failure(e) => Failure(e)
    case Success(s) =>
      match ApplyUpdate(s, req, clock, group)
      case Failure(e) => Failure(e)
      case Success(t) => Success(t.(lastModifiedBy := Some(req.editedBy)))
  }
}
