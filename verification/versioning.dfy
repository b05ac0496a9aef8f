/** Answer versioning: building one generation of answers, retiring answers by ending or
    discarding them, and the stable start-date ordering the LAC restart uses. */
module AnswerVersioning {
  import opened Wrappers
  import opened CaseStatusModel
  import Seqs

  /** One freshly created answer; its last editor and discard time are unset. */
  function NewAnswer(input: AnswerInput, start: Date, end: Option<Date>, group: GroupId,
                     editor: string, now: Date): Answer
  {
    Answer(input.option, input.value, start, end, None, group, editor, now, None)
  }

  /** `xs` is one new generation `group` carrying exactly the pairs `inputs`, in order,
      all dated [start, end), created by `editor` at `now`, never edited or discarded. */
  predicate IsGroup(xs: seq<Answer>, inputs: seq<AnswerInput>, start: Date, end: Option<Date>,
                    group: GroupId, editor: string, now: Date)
  {
    && Inputs(xs) == inputs
    && forall a :: a in xs ==>
         && a.startDate == start
         && a.endDate == end
         && a.discardedAt.None?
         && a.groupId == group
         && a.createdBy == editor
         && a.createdAt == now
         && a.lastModifiedBy.None?
  }

  /** One answer per request pair, all under the single fresh group id `group`. */
  function NewGroup(inputs: seq<AnswerInput>, start: Date, end: Option<Date>, group: GroupId,
                    editor: string, now: Date): (r: seq<Answer>)
    ensures |r| == |inputs|
    ensures IsGroup(r, inputs, start, end, group, editor, now)
  {
    seq(|inputs|, i requires 0 <= i < |inputs| => NewAnswer(inputs[i], start, end, group, editor, now))
  }

  /** `after` is `before` ended at `d` by `editor` (the End retirement mode). */
  predicate Ended(before: Answer, after: Answer, d: Date, editor: string) {
    && SameVersion(before, after)
    && after.endDate == Some(d)
    && after.discardedAt == before.discardedAt
    && after.lastModifiedBy == Some(editor)
  }

  /** `after` is `before` discarded at `now` by `editor` (the Discard retirement mode). */
  predicate Discarded(before: Answer, after: Answer, now: Date, editor: string) {
    && SameVersion(before, after)
    && after.discardedAt == Some(now)
    && after.endDate == before.endDate
    && after.lastModifiedBy == Some(editor)
  }

  /** `after` is `before` both discarded at `now` and ended at `d` by `editor`. */
  predicate DiscardedAndEnded(before: Answer, after: Answer, now: Date, d: Date, editor: string) {
    && SameVersion(before, after)
    && after.discardedAt == Some(now)
    && after.endDate == Some(d)
    && after.lastModifiedBy == Some(editor)
  }

  /** Ends every active answer at `d`. */
  function EndActive(xs: seq<Answer>, d: Date, editor: string): seq<Answer> {
    seq(|xs|, i requires 0 <= i < |xs| =>
      if IsActive(xs[i]) then xs[i].(endDate := Some(d), lastModifiedBy := Some(editor)) else xs[i])
  }

  /** Discards every active answer at `now`. */
  function DiscardActive(xs: seq<Answer>, now: Date, editor: string): seq<Answer> {
    seq(|xs|, i requires 0 <= i < |xs| =>
      if IsActive(xs[i]) then xs[i].(discardedAt := Some(now), lastModifiedBy := Some(editor)) else xs[i])
  }

  /** Discards every answer at `now`, including answers discarded before. */
  function DiscardAll(xs: seq<Answer>, now: Date, editor: string): seq<Answer> {
    seq(|xs|, i requires 0 <= i < |xs| => xs[i].(discardedAt := Some(now), lastModifiedBy := Some(editor)))
  }

  /** Discards every live answer at `now` and ends it at `d`. */
  function RetireLive(xs: seq<Answer>, today: Date, now: Date, d: Date, editor: string): seq<Answer> {
    seq(|xs|, i requires 0 <= i < |xs| =>
      if IsLive(xs[i], today)
      then xs[i].(discardedAt := Some(now), endDate := Some(d), lastModifiedBy := Some(editor))
      else xs[i])
  }

  /** What `EndActive` does to each position. */
  lemma EndActiveEffect(xs: seq<Answer>, d: Date, editor: string)
    ensures |EndActive(xs, d, editor)| == |xs|
    ensures forall i :: 0 <= i < |xs| ==>
      if IsActive(xs[i]) then Ended(xs[i], EndActive(xs, d, editor)[i], d, editor)
      else EndActive(xs, d, editor)[i] == xs[i]
    ensures forall i :: 0 <= i < |xs| ==> !IsActive(EndActive(xs, d, editor)[i])
  {
  }

  /** What `DiscardActive` does to each position. */
  lemma DiscardActiveEffect(xs: seq<Answer>, now: Date, editor: string)
    ensures |DiscardActive(xs, now, editor)| == |xs|
    ensures forall i :: 0 <= i < |xs| ==>
      if IsActive(xs[i]) then Discarded(xs[i], DiscardActive(xs, now, editor)[i], now, editor)
      else DiscardActive(xs, now, editor)[i] == xs[i]
    ensures forall i :: 0 <= i < |xs| ==> !IsActive(DiscardActive(xs, now, editor)[i])
  {
  }

  /** What `RetireLive` does to each position, and that no answer is live afterwards. */
  lemma RetireLiveEffect(xs: seq<Answer>, today: Date, now: Date, d: Date, editor: string)
    ensures |RetireLive(xs, today, now, d, editor)| == |xs|
    ensures forall i :: 0 <= i < |xs| ==>
      if IsLive(xs[i], today) then DiscardedAndEnded(xs[i], RetireLive(xs, today, now, d, editor)[i], now, d, editor)
      else RetireLive(xs, today, now, d, editor)[i] == xs[i]
    ensures forall i :: 0 <= i < |xs| ==> !IsLive(RetireLive(xs, today, now, d, editor)[i], today)
  {
  }

  /** The live answers of `xs`, in order. */
  function Live(xs: seq<Answer>, today: Date): seq<Answer> {
    Seqs.Filter(xs, a => IsLive(a, today))
  }

  /** The answers of `xs` that are not discarded, in order. */
  function Kept(xs: seq<Answer>): seq<Answer> {
    Seqs.Filter(xs, IsKept)
  }

  /** The active answers of `xs`, in order. */
  function ActiveOnly(xs: seq<Answer>): seq<Answer> {
    Seqs.Filter(xs, IsActive)
  }

  predicate SortedByStart(xs: seq<Answer>) {
    forall i, j :: 0 <= i < j < |xs| ==> xs[i].startDate <= xs[j].startDate
  }

  /** Places `x` before the first answer of `xs` that starts no earlier than it. */
  function Insert(x: Answer, xs: seq<Answer>): (r: seq<Answer>)
    ensures |r| == |xs| + 1
    ensures multiset(r) == multiset(xs) + multiset{x}
  {
    if xs == [] || x.startDate <= xs[0].startDate then [x] + xs
    else
      assert xs == [xs[0]] + xs[1..];
      [xs[0]] + Insert(x, xs[1..])
  }

  /** An answer no later than everything in a sorted sequence can lead it. */
  lemma ConsSorted(h: Answer, t: seq<Answer>)
    requires SortedByStart(t)
    requires forall k :: 0 <= k < |t| ==> h.startDate <= t[k].startDate
    ensures SortedByStart([h] + t)
  {
    var r := [h] + t;
    forall i, j | 0 <= i < j < |r| ensures r[i].startDate <= r[j].startDate {
      assert r[j] == t[j - 1];
      if i > 0 {
        assert r[i] == t[i - 1];
      }
    }
  }

  /** A lower bound on the start dates of `x` and `xs` bounds the result of inserting. */
  lemma {:induction false} InsertKeepsBound(x: Answer, xs: seq<Answer>, b: Date)
    requires b <= x.startDate
    requires forall k :: 0 <= k < |xs| ==> b <= xs[k].startDate
    ensures forall k :: 0 <= k < |Insert(x, xs)| ==> b <= Insert(x, xs)[k].startDate
    decreases |xs|
  {
    if xs != [] && x.startDate > xs[0].startDate {
      InsertKeepsBound(x, xs[1..], b);
      var rest := Insert(x, xs[1..]);
      assert Insert(x, xs) == [xs[0]] + rest;
      forall k | 0 <= k < |Insert(x, xs)| ensures b <= Insert(x, xs)[k].startDate {
        if k > 0 {
          assert Insert(x, xs)[k] == rest[k - 1];
        }
      }
    }
  }

  /** Inserting into a sorted sequence keeps it sorted. */
  lemma {:induction false} InsertKeepsSorted(x: Answer, xs: seq<Answer>)
    requires SortedByStart(xs)
    ensures SortedByStart(Insert(x, xs))
    decreases |xs|
  {
    if xs == [] || x.startDate <= xs[0].startDate {
      ConsSorted(x, xs);
    } else {
      var rest := Insert(x, xs[1..]);
      InsertKeepsSorted(x, xs[1..]);
      InsertKeepsBound(x, xs[1..], xs[0].startDate);
      ConsSorted(xs[0], rest);
    }
  }

  /** `Enumerable.OrderBy(a => a.StartDate)`: a stable sort on start dates. */
  function SortByStart(xs: seq<Answer>): (r: seq<Answer>)
    ensures |r| == |xs|
    ensures multiset(r) == multiset(xs)
    ensures SortedByStart(r)
  {
    if xs == [] then []
    else
      assert xs == [xs[0]] + xs[1..];
      var rest := SortByStart(xs[1..]);
      InsertKeepsSorted(xs[0], rest);
      Insert(xs[0], rest)
  }

  /** The answers of `xs` that start on `d`, in order. */
  function WithStart(xs: seq<Answer>, d: Date): seq<Answer> {
    if xs == [] then []
    else (if xs[0].startDate == d then [xs[0]] else []) + WithStart(xs[1..], d)
  }

  /** Inserting `x` puts it ahead of every answer with its own start date. */
  lemma {:induction false} InsertKeepsTies(x: Answer, xs: seq<Answer>, d: Date)
    ensures WithStart(Insert(x, xs), d) ==
            (if x.startDate == d then [x] else []) + WithStart(xs, d)
    decreases |xs|
  {
    if xs == [] || x.startDate <= xs[0].startDate {
      assert ([x] + xs)[1..] == xs;
    } else {
      InsertKeepsTies(x, xs[1..], d);
      var rest := Insert(x, xs[1..]);
      assert ([xs[0]] + rest)[1..] == rest;
      assert ([xs[0]] + rest)[0] == xs[0];
      assert xs[0].startDate != d || x.startDate != d;
    }
  }

  /** The sort is stable: answers with equal start dates keep their relative order. */
  lemma {:induction false} SortByStartIsStable(xs: seq<Answer>, d: Date)
    ensures WithStart(SortByStart(xs), d) == WithStart(xs, d)
    decreases |xs|
  {
    if xs != [] {
      SortByStartIsStable(xs[1..], d);
      InsertKeepsTies(xs[0], SortByStart(xs[1..]), d);
    }
  }

  lemma InputsOfConcat(a: seq<Answer>, b: seq<Answer>)
    ensures Inputs(a + b) == Inputs(a) + Inputs(b)
  {
  }

  /** Inserting `x` adds exactly the pair of `x` to the pairs present. */
  lemma {:induction false} InputsOfInsert(x: Answer, xs: seq<Answer>)
    ensures multiset(Inputs(Insert(x, xs))) == multiset(Inputs(xs)) + multiset{x.Input()}
    decreases |xs|
  {
    if xs == [] || x.startDate <= xs[0].startDate {
      InputsOfConcat([x], xs);
    } else {
      InputsOfInsert(x, xs[1..]);
      InputsOfConcat([xs[0]], Insert(x, xs[1..]));
      InputsOfConcat([xs[0]], xs[1..]);
      assert xs == [xs[0]] + xs[1..];
    }
  }

  lemma InputsOfCons(xs: seq<Answer>)
    requires xs != []
    ensures Inputs(xs) == [xs[0].Input()] + Inputs(xs[1..])
  {
  }

  /** Sorting keeps the multiset of option/value pairs. */
  lemma {:induction false} InputsOfSort(xs: seq<Answer>)
    ensures multiset(Inputs(SortByStart(xs))) == multiset(Inputs(xs))
    decreases |xs|
  {
    if xs != [] {
      var rest := SortByStart(xs[1..]);
      assert SortByStart(xs) == Insert(xs[0], rest);
      InputsOfSort(xs[1..]);
      InputsOfInsert(xs[0], rest);
      InputsOfCons(xs);
      assert multiset(Inputs(xs)) == multiset{xs[0].Input()} + multiset(Inputs(xs[1..]));
    }
  }
}
