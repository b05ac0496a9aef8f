/** Properties that relate several definitions: how the type string is matched, what the LAC
    overlap guard means, the either/or outcome of replacing answers, and the invariant that the
    active answers of a status form at most one generation. */
module GatewayProperties {
  import opened Wrappers
  import opened CaseStatusModel
  import opened AnswerVersioning
  import opened CaseStatusGateway

  /* ---------- Reading back ---------- */

  /** A status saved under an id no other row uses is what a lookup of that id finds. */
  lemma {:induction false} CreateThenLookup(rows: seq<CaseStatus>, req: CreateStatusRequest, id: int,
                                            clock: Clock, group: GroupId)
    requires forall k :: 0 <= k < |rows| ==> rows[k].id != id
    ensures Lookup(rows + [CreateCaseStatus(req, id, clock, group)], id) ==
            Some(CreateCaseStatus(req, id, clock, group))
  {
    var c := CreateCaseStatus(req, id, clock, group);
    var all := rows + [c];
    var r := Lookup(all, id);
    assert all[|rows|] == c;
    if r.Some? {
      var k :| 0 <= k < |all| && all[k] == r.value && r.value.id == id &&
               forall j :: 0 <= j < k ==> all[j].id != id;
      assert k == |rows|;
    }
  }

  /* ---------- Matching the status type ---------- */

  lemma LowerCharOfLetter(c: char, w: char)
    requires 'a' <= w <= 'z'
    ensures LowerChar(c) == w <==> c == w || c == UpperChar(w)
  {
  }

  /** A lower-cased string equals a lower-case word exactly when it spells that word in any case. */
  lemma LowerIsWord(s: string, word: string)
    requires forall i :: 0 <= i < |word| ==> 'a' <= word[i] <= 'z'
    ensures Lower(s) == word <==> SpelledIgnoringCase(s, word)
  {
    if |s| == |word| {
      forall i | 0 <= i < |s| {
        LowerCharOfLetter(s[i], word[i]);
      }
      if SpelledIgnoringCase(s, word) {
        assert forall i :: 0 <= i < |s| ==> Lower(s)[i] == word[i];
      }
    }
  }

  /** The type string selects a branch regardless of the case of its letters. */
  lemma ClassifyIgnoresCase(kind: string)
    ensures Classify(kind) == Cin <==> SpelledIgnoringCase(kind, "cin")
    ensures Classify(kind) == Cp <==> SpelledIgnoringCase(kind, "cp")
    ensures Classify(kind) == Lac <==> SpelledIgnoringCase(kind, "lac")
  {
    LowerIsWord(kind, "cin");
    LowerIsWord(kind, "cp");
    LowerIsWord(kind, "lac");
  }

  /* ---------- The LAC overlap guard ---------- */

  /** Two values in a set make its cardinality at least two. */
  lemma TwoMembers<T>(s: set<T>, x: T, y: T)
    requires x in s && y in s && x != y
    ensures |s| > 1
  {
    assert {x, y} <= s;
    var rest := s - {x, y};
    assert s == {x, y} + rest;
  }

  /** A set with more than one element holds two distinct values. */
  lemma PickTwo<T>(s: set<T>) returns (x: T, y: T)
    requires |s| > 1
    ensures x in s && y in s && x != y
  {
    x :| x in s;
    assert |s - {x}| == |s| - 1;
    y :| y in s - {x};
  }

  /** Two undiscarded answers of `xs` belong to different generations. */
  predicate TwoKeptGroups(xs: seq<Answer>) {
    exists i, j :: 0 <= i < |xs| && 0 <= j < |xs| && IsKept(xs[i]) && IsKept(xs[j]) &&
                   xs[i].groupId != xs[j].groupId
  }

  /** Some undiscarded answer of `xs` starts on or after `start`. */
  predicate KeptStartsFrom(xs: seq<Answer>, start: Date) {
    exists i :: 0 <= i < |xs| && IsKept(xs[i]) && start <= xs[i].startDate
  }

  /** The `GroupBy` count of the undiscarded answers exceeds one exactly when two of them differ in group. */
  lemma {:induction false} MultipleGroupsMeans(xs: seq<Answer>)
    ensures |GroupIds(Kept(xs))| > 1 <==> TwoKeptGroups(xs)
  {
    var kept := Kept(xs);
    var groups := GroupIds(kept);
    if |groups| > 1 {
      var g1, g2 := PickTwo(groups);
      var a :| a in kept && a.groupId == g1;
      var b :| b in kept && b.groupId == g2;
      var i :| 0 <= i < |xs| && xs[i] == a;
      var j :| 0 <= j < |xs| && xs[j] == b;
      assert IsKept(xs[i]) && IsKept(xs[j]) && xs[i].groupId != xs[j].groupId;
    }
    if TwoKeptGroups(xs) {
      var i, j :| 0 <= i < |xs| && 0 <= j < |xs| && IsKept(xs[i]) && IsKept(xs[j]) &&
                  xs[i].groupId != xs[j].groupId;
      assert xs[i] in kept && xs[j] in kept;
      TwoMembers(groups, xs[i].groupId, xs[j].groupId);
    }
  }

  /** Some undiscarded answer starts on or after `start`, stated over `Kept` or over positions. */
  lemma {:induction false} KeptStartsFromMeans(xs: seq<Answer>, start: Date)
    ensures (exists a :: a in Kept(xs) && start <= a.startDate) <==> KeptStartsFrom(xs, start)
  {
    var kept := Kept(xs);
    if exists a :: a in kept && start <= a.startDate {
      var a :| a in kept && start <= a.startDate;
      var i :| 0 <= i < |xs| && xs[i] == a;
      assert IsKept(xs[i]) && start <= xs[i].startDate;
    }
    if KeptStartsFrom(xs, start) {
      var i :| 0 <= i < |xs| && IsKept(xs[i]) && start <= xs[i].startDate;
      assert xs[i] in kept;
    }
  }

  /** The guard in the source's terms: more than one group among the answers that are not
      discarded, and some such answer starting on or after the requested date. */
  lemma LacOverlapMeans(xs: seq<Answer>, start: Date)
    ensures LacOverlap(xs, Some(start)) <==> TwoKeptGroups(xs) && KeptStartsFrom(xs, start)
  {
    MultipleGroupsMeans(xs);
    KeptStartsFromMeans(xs, start);
  }

  /** A status whose undiscarded answers form a single generation never trips the guard. */
  lemma SingleGroupNeverOverlaps(xs: seq<Answer>, start: Option<Date>)
    requires !TwoKeptGroups(xs)
    ensures !LacOverlap(xs, start)
  {
    if start.Some? {
      LacOverlapMeans(xs, start.value);
    }
  }

  /* ---------- Replacing answers ---------- */

  /** Exactly one retirement applies to the whole active generation: either every active answer is
      discarded and stays open, or every one is ended and stays undiscarded; never both. */
  lemma ReplaceRetiresOneWay(rows: seq<CaseStatus>, req: AnswerRequest, clock: Clock, group: GroupId,
                             s: CaseStatus)
    requires Lookup(rows, req.caseStatusId) == Some(s)
    ensures var after := ReplaceCaseStatusAnswers(rows, req, clock, group).value.answers;
      && (forall i :: 0 <= i < |s.answers| && IsActive(s.answers[i]) ==>
            (after[i].discardedAt.Some? <==> after[i].endDate.None?))
      && (forall i, j ::
            0 <= i < |s.answers| && 0 <= j < |s.answers| && IsActive(s.answers[i]) && IsActive(s.answers[j])
            ==> (after[i].discardedAt.Some? <==> after[j].discardedAt.Some?))
      && (forall i :: 0 <= i < |s.answers| && IsActive(s.answers[i]) ==>
            (after[i].discardedAt.Some? <==> HasFutureActive(s.answers, clock.today)))
  {
  }

  /* ---------- At most one active generation ---------- */

  /** Nothing before position `n` is active and everything from `n` on belongs to `group`. */
  lemma ActiveOnlyInTail(xs: seq<Answer>, n: int, group: GroupId)
    requires 0 <= n <= |xs|
    requires forall i :: 0 <= i < n ==> !IsActive(xs[i])
    requires forall a :: a in xs[n..] ==> a.groupId == group
    ensures SingleActiveGroup(xs)
  {
    forall i | n <= i < |xs| ensures xs[i].groupId == group {
      assert xs[n..][i - n] == xs[i];
    }
  }

  lemma ReplacedIsSingle(before: seq<Answer>, after: seq<Answer>, req: AnswerRequest, clock: Clock,
                         group: GroupId)
    requires Replaced(before, after, req, clock, group)
    ensures SingleActiveGroup(after)
  {
    ActiveOnlyInTail(after, |before|, group);
  }

  lemma CpRestartedIsSingle(before: seq<Answer>, after: seq<Answer>, inputs: seq<AnswerInput>,
                            start: Date, editor: string, group: GroupId, now: Date)
    requires CpRestarted(before, after, inputs, start, editor, group, now)
    ensures SingleActiveGroup(after)
  {
    ActiveOnlyInTail(after, |before|, group);
  }

  lemma LacRestartedIsSingle(before: seq<Answer>, after: seq<Answer>, today: Date, now: Date,
                             start: Date, editor: string, group: GroupId)
    requires LacRestarted(before, after, today, now, start, editor, group)
    ensures SingleActiveGroup(after)
  {
    forall i | 0 <= i < |before| ensures !IsActive(after[i]) {
      if IsLive(before[i], today) {
        assert DiscardedAndEnded(before[i], after[i], now, start, editor);
      } else {
        assert after[i] == before[i];
      }
    }
    ActiveOnlyInTail(after, |before|, group);
  }

  lemma LacClosedIsSingle(before: seq<Answer>, after: seq<Answer>, inputs: seq<AnswerInput>, d: Date,
                          editor: string, group: GroupId, now: Date)
    requires LacClosed(before, after, inputs, d, editor, group, now)
    ensures SingleActiveGroup(after)
  {
    ActiveOnlyInTail(after, |before|, group);
  }

  /** A new status starts with a single active generation. */
  lemma CreateEstablishesSingleActiveGroup(req: CreateStatusRequest, id: int, clock: Clock, group: GroupId)
    ensures SingleActiveGroup(CreateCaseStatus(req, id, clock, group).answers)
  {
    var xs := CreateCaseStatus(req, id, clock, group).answers;
    ActiveOnlyInTail(xs, 0, group);
  }

  /** After a replace, the only active answers are the new generation, whatever came before. */
  lemma ReplaceEstablishesSingleActiveGroup(rows: seq<CaseStatus>, req: AnswerRequest, clock: Clock,
                                            group: GroupId, s: CaseStatus)
    requires Lookup(rows, req.caseStatusId) == Some(s)
    ensures var after := ReplaceCaseStatusAnswers(rows, req, clock, group).value.answers;
      && (forall i :: 0 <= i < |after| && IsActive(after[i]) ==> |s.answers| <= i && after[i].groupId == group)
      && SingleActiveGroup(after)
  {
    var after := ReplaceCaseStatusAnswers(rows, req, clock, group).value.answers;
    var n := |s.answers|;
    forall i | 0 <= i < |after| && IsActive(after[i]) ensures n <= i && after[i].groupId == group {
      if i >= n {
        assert after[n..][i - n] == after[i];
      }
    }
    ReplacedIsSingle(s.answers, after, req, clock, group);
  }

  /** Every update branch keeps the active answers within one generation. */
  lemma UpdateKeepsSingleActiveGroup(rows: seq<CaseStatus>, req: UpdateStatusRequest, clock: Clock,
                                     group: GroupId, s: CaseStatus)
    requires Lookup(rows, req.caseStatusId) == Some(s)
    requires SingleActiveGroup(s.answers)
    requires UpdateCaseStatus(rows, req, clock, group).Success?
    ensures SingleActiveGroup(UpdateCaseStatus(rows, req, clock, group).value.answers)
  {
    var t := UpdateCaseStatus(rows, req, clock, group).value;
    if req.endDate.Some? {
      if Classify(s.kind) == Lac {
        LacClosedIsSingle(s.answers, t.answers, req.answers, req.endDate.value, req.editedBy, group, clock.now);
      }
    } else if Classify(s.kind) == Cp {
      CpRestartedIsSingle(s.answers, t.answers, req.answers, t.startDate, req.editedBy, group, clock.now);
    } else if Classify(s.kind) == Lac {
      LacRestartedIsSingle(s.answers, t.answers, clock.today, clock.now, t.startDate, req.editedBy, group);
    }
  }

  /** Adding answers retires nothing, so it can leave two active generations side by side. */
  lemma CreateAnswerCanSplitActiveGroup()
    ensures exists rows: seq<CaseStatus>, req: AnswerRequest, clock: Clock, group: GroupId ::
      && |rows| == 1
      && SingleActiveGroup(rows[0].answers)
      && CreateCaseStatusAnswer(rows, req, clock, group).Success?
      && !SingleActiveGroup(CreateCaseStatusAnswer(rows, req, clock, group).value.answers)
  {
    var old1 := Answer("legalStatus", "C2", 10, None, None, "g1", "worker", 10, None);
    var s := CaseStatus(1, 7, "LAC", 10, None, None, "worker", None, [old1]);
    var req := AnswerRequest(1, 20, "worker", [AnswerInput("placementType", "K1")]);
    var clock := Clock(30, 30);
    var rows := [s];
    var after := CreateCaseStatusAnswer(rows, req, clock, "g2").value.answers;
    assert after[0] == old1;
    assert after[1..][0] == after[1];
    assert after[1] in after[1..];
    assert IsActive(after[0]) && IsActive(after[1]) && after[0].groupId != after[1].groupId;
  }

  /* ---------- Generations ---------- */

  lemma GroupIdsOfConcat(a: seq<Answer>, b: seq<Answer>)
    ensures GroupIds(a + b) == GroupIds(a) + GroupIds(b)
  {
    forall g | g in GroupIds(a + b) ensures g in GroupIds(a) + GroupIds(b) {
      var x :| x in a + b && x.groupId == g;
    }
    forall g | g in GroupIds(a) + GroupIds(b) ensures g in GroupIds(a + b) {
      if g in GroupIds(a) {
        var x :| x in a && x.groupId == g;
        assert x in a + b;
      } else {
        var x :| x in b && x.groupId == g;
        assert x in a + b;
      }
    }
  }

  /** A non-empty generation built by `NewGroup` consists of exactly its group id. */
  lemma NewGroupIds(inputs: seq<AnswerInput>, start: Date, end: Option<Date>, group: GroupId,
                    editor: string, now: Date)
    requires |inputs| > 0
    ensures GroupIds(NewGroup(inputs, start, end, group, editor, now)) == {group}
  {
    var xs := NewGroup(inputs, start, end, group, editor, now);
    assert xs[0] in xs;
  }

  /** A new status with answers has exactly one generation. */
  lemma CreateHasOneGroup(req: CreateStatusRequest, id: int, clock: Clock, group: GroupId)
    requires |req.answers| > 0
    ensures GroupIds(CreateCaseStatus(req, id, clock, group).answers) == {group}
  {
    NewGroupIds(req.answers, req.startDate, None, group, req.createdBy, clock.now);
  }

  /** With a fresh group id, appending a non-empty generation adds exactly one generation. */
  lemma AppendedAddsOneGroup(before: seq<Answer>, after: seq<Answer>, inputs: seq<AnswerInput>,
                             start: Date, group: GroupId, editor: string, now: Date)
    requires Appended(before, after, inputs, start, group, editor, now)
    requires group !in GroupIds(before)
    requires |inputs| > 0
    ensures GroupIds(after) == GroupIds(before) + {group}
    ensures |GroupIds(after)| == |GroupIds(before)| + 1
  {
    var n := |before|;
    var added := after[n..];
    assert after == before + added;
    GroupIdsOfConcat(before, added);
    assert added[0] in added;
    assert GroupIds(added) == {group};
  }
}
