/**
 * The completion ledger behind the check-in hook (lib/hooks/useCheckIn.ts):
 * the `check_ins` and `completions` tables of the hosted database, held in
 * memory, and the three operations that read and write them.
 *
 * The database generates row ids; here they come from a counter `nextId`
 * shared by both tables, so a new row's id is larger than every id before
 * it. The table `check_ins` has a uniqueness constraint on
 * (user, date, session number); a violating insert is rejected. Whether a
 * request fails for a reason outside the store (the network, a timeout) is
 * an explicit parameter of each operation.
 */
module CheckInLedger {
  import opened Types
  import opened StringOrder
  import opened SeqFacts

  datatype Tables = Tables(checkIns: seq<CheckIn>, completions: seq<Completion>, nextId: nat)

  /** One entry of the `taskCompletions` argument of submitCheckIn. */
  datatype TaskMark = TaskMark(taskId: Id, completed: bool)

  datatype Outcome = Ok | Failed(error: string)

  const NotAuthenticated := "Not authenticated"
  const AlreadyCheckedIn := "Already checked in for this session"
  const SubmitFailed := "Failed to submit check-in"
  const CompletionsFailed := "Failed to save task completions"

  /** Which requests of fetchCheckIns fail outside the store. */
  datatype FetchFaults = FetchFaults(checkInsFail: bool, completionsFail: bool)

  /** Which requests of submitCheckIn fail outside the store. */
  datatype SubmitFaults = SubmitFaults(insertFails: bool, completionsFail: bool)

  /** Which requests of quickComplete fail outside the store. */
  datatype QuickFaults = QuickFaults(
    lookupFails: bool,        // finding the session's check-in
    insertFails: bool,        // creating the check-in
    blankRowsFail: bool,      // inserting the blank completions
    rowLookupFails: bool,     // finding the task's completion
    writeFails: bool)         // updating or inserting that completion

  const NoQuickFaults := QuickFaults(false, false, false, false, false)

  // ---------------------------------------------------------------------------
  // Queries
  // ---------------------------------------------------------------------------

  predicate InSlot(ci: CheckIn, userId: Id, date: string, session: int) {
    ci.userId == userId && ci.date == date && ci.sessionNumber == session
  }

  /** The check-ins of a user for one session of one day, in table order. */
  function Matching(cis: seq<CheckIn>, userId: Id, date: string, session: int): (r: seq<CheckIn>)
    ensures |r| <= |cis|
    ensures forall ci :: ci in r <==> ci in cis && InSlot(ci, userId, date, session)
  {
    if cis == [] then []
    else
      var front, last := cis[..|cis| - 1], cis[|cis| - 1];
      assert cis == front + [last];
      Matching(front, userId, date, session) + (if InSlot(last, userId, date, session) then [last] else [])
  }

  /** The completion rows of one task within one check-in, in table order. */
  function RowsFor(comps: seq<Completion>, checkInId: Id, taskId: Id): (r: seq<Completion>)
    ensures |r| <= |comps|
    ensures forall c :: c in r <==> c in comps && c.checkInId == checkInId && c.taskId == taskId
  {
    if comps == [] then []
    else
      var front, last := comps[..|comps| - 1], comps[|comps| - 1];
      assert comps == front + [last];
      RowsFor(front, checkInId, taskId) +
      (if last.checkInId == checkInId && last.taskId == taskId then [last] else [])
  }

  function CheckInIdSet(cis: seq<CheckIn>): set<Id> {
    set ci | ci in cis :: ci.id
  }

  /**
   * The check-ins of `userId` whose date is within the bounds; an empty bound
   * (absent or "") is no bound. The store compares dates as strings.
   */
  function SelectCheckIns(cis: seq<CheckIn>, userId: Id, startDate: string, endDate: string): (r: seq<CheckIn>)
    ensures |r| <= |cis|
    ensures forall ci :: ci in r <==>
      && ci in cis && ci.userId == userId
      && (startDate == "" || Le(startDate, ci.date))
      && (endDate == "" || Le(ci.date, endDate))
  {
    if cis == [] then []
    else
      var front, last := cis[..|cis| - 1], cis[|cis| - 1];
      assert cis == front + [last];
      var keep := last.userId == userId && (startDate == "" || Le(startDate, last.date)) &&
                  (endDate == "" || Le(last.date, endDate));
      SelectCheckIns(front, userId, startDate, endDate) + (if keep then [last] else [])
  }

  /** The completion rows belonging to one of the check-ins `ids`. */
  function SelectCompletions(comps: seq<Completion>, ids: set<Id>): (r: seq<Completion>)
    ensures |r| <= |comps|
    ensures forall c :: c in r <==> c in comps && c.checkInId in ids
  {
    if comps == [] then []
    else
      var front, last := comps[..|comps| - 1], comps[|comps| - 1];
      assert comps == front + [last];
      SelectCompletions(front, ids) + (if last.checkInId in ids then [last] else [])
  }

  /**
   * fetchCheckIns: the user's check-ins within the bounds and the completions
   * recorded in them. Without a user, or when the check-in query fails,
   * both are empty; when the completion query fails, or there are no
   * check-ins, the completions are empty.
   */
  function Fetch(t: Tables, userId: Option<Id>, startDate: string, endDate: string, faults: FetchFaults)
    : (r: (seq<CheckIn>, seq<Completion>))
    ensures userId.None? || faults.checkInsFail ==> r == ([], [])
    ensures userId.Some? && !faults.checkInsFail ==> r.0 == SelectCheckIns(t.checkIns, userId.value, startDate, endDate)
    ensures forall ci :: ci in r.0 ==> ci in t.checkIns && userId == Some(ci.userId)
    ensures forall c :: c in r.1 ==> c in t.completions && c.checkInId in CheckInIdSet(r.0)
    ensures r.0 == [] ==> r.1 == []
    ensures userId.Some? && !faults.checkInsFail && !faults.completionsFail ==>
      forall c :: c in t.completions && c.checkInId in CheckInIdSet(r.0) ==> c in r.1
  {
    if userId.None? || faults.checkInsFail then ([], [])
    else
      var cis := SelectCheckIns(t.checkIns, userId.value, startDate, endDate);
      if |cis| == 0 || faults.completionsFail then (cis, [])
      else (cis, SelectCompletions(t.completions, CheckInIdSet(cis)))
  }

  // ---------------------------------------------------------------------------
  // The invariant of the tables
  // ---------------------------------------------------------------------------

  /** The uniqueness constraint on (user, date, session number). */
  predicate SlotsUnique(cis: seq<CheckIn>) {
    forall i, j :: 0 <= i < j < |cis| ==> !InSlot(cis[j], cis[i].userId, cis[i].date, cis[i].sessionNumber)
  }

  predicate CheckInIdsFresh(cis: seq<CheckIn>, nextId: nat) {
    && (forall i, j :: 0 <= i < j < |cis| ==> cis[i].id < cis[j].id)
    && (forall ci :: ci in cis ==> ci.id < nextId)
  }

  predicate CompletionIdsFresh(comps: seq<Completion>, nextId: nat) {
    && (forall i, j :: 0 <= i < j < |comps| ==> comps[i].id < comps[j].id)
    && (forall c :: c in comps ==> c.id < nextId)
  }

  /** Every completion belongs to a stored check-in. */
  predicate Linked(comps: seq<Completion>, cis: seq<CheckIn>) {
    forall c :: c in comps ==> c.checkInId in CheckInIdSet(cis)
  }

  predicate ValidTables(t: Tables) {
    && SlotsUnique(t.checkIns)
    && CheckInIdsFresh(t.checkIns, t.nextId)
    && CompletionIdsFresh(t.completions, t.nextId)
    && Linked(t.completions, t.checkIns)
  }

  /** Under the constraint, a session of a day has at most one check-in. */
  lemma {:induction false} AtMostOneMatch(cis: seq<CheckIn>, userId: Id, date: string, session: int)
    requires SlotsUnique(cis)
    ensures |Matching(cis, userId, date, session)| <= 1
  {
    if cis != [] {
      var front, last := cis[..|cis| - 1], cis[|cis| - 1];
      assert SlotsUnique(front) by {
        forall i, j | 0 <= i < j < |front|
          ensures !InSlot(front[j], front[i].userId, front[i].date, front[i].sessionNumber)
        {
          assert front[i] == cis[i] && front[j] == cis[j];
        }
      }
      AtMostOneMatch(front, userId, date, session);
      if InSlot(last, userId, date, session) {
        forall ci | ci in front ensures !InSlot(ci, userId, date, session) {
          var i :| 0 <= i < |front| && front[i] == ci;
          assert cis[i] == ci;
        }
        NoneMatch(front, userId, date, session);
      }
    }
  }

  lemma NoneMatch(cis: seq<CheckIn>, userId: Id, date: string, session: int)
    requires forall ci :: ci in cis ==> !InSlot(ci, userId, date, session)
    ensures Matching(cis, userId, date, session) == []
  {
    var m := Matching(cis, userId, date, session);
    assert forall ci :: ci !in m;
  }

  // ---------------------------------------------------------------------------
  // Writes
  // ---------------------------------------------------------------------------

  /** The completion rows inserted for `marks`, linked to one check-in, with fresh ids. */
  function NewRows(checkInId: Id, marks: seq<TaskMark>, firstId: nat): seq<Completion> {
    seq(|marks|, k requires 0 <= k < |marks| =>
      Completion(firstId + k, checkInId, marks[k].taskId, marks[k].completed))
  }

  /** Inserting a check-in row. */
  function AddCheckIn(t: Tables, userId: Id, date: string, session: int): Tables {
    t.(checkIns := t.checkIns + [CheckIn(t.nextId, userId, date, session)], nextId := t.nextId + 1)
  }

  /** Inserting one completion row per mark, in one statement. */
  function AddRows(t: Tables, checkInId: Id, marks: seq<TaskMark>): Tables {
    t.(completions := t.completions + NewRows(checkInId, marks, t.nextId), nextId := t.nextId + |marks|)
  }

  /** `update({ completed }).eq('id', id)`. */
  function SetCompleted(comps: seq<Completion>, id: Id, completed: bool): seq<Completion> {
    seq(|comps|, k requires 0 <= k < |comps| =>
      if comps[k].id == id then comps[k].(completed := completed) else comps[k])
  }

  /** How many times `v` occurs in `xs`. */
  function Occurrences(xs: seq<Id>, v: Id): nat {
    if xs == [] then 0
    else Occurrences(xs[..|xs| - 1], v) + (if xs[|xs| - 1] == v then 1 else 0)
  }

  /** The marks of the blank rows quickComplete creates: only `taskId`'s row carries `completed`. */
  function BlankMarks(allTaskIds: seq<Id>, taskId: Id, completed: bool): (m: seq<TaskMark>) {
    seq(|allTaskIds|, k requires 0 <= k < |allTaskIds| =>
      TaskMark(allTaskIds[k], if allTaskIds[k] == taskId then completed else false))
  }

  lemma AddCheckInValid(t: Tables, userId: Id, date: string, session: int)
    requires ValidTables(t) && Matching(t.checkIns, userId, date, session) == []
    ensures ValidTables(AddCheckIn(t, userId, date, session))
  {
    var t' := AddCheckIn(t, userId, date, session);
    var n := |t.checkIns|;
    forall i, j | 0 <= i < j < |t'.checkIns|
      ensures !InSlot(t'.checkIns[j], t'.checkIns[i].userId, t'.checkIns[i].date, t'.checkIns[i].sessionNumber)
    {
      if j == n {
        assert t'.checkIns[i] == t.checkIns[i] && t.checkIns[i] in t.checkIns;
        assert t.checkIns[i] !in Matching(t.checkIns, userId, date, session);
      } else {
        assert t'.checkIns[i] == t.checkIns[i] && t'.checkIns[j] == t.checkIns[j];
      }
    }
    assert forall ci :: ci in t.checkIns ==> ci in t'.checkIns;
    assert CheckInIdSet(t.checkIns) <= CheckInIdSet(t'.checkIns);
    forall i, j | 0 <= i < j < |t'.checkIns| ensures t'.checkIns[i].id < t'.checkIns[j].id {
      assert t'.checkIns[i] == t.checkIns[i] && t.checkIns[i] in t.checkIns;
    }
  }

  lemma AddRowsValid(t: Tables, checkInId: Id, marks: seq<TaskMark>)
    requires ValidTables(t) && checkInId in CheckInIdSet(t.checkIns)
    ensures ValidTables(AddRows(t, checkInId, marks))
  {
    var t' := AddRows(t, checkInId, marks);
    var n := |t.completions|;
    forall i, j | 0 <= i < j < |t'.completions| ensures t'.completions[i].id < t'.completions[j].id {
      if i < n {
        assert t'.completions[i] == t.completions[i] && t.completions[i] in t.completions;
        if j < n {
          assert t'.completions[j] == t.completions[j];
        }
      }
    }
    forall c | c in t'.completions ensures c.id < t'.nextId && c.checkInId in CheckInIdSet(t'.checkIns) {
      if c !in t.completions {
        var k :| 0 <= k < |t'.completions| && t'.completions[k] == c;
        assert k >= n;
      }
    }
  }

  lemma SetCompletedValid(t: Tables, id: Id, completed: bool)
    requires ValidTables(t)
    ensures ValidTables(t.(completions := SetCompleted(t.completions, id, completed)))
  {
    var comps := SetCompleted(t.completions, id, completed);
    forall c | c in comps ensures c.id < t.nextId && c.checkInId in CheckInIdSet(t.checkIns) {
      var k :| 0 <= k < |comps| && comps[k] == c;
      assert t.completions[k] in t.completions;
    }
  }

  /**
   * The check-in table after a write: unchanged, or with one check-in for
   * the user's session appended under the next id.
   */
  predicate AtMostTheSlot(before: seq<CheckIn>, after: seq<CheckIn>, nextId: nat, userId: Option<Id>,
                          date: string, session: int) {
    after == before || (userId.Some? && after == before + [CheckIn(nextId, userId.value, date, session)])
  }

  /** No stored completion is deleted or moved, and only its `completed` flag may change. */
  predicate KeepsRows(before: seq<Completion>, after: seq<Completion>) {
    && |before| <= |after|
    && forall i :: 0 <= i < |before| ==> after[i] == before[i].(completed := after[i].completed)
  }

  // ---------------------------------------------------------------------------
  // submitCheckIn
  // ---------------------------------------------------------------------------

  /**
   * submitCheckIn as a function of the tables. The check-in insert fails
   * outright, or is rejected when the session already has one; otherwise the
   * check-in is stored, and then the completion rows are stored in one
   * insert, which may fail on its own, leaving the check-in in place.
   */
  function Submit(t: Tables, userId: Option<Id>, date: string, session: int, marks: seq<TaskMark>,
                  faults: SubmitFaults): (r: (Tables, Outcome))
    ensures AtMostTheSlot(t.checkIns, r.0.checkIns, t.nextId, userId, date, session)
    ensures |t.completions| <= |r.0.completions| && r.0.completions[..|t.completions|] == t.completions
    ensures r.1 == Ok ==> r.0.checkIns != t.checkIns
  {
    if userId.None? then (t, Failed(NotAuthenticated))
    else if faults.insertFails then (t, Failed(SubmitFailed))
    else if Matching(t.checkIns, userId.value, date, session) != [] then (t, Failed(AlreadyCheckedIn))
    else
      var t1 := AddCheckIn(t, userId.value, date, session);
      if faults.completionsFail then (t1, Failed(CompletionsFailed))
      else (AddRows(t1, t.nextId, marks), Ok)
  }

  lemma SubmitValid(t: Tables, userId: Option<Id>, date: string, session: int, marks: seq<TaskMark>,
                    faults: SubmitFaults)
    requires ValidTables(t)
    ensures ValidTables(Submit(t, userId, date, session, marks, faults).0)
  {
    if userId.Some? && !faults.insertFails && Matching(t.checkIns, userId.value, date, session) == [] {
      AddCheckInValid(t, userId.value, date, session);
      var t1 := AddCheckIn(t, userId.value, date, session);
      assert t1.checkIns[|t.checkIns|] in t1.checkIns;
      AddRowsValid(t1, t.nextId, marks);
    }
  }

  /** Without a user, nothing is written and the failure says so. */
  lemma SubmitWithoutUser(t: Tables, date: string, session: int, marks: seq<TaskMark>, faults: SubmitFaults)
    ensures Submit(t, None, date, session, marks, faults) == (t, Failed(NotAuthenticated))
  {
  }

  /** A second check-in for the same session is refused and writes no row at all. */
  lemma SubmitTwiceRefused(t: Tables, userId: Id, date: string, session: int, marks: seq<TaskMark>,
                           marks': seq<TaskMark>, faults: SubmitFaults)
    requires !faults.insertFails && !faults.completionsFail
    requires Matching(t.checkIns, userId, date, session) == []
    ensures var t1 := Submit(t, Some(userId), date, session, marks, faults).0;
      Submit(t1, Some(userId), date, session, marks', faults) == (t1, Failed(AlreadyCheckedIn))
  {
    var t1 := AddRows(AddCheckIn(t, userId, date, session), t.nextId, marks);
    var ci := CheckIn(t.nextId, userId, date, session);
    assert ci == t1.checkIns[|t.checkIns|] && ci in t1.checkIns;
    assert ci in Matching(t1.checkIns, userId, date, session);
  }

  /**
   * A successful submission adds exactly one check-in for the session and
   * one completion row per mark, linked to it and carrying the mark's flag;
   * success happens exactly when there is a user, no request fails and the
   * session had no check-in.
   */
  lemma SubmitSuccess(t: Tables, userId: Option<Id>, date: string, session: int, marks: seq<TaskMark>,
                      faults: SubmitFaults)
    ensures var (t', out) := Submit(t, userId, date, session, marks, faults);
      out == Ok <==>
        userId.Some? && !faults.insertFails && !faults.completionsFail &&
        Matching(t.checkIns, userId.value, date, session) == []
    ensures var (t', out) := Submit(t, userId, date, session, marks, faults);
      out == Ok ==>
        && t'.checkIns == t.checkIns + [CheckIn(t.nextId, userId.value, date, session)]
        && |t'.completions| == |t.completions| + |marks|
        && t'.completions[..|t.completions|] == t.completions
        && forall k :: 0 <= k < |marks| ==>
             var c := t'.completions[|t.completions| + k];
             c.checkInId == t.nextId && c.taskId == marks[k].taskId && c.completed == marks[k].completed
  {
    var (t', out) := Submit(t, userId, date, session, marks, faults);
    if out == Ok {
      assert t'.completions == t.completions + NewRows(t.nextId, marks, t.nextId + 1);
    }
  }

  /**
   * The failures: a refused or failed check-in insert changes nothing; a
   * failed completion insert reports failure though the check-in stays.
   */
  lemma SubmitFailures(t: Tables, userId: Id, date: string, session: int, marks: seq<TaskMark>,
                       faults: SubmitFaults)
    ensures var (t', out) := Submit(t, Some(userId), date, session, marks, faults);
      && (faults.insertFails ==> t' == t && out == Failed(SubmitFailed))
      && (!faults.insertFails && Matching(t.checkIns, userId, date, session) != [] ==>
            t' == t && out == Failed(AlreadyCheckedIn))
      && (!faults.insertFails && Matching(t.checkIns, userId, date, session) == [] && faults.completionsFail ==>
            && out == Failed(CompletionsFailed)
            && t'.checkIns == t.checkIns + [CheckIn(t.nextId, userId, date, session)]
            && t'.completions == t.completions)
  {
  }

  // ---------------------------------------------------------------------------
  // quickComplete
  // ---------------------------------------------------------------------------

  /**
   * quickComplete as a function of the tables. A lookup answers only when
   * exactly one row matches; a failed lookup counts as no row. With no
   * check-in found, one is created (the store refuses it when the session
   * has one after all) together with a blank row per task id. With a
   * check-in found, the task's single row is updated, or else a row is
   * inserted. Failures of the blank-row insert, the update and the row
   * insert are not looked at: the result is still a success.
   */
  function Quick(t: Tables, userId: Option<Id>, date: string, session: int, taskId: Id, completed: bool,
                 allTaskIds: seq<Id>, faults: QuickFaults): (r: (Tables, bool))
    ensures AtMostTheSlot(t.checkIns, r.0.checkIns, t.nextId, userId, date, session)
    ensures KeepsRows(t.completions, r.0.completions)
  {
    if userId.None? then (t, false)
    else
      var found := Matching(t.checkIns, userId.value, date, session);
      if !faults.lookupFails && |found| == 1 then
        var checkInId := found[0].id;
        var rows := RowsFor(t.completions, checkInId, taskId);
        if faults.writeFails then (t, true)
        else if !faults.rowLookupFails && |rows| == 1 then
          (t.(completions := SetCompleted(t.completions, rows[0].id, completed)), true)
        else (AddRows(t, checkInId, [TaskMark(taskId, completed)]), true)
      else if faults.insertFails || found != [] then (t, false)
      else
        var t1 := AddCheckIn(t, userId.value, date, session);
        if faults.blankRowsFail then (t1, true)
        else (AddRows(t1, t.nextId, BlankMarks(allTaskIds, taskId, completed)), true)
  }

  lemma QuickValid(t: Tables, userId: Option<Id>, date: string, session: int, taskId: Id, completed: bool,
                   allTaskIds: seq<Id>, faults: QuickFaults)
    requires ValidTables(t)
    ensures ValidTables(Quick(t, userId, date, session, taskId, completed, allTaskIds, faults).0)
  {
    if userId.Some? {
      var found := Matching(t.checkIns, userId.value, date, session);
      if !faults.lookupFails && |found| == 1 {
        assert found[0] in t.checkIns;
        var rows := RowsFor(t.completions, found[0].id, taskId);
        if !faults.writeFails {
          if !faults.rowLookupFails && |rows| == 1 {
            SetCompletedValid(t, rows[0].id, completed);
          } else {
            AddRowsValid(t, found[0].id, [TaskMark(taskId, completed)]);
          }
        }
      } else if !faults.insertFails && found == [] {
        AddCheckInValid(t, userId.value, date, session);
        var t1 := AddCheckIn(t, userId.value, date, session);
        assert t1.checkIns[|t.checkIns|] in t1.checkIns;
        if !faults.blankRowsFail {
          AddRowsValid(t1, t.nextId, BlankMarks(allTaskIds, taskId, completed));
        }
      }
    }
  }

  /** Without a user, quickComplete answers false and writes nothing. */
  lemma QuickWithoutUser(t: Tables, date: string, session: int, taskId: Id, completed: bool,
                         allTaskIds: seq<Id>, faults: QuickFaults)
    ensures Quick(t, None, date, session, taskId, completed, allTaskIds, faults) == (t, false)
  {
  }

  /**
   * The answer is false exactly when there is no user, or when no single
   * check-in was found and creating one failed or was refused; a false
   * answer writes nothing. Every other path answers true.
   */
  lemma QuickFails(t: Tables, userId: Option<Id>, date: string, session: int, taskId: Id, completed: bool,
                   allTaskIds: seq<Id>, faults: QuickFaults)
    ensures var (t', ok) := Quick(t, userId, date, session, taskId, completed, allTaskIds, faults);
      !ok <==>
        || userId.None?
        || (var found := Matching(t.checkIns, userId.value, date, session);
            (faults.lookupFails || |found| != 1) && (faults.insertFails || found != []))
    ensures var (t', ok) := Quick(t, userId, date, session, taskId, completed, allTaskIds, faults);
      !ok ==> t' == t
  {
  }

  /** A failed update or insert of the task's row is not reported: nothing is written, and the answer is true. */
  lemma QuickIgnoresWriteFailure(t: Tables, userId: Id, date: string, session: int, taskId: Id, completed: bool,
                                 allTaskIds: seq<Id>, faults: QuickFaults)
    requires !faults.lookupFails && |Matching(t.checkIns, userId, date, session)| == 1 && faults.writeFails
    ensures Quick(t, Some(userId), date, session, taskId, completed, allTaskIds, faults) == (t, true)
  {
  }

  /**
   * A failed insert of the blank rows is not reported: the check-in is
   * created, no completion row is written, and the answer is true.
   */
  lemma QuickIgnoresBlankRowsFailure(t: Tables, userId: Id, date: string, session: int, taskId: Id,
                                     completed: bool, allTaskIds: seq<Id>, faults: QuickFaults)
    requires Matching(t.checkIns, userId, date, session) == [] && !faults.insertFails && faults.blankRowsFail
    ensures var (t', ok) := Quick(t, Some(userId), date, session, taskId, completed, allTaskIds, faults);
      && ok
      && t'.checkIns == t.checkIns + [CheckIn(t.nextId, userId, date, session)]
      && t'.completions == t.completions
  {
  }

  /**
   * quickComplete never makes a second check-in for a session: on valid
   * tables an existing check-in is reused and the check-in table is unchanged.
   */
  lemma QuickReusesCheckIn(t: Tables, userId: Id, date: string, session: int, taskId: Id, completed: bool,
                           allTaskIds: seq<Id>, faults: QuickFaults)
    requires ValidTables(t) && Matching(t.checkIns, userId, date, session) != []
    ensures Quick(t, Some(userId), date, session, taskId, completed, allTaskIds, faults).0.checkIns == t.checkIns
    ensures |Matching(Quick(t, Some(userId), date, session, taskId, completed, allTaskIds, faults).0.checkIns,
                      userId, date, session)| == 1
  {
    AtMostOneMatch(t.checkIns, userId, date, session);
  }

  /**
   * With no check-in for the session, a successful call creates one and one
   * row per id of `allTaskIds`, in order; only rows of `taskId` carry
   * `completed`, the others are false, and when `taskId` is not among
   * `allTaskIds` no row of it is written.
   */
  lemma QuickCreates(t: Tables, userId: Id, date: string, session: int, taskId: Id, completed: bool,
                     allTaskIds: seq<Id>)
    requires Matching(t.checkIns, userId, date, session) == []
    ensures var (t', ok) := Quick(t, Some(userId), date, session, taskId, completed, allTaskIds, NoQuickFaults);
      && ok
      && t'.checkIns == t.checkIns + [CheckIn(t.nextId, userId, date, session)]
      && |t'.completions| == |t.completions| + |allTaskIds|
      && t'.completions[..|t.completions|] == t.completions
      && (forall k :: 0 <= k < |allTaskIds| ==>
            var c := t'.completions[|t.completions| + k];
            c.checkInId == t.nextId && c.taskId == allTaskIds[k] &&
            c.completed == (allTaskIds[k] == taskId && completed))
      && (taskId !in allTaskIds ==> RowsFor(t'.completions, t.nextId, taskId) == RowsFor(t.completions, t.nextId, taskId))
  {
    var t0 := AddCheckIn(t, userId, date, session);
    var rows := NewRows(t.nextId, BlankMarks(allTaskIds, taskId, completed), t0.nextId);
    assert Quick(t, Some(userId), date, session, taskId, completed, allTaskIds, NoQuickFaults) ==
           (AddRows(t0, t.nextId, BlankMarks(allTaskIds, taskId, completed)), true);
    BlankRowsShape(t.nextId, t0.nextId, allTaskIds, taskId, completed);
    if taskId !in allTaskIds {
      assert forall c :: c in rows ==> c.taskId != taskId;
      RowsForAppend(t0.completions, rows, t.nextId, taskId);
    }
  }

  /** Appending rows none of which belong to (check-in, task) leaves that task's rows alone. */
  lemma {:induction false} RowsForAppend(comps: seq<Completion>, extra: seq<Completion>, checkInId: Id, taskId: Id)
    requires forall c :: c in extra ==> c.checkInId != checkInId || c.taskId != taskId
    ensures RowsFor(comps + extra, checkInId, taskId) == RowsFor(comps, checkInId, taskId)
  {
    if extra == [] {
      assert comps + extra == comps;
    } else {
      var front := extra[..|extra| - 1];
      assert (comps + extra)[..|comps + extra| - 1] == comps + front;
      assert forall c :: c in front ==> c in extra;
      assert extra[|extra| - 1] in extra;
      RowsForAppend(comps, front, checkInId, taskId);
    }
  }

  /**
   * On an existing check-in, a successful call updates the task's single row
   * in place (same table, only that row's flag changed), or else inserts
   * exactly one row for the task.
   */
  lemma QuickOnExisting(t: Tables, userId: Id, date: string, session: int, taskId: Id, completed: bool,
                        allTaskIds: seq<Id>)
    requires |Matching(t.checkIns, userId, date, session)| == 1
    ensures var ci := Matching(t.checkIns, userId, date, session)[0];
      var rows := RowsFor(t.completions, ci.id, taskId);
      var (t', ok) := Quick(t, Some(userId), date, session, taskId, completed, allTaskIds, NoQuickFaults);
      && ok && t'.checkIns == t.checkIns
      && (|rows| == 1 ==>
            && t'.nextId == t.nextId
            && |t'.completions| == |t.completions|
            && forall k :: 0 <= k < |t.completions| ==>
                 t'.completions[k] ==
                   (if t.completions[k].id == rows[0].id then t.completions[k].(completed := completed)
                    else t.completions[k]))
      && (|rows| != 1 ==>
            t'.completions == t.completions + [Completion(t.nextId, ci.id, taskId, completed)])
  {
    var ci := Matching(t.checkIns, userId, date, session)[0];
    assert NewRows(ci.id, [TaskMark(taskId, completed)], t.nextId) == [Completion(t.nextId, ci.id, taskId, completed)];
  }

  /**
   * Repeating an identical call changes nothing more, as long as the task
   * ends up with a single row in the session's check-in: the existing
   * check-in had at most one row for it, or the check-in is created and
   * `taskId` occurs once in `allTaskIds`.
   */
  lemma QuickIdempotent(t: Tables, userId: Id, date: string, session: int, taskId: Id, completed: bool,
                        allTaskIds: seq<Id>)
    requires ValidTables(t)
    requires var found := Matching(t.checkIns, userId, date, session);
      if found == [] then Occurrences(allTaskIds, taskId) == 1
      else |RowsFor(t.completions, found[0].id, taskId)| <= 1
    ensures var t1 := Quick(t, Some(userId), date, session, taskId, completed, allTaskIds, NoQuickFaults).0;
      Quick(t1, Some(userId), date, session, taskId, completed, allTaskIds, NoQuickFaults) == (t1, true)
  {
    var found := Matching(t.checkIns, userId, date, session);
    AtMostOneMatch(t.checkIns, userId, date, session);
    if found == [] {
      NoRowsForNewCheckIn(t, taskId);
      QuickAgainAfterCreate(t, userId, date, session, taskId, completed, allTaskIds);
    } else if |RowsFor(t.completions, found[0].id, taskId)| == 1 {
      QuickAgainAfterUpdate(t, userId, date, session, taskId, completed, allTaskIds);
    } else {
      QuickAgainAfterInsert(t, userId, date, session, taskId, completed, allTaskIds);
    }
  }

  lemma QuickAgainAfterCreate(t: Tables, userId: Id, date: string, session: int, taskId: Id, completed: bool,
                              allTaskIds: seq<Id>)
    requires Matching(t.checkIns, userId, date, session) == []
    requires RowsFor(t.completions, t.nextId, taskId) == []
    requires CompletionIdsFresh(t.completions, t.nextId)
    requires Occurrences(allTaskIds, taskId) == 1
    ensures var t1 := AddRows(AddCheckIn(t, userId, date, session), t.nextId, BlankMarks(allTaskIds, taskId, completed));
      Quick(t1, Some(userId), date, session, taskId, completed, allTaskIds, NoQuickFaults) == (t1, true)
  {
    var t0 := AddCheckIn(t, userId, date, session);
    var marks := BlankMarks(allTaskIds, taskId, completed);
    CreatedSlot(t, userId, date, session, marks);
    FreshRaise(t0.completions, t.nextId, t0.nextId);
    BlankRowOfTask(t0.completions, t.nextId, t0.nextId, taskId, completed, allTaskIds);
    QuickAgainOnSettledRow(AddRows(t0, t.nextId, marks), userId, date, session, taskId, completed, allTaskIds);
  }

  /** After creating the slot's check-in and its rows, the slot holds just that check-in. */
  lemma CreatedSlot(t: Tables, userId: Id, date: string, session: int, marks: seq<TaskMark>)
    requires Matching(t.checkIns, userId, date, session) == []
    ensures var t1 := AddRows(AddCheckIn(t, userId, date, session), t.nextId, marks);
      Matching(t1.checkIns, userId, date, session) == [CheckIn(t.nextId, userId, date, session)]
  {
    MatchingAppend(t.checkIns, CheckIn(t.nextId, userId, date, session), userId, date, session);
  }

  /** The check-in holds exactly one row of the task, it carries `completed`, and its id is unique. */
  predicate SettledRow(comps: seq<Completion>, checkInId: Id, taskId: Id, completed: bool) {
    var r := RowsFor(comps, checkInId, taskId);
    && |r| == 1 && r[0].completed == completed
    && forall c :: c in comps && c.id == r[0].id ==> c == r[0]
  }

  /**
   * When the slot has one check-in whose task row already carries `completed`
   * and no other row shares that row's id, a further call changes nothing.
   */
  lemma QuickAgainOnSettledRow(t: Tables, userId: Id, date: string, session: int, taskId: Id, completed: bool,
                               allTaskIds: seq<Id>)
    requires |Matching(t.checkIns, userId, date, session)| == 1
    requires SettledRow(t.completions, Matching(t.checkIns, userId, date, session)[0].id, taskId, completed)
    ensures Quick(t, Some(userId), date, session, taskId, completed, allTaskIds, NoQuickFaults) == (t, true)
  {
    var r := RowsFor(t.completions, Matching(t.checkIns, userId, date, session)[0].id, taskId);
    SetCompletedSame(t.completions, r[0], completed);
    QuickFindsRow(t, userId, date, session, taskId, completed, allTaskIds);
  }

  /**
   * The blank rows of a new check-in hold a single row of a task listed once,
   * carrying `completed`, and no other row shares its id.
   */
  lemma BlankRowOfTask(comps: seq<Completion>, checkInId: Id, firstId: nat, taskId: Id, completed: bool,
                       allTaskIds: seq<Id>)
    requires RowsFor(comps, checkInId, taskId) == []
    requires CompletionIdsFresh(comps, firstId)
    requires Occurrences(allTaskIds, taskId) == 1
    ensures SettledRow(comps + NewRows(checkInId, BlankMarks(allTaskIds, taskId, completed), firstId),
                       checkInId, taskId, completed)
  {
    var marks := BlankMarks(allTaskIds, taskId, completed);
    var rows := NewRows(checkInId, marks, firstId);
    BlankRowsShape(checkInId, firstId, allTaskIds, taskId, completed);
    RowsForNew(comps, rows, allTaskIds, checkInId, taskId);
    var r := RowsFor(comps + rows, checkInId, taskId);
    NewRowOfTask(comps, rows, checkInId, taskId, r[0]);
    FreshAppend(comps, firstId, checkInId, marks, firstId);
    UniqueById(comps + rows, r[0]);
  }

  /** The blank rows of a check-in, one per listed task, only `taskId`'s carrying `completed`. */
  lemma BlankRowsShape(checkInId: Id, firstId: nat, allTaskIds: seq<Id>, taskId: Id, completed: bool)
    ensures var rows := NewRows(checkInId, BlankMarks(allTaskIds, taskId, completed), firstId);
      && |rows| == |allTaskIds|
      && forall k :: 0 <= k < |rows| ==>
           && rows[k].checkInId == checkInId && rows[k].taskId == allTaskIds[k]
           && (rows[k].taskId == taskId ==> rows[k].completed == completed)
  {
  }

  /** Raising the bound keeps the completion ids fresh. */
  lemma FreshRaise(comps: seq<Completion>, bound: nat, bound': nat)
    requires CompletionIdsFresh(comps, bound) && bound <= bound'
    ensures CompletionIdsFresh(comps, bound')
  {
  }

  /** A row of a new check-in found among the old rows and the new ones is a new one. */
  lemma NewRowOfTask(comps: seq<Completion>, rows: seq<Completion>, checkInId: Id, taskId: Id, row: Completion)
    requires RowsFor(comps, checkInId, taskId) == []
    requires row in RowsFor(comps + rows, checkInId, taskId)
    ensures row in rows && row.taskId == taskId
  {
    assert row !in RowsFor(comps, checkInId, taskId);
  }

  lemma QuickAgainAfterUpdate(t: Tables, userId: Id, date: string, session: int, taskId: Id, completed: bool,
                              allTaskIds: seq<Id>)
    requires |Matching(t.checkIns, userId, date, session)| == 1
    requires |RowsFor(t.completions, Matching(t.checkIns, userId, date, session)[0].id, taskId)| == 1
    ensures var ci := Matching(t.checkIns, userId, date, session)[0];
      var row := RowsFor(t.completions, ci.id, taskId)[0];
      var t1 := t.(completions := SetCompleted(t.completions, row.id, completed));
      Quick(t1, Some(userId), date, session, taskId, completed, allTaskIds, NoQuickFaults) == (t1, true)
  {
    var ci := Matching(t.checkIns, userId, date, session)[0];
    var row := RowsFor(t.completions, ci.id, taskId)[0];
    RowsForSetCompleted(t.completions, row.id, completed, ci.id, taskId);
    assert RowsFor(SetCompleted(t.completions, row.id, completed), ci.id, taskId) == [row.(completed := completed)];
    SetCompletedTwice(t.completions, row.id, completed);
  }

  lemma QuickAgainAfterInsert(t: Tables, userId: Id, date: string, session: int, taskId: Id, completed: bool,
                              allTaskIds: seq<Id>)
    requires CompletionIdsFresh(t.completions, t.nextId)
    requires |Matching(t.checkIns, userId, date, session)| == 1
    requires RowsFor(t.completions, Matching(t.checkIns, userId, date, session)[0].id, taskId) == []
    ensures var ci := Matching(t.checkIns, userId, date, session)[0];
      var t1 := AddRows(t, ci.id, [TaskMark(taskId, completed)]);
      Quick(t1, Some(userId), date, session, taskId, completed, allTaskIds, NoQuickFaults) == (t1, true)
  {
    var ci := Matching(t.checkIns, userId, date, session)[0];
    var marks := [TaskMark(taskId, completed)];
    var t1 := AddRows(t, ci.id, marks);
    var c := Completion(t.nextId, ci.id, taskId, completed);
    assert NewRows(ci.id, marks, t.nextId) == [c];
    assert t1.completions == t.completions + [c];
    RowsForOne(t.completions, c);
    FreshAppend(t.completions, t.nextId, ci.id, marks, t.nextId);
    UniqueById(t1.completions, c);
    SetCompletedSame(t1.completions, c, completed);
    QuickFindsRow(t1, userId, date, session, taskId, completed, allTaskIds);
  }

  /** On a check-in found with a single row for the task, the call updates that row. */
  lemma QuickFindsRow(t: Tables, userId: Id, date: string, session: int, taskId: Id, completed: bool,
                      allTaskIds: seq<Id>)
    requires |Matching(t.checkIns, userId, date, session)| == 1
    requires |RowsFor(t.completions, Matching(t.checkIns, userId, date, session)[0].id, taskId)| == 1
    ensures var row := RowsFor(t.completions, Matching(t.checkIns, userId, date, session)[0].id, taskId)[0];
      Quick(t, Some(userId), date, session, taskId, completed, allTaskIds, NoQuickFaults) ==
      (t.(completions := SetCompleted(t.completions, row.id, completed)), true)
  {
  }

  /** Rows with fresh ids appended after rows with smaller ids keep the ids increasing. */
  lemma FreshAppend(comps: seq<Completion>, bound: nat, checkInId: Id, marks: seq<TaskMark>, firstId: nat)
    requires CompletionIdsFresh(comps, bound) && bound <= firstId
    ensures CompletionIdsFresh(comps + NewRows(checkInId, marks, firstId), firstId + |marks|)
  {
    var all := comps + NewRows(checkInId, marks, firstId);
    var n := |comps|;
    forall i, j | 0 <= i < j < |all| ensures all[i].id < all[j].id {
      if i < n {
        assert all[i] == comps[i] && comps[i] in comps;
        if j < n {
          assert all[j] == comps[j];
        }
      }
    }
    forall c | c in all ensures c.id < firstId + |marks| {
      var k :| 0 <= k < |all| && all[k] == c;
      if k < n {
        assert comps[k] in comps;
      }
    }
  }

  lemma MatchingAppend(cis: seq<CheckIn>, ci: CheckIn, userId: Id, date: string, session: int)
    requires InSlot(ci, userId, date, session)
    ensures Matching(cis + [ci], userId, date, session) == Matching(cis, userId, date, session) + [ci]
  {
    assert (cis + [ci])[..|cis|] == cis;
  }

  /** Unfolding `RowsFor` at the last of a non-empty run of appended rows. */
  lemma RowsForAppendLast(comps: seq<Completion>, rows: seq<Completion>, checkInId: Id, taskId: Id)
    requires rows != []
    ensures var n := |rows| - 1;
      RowsFor(comps + rows, checkInId, taskId) ==
      RowsFor(comps + rows[..n], checkInId, taskId) +
      (if rows[n].checkInId == checkInId && rows[n].taskId == taskId then [rows[n]] else [])
  {
    DropLastOfAppend(comps, rows);
  }

  lemma RowsForSnoc(comps: seq<Completion>, c: Completion, checkInId: Id, taskId: Id)
    ensures RowsFor(comps + [c], checkInId, taskId) ==
            RowsFor(comps, checkInId, taskId) + (if c.checkInId == checkInId && c.taskId == taskId then [c] else [])
  {
    assert (comps + [c])[..|comps|] == comps;
  }

  lemma RowsForOne(comps: seq<Completion>, c: Completion)
    requires RowsFor(comps, c.checkInId, c.taskId) == []
    ensures RowsFor(comps + [c], c.checkInId, c.taskId) == [c]
  {
    assert (comps + [c])[..|comps|] == comps;
  }

  /** A new check-in's id is not referenced by any stored completion. */
  lemma NoRowsForNewCheckIn(t: Tables, taskId: Id)
    requires ValidTables(t)
    ensures RowsFor(t.completions, t.nextId, taskId) == []
  {
    forall c | c in t.completions ensures c.checkInId != t.nextId {
      var ci :| ci in t.checkIns && ci.id == c.checkInId;
    }
    NoRows(t.completions, t.nextId, taskId);
  }

  lemma NoRows(comps: seq<Completion>, checkInId: Id, taskId: Id)
    requires forall c :: c in comps ==> c.checkInId != checkInId || c.taskId != taskId
    ensures RowsFor(comps, checkInId, taskId) == []
  {
    var r := RowsFor(comps, checkInId, taskId);
    assert forall c :: c !in r;
  }

  /** The blank rows for a new check-in hold as many rows of `taskId` as `allTaskIds` holds copies of it. */
  lemma {:induction false} RowsForNew(comps: seq<Completion>, rows: seq<Completion>, allTaskIds: seq<Id>,
                                      checkInId: Id, taskId: Id)
    requires RowsFor(comps, checkInId, taskId) == []
    requires |rows| == |allTaskIds|
    requires forall k :: 0 <= k < |rows| ==> rows[k].checkInId == checkInId && rows[k].taskId == allTaskIds[k]
    ensures |RowsFor(comps + rows, checkInId, taskId)| == Occurrences(allTaskIds, taskId)
  {
    if rows == [] {
      assert comps + rows == comps;
    } else {
      var n := |rows| - 1;
      var front, ids := rows[..n], allTaskIds[..n];
      RowsForNew(comps, front, ids, checkInId, taskId);
      RowsForAppendLast(comps, rows, checkInId, taskId);
      assert rows[n].checkInId == checkInId && rows[n].taskId == allTaskIds[n];
      var last := if rows[n].taskId == taskId then 1 else 0;
      assert Occurrences(allTaskIds, taskId) == Occurrences(ids, taskId) + last;
    }
  }

  /** With ids increasing along the table, a row is the only one with its id. */
  lemma UniqueById(comps: seq<Completion>, row: Completion)
    requires exists bound :: CompletionIdsFresh(comps, bound)
    requires row in comps
    ensures forall c :: c in comps && c.id == row.id ==> c == row
  {
  }

  /** Updating a row that already has the flag changes nothing. */
  lemma SetCompletedSame(comps: seq<Completion>, row: Completion, completed: bool)
    requires row.completed == completed
    requires forall c :: c in comps && c.id == row.id ==> c == row
    ensures SetCompleted(comps, row.id, completed) == comps
  {
    var r := SetCompleted(comps, row.id, completed);
    forall k | 0 <= k < |comps| ensures r[k] == comps[k] {
      if comps[k].id == row.id {
        assert comps[k] in comps;
      }
    }
  }

  lemma SetCompletedTwice(comps: seq<Completion>, id: Id, completed: bool)
    ensures SetCompleted(SetCompleted(comps, id, completed), id, completed) == SetCompleted(comps, id, completed)
  {
  }

  lemma SetCompletedAppend(a: seq<Completion>, b: seq<Completion>, id: Id, completed: bool)
    ensures SetCompleted(a + b, id, completed) == SetCompleted(a, id, completed) + SetCompleted(b, id, completed)
  {
  }

  /** Updating a flag does not move a row in or out of any (check-in, task) selection. */
  lemma {:induction false} RowsForSetCompleted(comps: seq<Completion>, id: Id, completed: bool,
                                               checkInId: Id, taskId: Id)
    ensures RowsFor(SetCompleted(comps, id, completed), checkInId, taskId) ==
            SetCompleted(RowsFor(comps, checkInId, taskId), id, completed)
  {
    if comps != [] {
      var n := |comps| - 1;
      var x := comps[n];
      var s := SetCompleted(comps, id, completed);
      assert comps == comps[..n] + [x];
      SetCompletedAppend(comps[..n], [x], id, completed);
      var x' := s[n];
      assert s[..n] == SetCompleted(comps[..n], id, completed);
      assert x'.checkInId == x.checkInId && x'.taskId == x.taskId;
      RowsForSetCompleted(comps[..n], id, completed, checkInId, taskId);
      var front := RowsFor(comps[..n], checkInId, taskId);
      var last := if x.checkInId == checkInId && x.taskId == taskId then [x] else [];
      assert RowsFor(comps, checkInId, taskId) == front + last;
      assert RowsFor(s, checkInId, taskId) == RowsFor(s[..n], checkInId, taskId) +
        (if x'.checkInId == checkInId && x'.taskId == taskId then [x'] else []);
      SetCompletedAppend(front, last, id, completed);
    }
  }

  /**
   * Idempotence needs the task among `allTaskIds`: when it is missing, the
   * first call creates the check-in with no row of the task and the second
   * call inserts one.
   */
  lemma QuickRepeatInsertsWhenTaskNotListed()
    ensures var t0 := Tables([], [], 0);
      var t1 := Quick(t0, Some(0), "2026-06-01", 1, 7, true, [], NoQuickFaults).0;
      var t2 := Quick(t1, Some(0), "2026-06-01", 1, 7, true, [], NoQuickFaults).0;
      && t1.completions == []
      && t2.completions == [Completion(1, 0, 7, true)]
  {
    var t0 := Tables([], [], 0);
    var t1 := Quick(t0, Some(0), "2026-06-01", 1, 7, true, [], NoQuickFaults).0;
    assert t1 == Tables([CheckIn(0, 0, "2026-06-01", 1)], [], 1);
    assert Matching(t1.checkIns, 0, "2026-06-01", 1) == [CheckIn(0, 0, "2026-06-01", 1)];
    assert NewRows(0, [TaskMark(7, true)], 1) == [Completion(1, 0, 7, true)];
  }

  // ---------------------------------------------------------------------------
  // The store
  // ---------------------------------------------------------------------------

  /** The two tables, updated in place by the hook's operations. */
  class Ledger {
    var checkIns: seq<CheckIn>
    var completions: seq<Completion>
    var nextId: nat

    function State(): Tables
      reads this
    {
      Tables(checkIns, completions, nextId)
    }

    predicate Valid()
      reads this
    {
      ValidTables(State())
    }

    constructor ()
      ensures State() == Tables([], [], 0) && Valid()
    {
      checkIns, completions, nextId := [], [], 0;
    }

    /** fetchCheckIns; an empty bound stands for an absent one. */
    method FetchCheckIns(userId: Option<Id>, startDate: string, endDate: string, faults: FetchFaults)
      returns (cis: seq<CheckIn>, comps: seq<Completion>)
      ensures (cis, comps) == Fetch(State(), userId, startDate, endDate, faults)
    {
      if userId.None? || faults.checkInsFail {
        return [], [];
      }
      cis := SelectCheckIns(checkIns, userId.value, startDate, endDate);
      comps := [];
      if |cis| > 0 && !faults.completionsFail {
        comps := SelectCompletions(completions, CheckInIdSet(cis));
      }
    }

    /** submitCheckIn: the check-in first, then its completion rows. */
    method SubmitCheckIn(userId: Option<Id>, date: string, sessionNumber: int, taskCompletions: seq<TaskMark>,
                         faults: SubmitFaults)
      returns (r: Outcome)
      requires Valid()
      modifies this
      ensures Valid()
      ensures (State(), r) == Submit(old(State()), userId, date, sessionNumber, taskCompletions, faults)
    {
      ghost var t0 := State();
      SubmitValid(t0, userId, date, sessionNumber, taskCompletions, faults);
      if userId.None? {
        return Failed(NotAuthenticated);
      }
      if faults.insertFails {
        return Failed(SubmitFailed);
      }
      if Matching(checkIns, userId.value, date, sessionNumber) != [] {
        return Failed(AlreadyCheckedIn);
      }
      var checkInId := nextId;
      checkIns := checkIns + [CheckIn(checkInId, userId.value, date, sessionNumber)];
      nextId := nextId + 1;
      ghost var t1 := State();
      assert t1 == AddCheckIn(t0, userId.value, date, sessionNumber);
      if faults.completionsFail {
        return Failed(CompletionsFailed);
      }
      completions := completions + NewRows(checkInId, taskCompletions, nextId);
      nextId := nextId + |taskCompletions|;
      assert State() == AddRows(t1, checkInId, taskCompletions);
      return Ok;
    }

    /** quickComplete: find or create the session's check-in, then update or insert the task's row. */
    method QuickComplete(userId: Option<Id>, date: string, sessionNumber: int, taskId: Id, completed: bool,
                         allTaskIds: seq<Id>, faults: QuickFaults)
      returns (success: bool)
      requires Valid()
      modifies this
      ensures Valid()
      ensures (State(), success) ==
              Quick(old(State()), userId, date, sessionNumber, taskId, completed, allTaskIds, faults)
    {
      ghost var t0 := State();
      QuickValid(t0, userId, date, sessionNumber, taskId, completed, allTaskIds, faults);
      if userId.None? {
        return false;
      }
      var found := Matching(checkIns, userId.value, date, sessionNumber);
      if !faults.lookupFails && |found| == 1 {
        MarkTask(found[0].id, taskId, completed, faults);
        return true;
      }
      if faults.insertFails || found != [] {
        return false;
      }
      CreateCheckIn(userId.value, date, sessionNumber, taskId, completed, allTaskIds, faults.blankRowsFail);
      return true;
    }

    /** The existing check-in's branch of quickComplete: update the task's row, or insert one. */
    method MarkTask(checkInId: Id, taskId: Id, completed: bool, faults: QuickFaults)
      modifies this
      ensures var t := old(State());
        var rows := RowsFor(t.completions, checkInId, taskId);
        State() ==
          if faults.writeFails then t
          else if !faults.rowLookupFails && |rows| == 1 then t.(completions := SetCompleted(t.completions, rows[0].id, completed))
          else AddRows(t, checkInId, [TaskMark(taskId, completed)])
    {
      var rows := RowsFor(completions, checkInId, taskId);
      if !faults.writeFails {
        if !faults.rowLookupFails && |rows| == 1 {
          completions := SetCompleted(completions, rows[0].id, completed);
        } else {
          completions := completions + NewRows(checkInId, [TaskMark(taskId, completed)], nextId);
          nextId := nextId + 1;
        }
      }
    }

    /** The new check-in's branch of quickComplete: the check-in, then one blank row per task. */
    method CreateCheckIn(userId: Id, date: string, sessionNumber: int, taskId: Id, completed: bool,
                         allTaskIds: seq<Id>, blankRowsFail: bool)
      modifies this
      ensures var t1 := AddCheckIn(old(State()), userId, date, sessionNumber);
        State() == if blankRowsFail then t1 else AddRows(t1, old(nextId), BlankMarks(allTaskIds, taskId, completed))
    {
      var checkInId := nextId;
      checkIns := checkIns + [CheckIn(checkInId, userId, date, sessionNumber)];
      nextId := nextId + 1;
      if !blankRowsFail {
        var blank := BlankMarks(allTaskIds, taskId, completed);
        completions := completions + NewRows(checkInId, blank, nextId);
        nextId := nextId + |blank|;
      }
    }
  }
}
