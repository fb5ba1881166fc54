/** What `updateApplicantPaperStatuses` does to the applicant table: the pairs
    are applied one by one, each applicant looked up within the cycle, and the
    first pair that fails stops the loop with everything before it kept. */
module StatusUpdates {
  import opened Wrappers
  import opened Domain

  datatype StatusChange = StatusChange(applicantId: string, status: Status)

  /** The table after the loop, and the exception that stopped it, if any. */
  datatype Applied = Applied(rows: map<string, Applicant>, failure: Option<ServiceError>)

  /** `findByIdAndMozip(id, mozip)` finds a row. */
  predicate InScope(rows: map<string, Applicant>, mozipId: string, id: string)
  {
    id in rows && rows[id].mozipId == mozipId
  }

  /** The loop, pair by pair: look the applicant up within the cycle, set its
      status and save it, or stop with ApplicantNotFound. */
  function ApplyChanges(rows: map<string, Applicant>, mozipId: string, changes: seq<StatusChange>): Applied
    decreases |changes|
  {
    if changes == [] then Applied(rows, None)
    else
      var c := changes[0];
      if InScope(rows, mozipId, c.applicantId) then
        ApplyChanges(rows[c.applicantId := rows[c.applicantId].(paperStatus := c.status)], mozipId, changes[1..])
      else
        Applied(rows, Some(ApplicantNotFound(c.applicantId)))
  }

  /** Index of the first pair whose applicant is not in the cycle, or |changes|. */
  function FirstOutOfScope(rows: map<string, Applicant>, mozipId: string, changes: seq<StatusChange>): (k: nat)
    ensures k <= |changes|
    ensures forall j :: 0 <= j < k ==> InScope(rows, mozipId, changes[j].applicantId)
    ensures k < |changes| ==> !InScope(rows, mozipId, changes[k].applicantId)
    decreases |changes|
  {
    if changes == [] || !InScope(rows, mozipId, changes[0].applicantId) then 0
    else 1 + FirstOutOfScope(rows, mozipId, changes[1..])
  }

  /** The status asked for by the last pair that names id, if any does. */
  function LastStatus(changes: seq<StatusChange>, id: string): Option<Status>
    decreases |changes|
  {
    if changes == [] then None
    else
      match LastStatus(changes[1..], id)
      case Some(s) => Some(s)
      case None => if changes[0].applicantId == id then Some(changes[0].status) else None
  }

  /** Reference semantics: every row named by some pair takes the status of the
      last pair naming it; every other row is as it was. */
  function Overwrite(rows: map<string, Applicant>, changes: seq<StatusChange>): map<string, Applicant>
  {
    map id | id in rows ::
      match LastStatus(changes, id)
      case Some(s) => rows[id].(paperStatus := s)
      case None => rows[id]
  }

  /** The status of the last pair naming an applicant is the one that remains. */
  lemma {:induction false} LastStatusIsLastWrite(changes: seq<StatusChange>, i: nat)
    requires i < |changes|
    requires forall j :: i < j < |changes| ==> changes[j].applicantId != changes[i].applicantId
    ensures LastStatus(changes, changes[i].applicantId) == Some(changes[i].status)
    decreases |changes|
  {
    var id := changes[i].applicantId;
    LastStatusNone(changes[i + 1..], id);
    if i > 0 {
      LastStatusIsLastWrite(changes[1..], i - 1);
    }
  }

  /** No pair names id: id keeps its status. */
  lemma {:induction false} LastStatusNone(changes: seq<StatusChange>, id: string)
    requires forall j :: 0 <= j < |changes| ==> changes[j].applicantId != id
    ensures LastStatus(changes, id) == None
    decreases |changes|
  {
    if changes != [] {
      LastStatusNone(changes[1..], id);
    }
  }

  lemma OverwriteCons(rows: map<string, Applicant>, c: StatusChange, cs: seq<StatusChange>)
    requires c.applicantId in rows
    ensures Overwrite(rows[c.applicantId := rows[c.applicantId].(paperStatus := c.status)], cs) == Overwrite(rows, [c] + cs)
  {
    assert ([c] + cs)[1..] == cs;
  }

  lemma {:induction false} ApplyChangesMeaningFrom(rows: map<string, Applicant>, mozipId: string, changes: seq<StatusChange>)
    ensures var k := FirstOutOfScope(rows, mozipId, changes);
      ApplyChanges(rows, mozipId, changes)
        == Applied(Overwrite(rows, changes[..k]),
                   if k == |changes| then None else Some(ApplicantNotFound(changes[k].applicantId)))
    decreases |changes|
  {
    var k := FirstOutOfScope(rows, mozipId, changes);
    if changes == [] || !InScope(rows, mozipId, changes[0].applicantId) {
      assert Overwrite(rows, changes[..k]) == rows;
    } else {
      var c := changes[0];
      var next := rows[c.applicantId := rows[c.applicantId].(paperStatus := c.status)];
      assert forall x :: InScope(next, mozipId, x) == InScope(rows, mozipId, x);
      SameScopeSameFirst(next, rows, mozipId, changes[1..]);
      ApplyChangesMeaningFrom(next, mozipId, changes[1..]);
      OverwriteCons(rows, c, changes[1..][..k - 1]);
      assert changes[..k] == [c] + changes[1..][..k - 1];
      if k < |changes| {
        assert changes[1..][k - 1] == changes[k];
      }
    }
  }

  lemma SameScopeSameFirst(r1: map<string, Applicant>, r2: map<string, Applicant>, mozipId: string, changes: seq<StatusChange>)
    requires forall x :: InScope(r1, mozipId, x) == InScope(r2, mozipId, x)
    ensures FirstOutOfScope(r1, mozipId, changes) == FirstOutOfScope(r2, mozipId, changes)
  {
  }

  /** The loop's effect is the reference semantics applied to the pairs before
      the first failing one (all of them when none fails), and the error names
      the failing pair's applicant. */
  lemma ApplyChangesMeaning(rows: map<string, Applicant>, mozipId: string, changes: seq<StatusChange>)
    ensures var k := FirstOutOfScope(rows, mozipId, changes);
      ApplyChanges(rows, mozipId, changes)
        == Applied(Overwrite(rows, changes[..k]),
                   if k == |changes| then None else Some(ApplicantNotFound(changes[k].applicantId)))
  {
    ApplyChangesMeaningFrom(rows, mozipId, changes);
  }

  /** The update succeeds iff every listed applicant belongs to the cycle. */
  lemma {:induction false} StatusUpdateSucceedsIff(rows: map<string, Applicant>, mozipId: string, changes: seq<StatusChange>)
    ensures ApplyChanges(rows, mozipId, changes).failure.None?
        <==> forall i :: 0 <= i < |changes| ==> InScope(rows, mozipId, changes[i].applicantId)
  {
    ApplyChangesMeaning(rows, mozipId, changes);
  }

  /** After a failure at pair k the table is what applying only the pairs
      before k gives: those stay applied, pair k and the rest are not applied. */
  lemma FailureKeepsPrefix(rows: map<string, Applicant>, mozipId: string, changes: seq<StatusChange>, k: nat)
    requires k < |changes|
    requires ApplyChanges(rows, mozipId, changes).failure == Some(ApplicantNotFound(changes[k].applicantId))
    requires forall j :: 0 <= j < k ==> InScope(rows, mozipId, changes[j].applicantId)
    ensures ApplyChanges(rows, mozipId, changes[..k]).failure == None
    ensures ApplyChanges(rows, mozipId, changes).rows == ApplyChanges(rows, mozipId, changes[..k]).rows
  {
    ApplyChangesMeaning(rows, mozipId, changes);
    ApplyChangesMeaning(rows, mozipId, changes[..k]);
    var f := FirstOutOfScope(rows, mozipId, changes);
    assert f == k;
    assert changes[..k][..k] == changes[..k];
    StatusUpdateSucceedsIff(rows, mozipId, changes[..k]);
  }

  /** A successful update leaves every listed applicant with the status of the
      last pair naming it: the last write wins. */
  lemma LastWriteWins(rows: map<string, Applicant>, mozipId: string, changes: seq<StatusChange>, i: nat)
    requires ApplyChanges(rows, mozipId, changes).failure.None?
    requires i < |changes|
    requires forall j :: i < j < |changes| ==> changes[j].applicantId != changes[i].applicantId
    ensures changes[i].applicantId in ApplyChanges(rows, mozipId, changes).rows
    ensures ApplyChanges(rows, mozipId, changes).rows[changes[i].applicantId].paperStatus == changes[i].status
  {
    ApplyChangesMeaning(rows, mozipId, changes);
    StatusUpdateSucceedsIff(rows, mozipId, changes);
    assert changes[..|changes|] == changes;
    LastStatusIsLastWrite(changes, i);
  }

  /** Applicants that no pair names keep their row, status included. */
  lemma {:induction false} UnlistedApplicantsUnchanged(rows: map<string, Applicant>, mozipId: string, changes: seq<StatusChange>, id: string)
    requires id in rows
    requires forall j :: 0 <= j < |changes| ==> changes[j].applicantId != id
    ensures id in ApplyChanges(rows, mozipId, changes).rows
    ensures ApplyChanges(rows, mozipId, changes).rows[id] == rows[id]
  {
    ApplyChangesMeaning(rows, mozipId, changes);
    var k := FirstOutOfScope(rows, mozipId, changes);
    LastStatusNone(changes[..k], id);
  }

  /** The update only ever changes statuses: the same ids stay in the table,
      each with the same id and cycle. */
  lemma {:induction false} StatusUpdateKeepsIdentity(rows: map<string, Applicant>, mozipId: string, changes: seq<StatusChange>)
    ensures ApplyChanges(rows, mozipId, changes).rows.Keys == rows.Keys
    ensures forall id :: id in rows ==>
      && ApplyChanges(rows, mozipId, changes).rows[id].id == rows[id].id
      && ApplyChanges(rows, mozipId, changes).rows[id].mozipId == rows[id].mozipId
  {
    ApplyChangesMeaning(rows, mozipId, changes);
  }

  /** Two pairs where the second applicant belongs to another cycle: the first
      status is written, then the call fails on the second. */
  lemma PartialApplicationExample()
    ensures var rows := map["a1" := Applicant("a1", "m", "PENDING"), "a2" := Applicant("a2", "other", "PENDING")];
      ApplyChanges(rows, "m", [StatusChange("a1", "PASSED"), StatusChange("a2", "FAILED")])
        == Applied(rows["a1" := Applicant("a1", "m", "PASSED")], Some(ApplicantNotFound("a2")))
  {
    var rows := map["a1" := Applicant("a1", "m", "PENDING"), "a2" := Applicant("a2", "other", "PENDING")];
    var changes := [StatusChange("a1", "PASSED"), StatusChange("a2", "FAILED")];
    var next := rows["a1" := Applicant("a1", "m", "PASSED")];
    assert changes[1..] == [StatusChange("a2", "FAILED")];
    assert !InScope(next, "m", "a2");
    assert ApplyChanges(next, "m", changes[1..]) == Applied(next, Some(ApplicantNotFound("a2")));
  }
}
