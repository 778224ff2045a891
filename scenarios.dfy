/**
 * Short runs of the table actions on a fresh table. Each shows, from the
 * actions' contracts alone, one behaviour the actions promise.
 */
module Scenarios {
  import opened Outcomes
  import opened Periods
  import opened SalesTargets

  /** Creating a second target for the same user and period fails, and only the first record exists. */
  method DuplicateCreateRejected() returns (first: Result<SalesTarget>, second: Result<SalesTarget>, count: nat)
    ensures first.Success? && first.data.targetPeriod == "2025-06"
    ensures second == Failure(DuplicateTarget)
    ensures count == 1
  {
    var table := new SalesTargetTable({"userA"});
    var form := TargetForm("userA", Monthly, "2025-06", 1000, true);
    first := table.Create(form);
    assert table.records[0].userId == "userA" && table.records[0].targetPeriod == "2025-06";
    second := table.Create(form);
    count := |table.records|;
  }

  /** Editing one target onto another's user and period fails, and the edited target keeps its values. */
  method UpdateCollisionRejected() returns (before: SalesTarget, result: Result<SalesTarget>, after: SalesTarget)
    ensures result == Failure(UpdateConflict)
    ensures after == before && before.userId == "userA" && before.targetPeriod == "2025-05"
  {
    var table := new SalesTargetTable({"userA", "userB"});
    var t1 := table.Create(TargetForm("userA", Monthly, "2025-05", 1000, true));
    assert !HasPeriod(table.records, "userB", "2025-06");
    var t2 := table.Create(TargetForm("userB", Monthly, "2025-06", 2000, true));
    before := table.records[0];
    assert table.records[1].id != t1.data.id;
    result := table.Update(t1.data.id, TargetForm("userB", Monthly, "2025-06", 1500, true));
    after := table.records[0];
  }

  /** Setting the achieved amount fails when the only record for the pair is inactive, and changes nothing. */
  method InactiveTargetNotUpdated() returns (result: Result<SalesTarget>, count: nat, achieved: int)
    ensures result == Failure(NoActiveTarget)
    ensures count == 1 && achieved == 0
  {
    var table := new SalesTargetTable({"userA"});
    var created := table.Create(TargetForm("userA", Yearly, "2025", 5000, false));
    result := table.UpdateAchievedAmount("userA", "2025", 700);
    count := |table.records|;
    achieved := table.records[0].achievedAmount;
  }
}
