/**
 * How the figures different endpoints report for the same engineer relate
 * to each other, and a worked over-allocation case.
 */
module Consistency {
  import opened Wrappers
  import opened Domain
  import opened AssignmentModel
  import opened Capacity
  import opened Persistence
  import DashboardController
  import AssignmentController
  import UserController
  import AuthMiddleware

  /**
   * The dashboard row, the capacity endpoint and the available-engineers
   * search agree on the allocation; the two latter report the same
   * capacity, and the dashboard reports it floored at 0, so they differ
   * exactly when the engineer is over-allocated.
   */
  lemma CapacityFiguresAgree(
    engineer: User, assignments: seq<Assignment>, projects: map<Id, Project>, rangeStart: int, rangeEnd: int)
    requires DashboardController.CapacityRowOf(engineer, assignments, projects, Some(rangeStart), Some(rangeEnd)).Some?
    ensures
      var row := DashboardController.CapacityRowOf(engineer, assignments, projects, Some(rangeStart), Some(rangeEnd)).value;
      var direct := AssignmentController.EngineerCapacity(assignments, engineer.id, Some(rangeStart), Some(rangeEnd));
      var candidate := UserController.CandidateFor(engineer, assignments, rangeStart, rangeEnd);
      && row.totalAllocation == direct.totalAllocation == candidate.currentAllocation.value
      && candidate.availableCapacity.value == direct.availableCapacity
      && row.availableCapacity == (if direct.availableCapacity > 0.0 then direct.availableCapacity else 0.0)
      && (row.availableCapacity == direct.availableCapacity <==> row.totalAllocation <= 100.0)
  {
  }

  /** The allocation of one engineer in the worked case below. */
  const Engineer: Id := 7

  /** 40% from day 1 to day 181 (January to June). */
  const FirstHalf := Assignment(1, Engineer, 100, Developer, 40.0, 1, 181, AssignmentStatus.Active,
                                0.0, 0.0, 0.0, None, 3, 0, 0)

  /** 70% from day 91 to day 365 (April to December). */
  const FromApril := Assignment(2, Engineer, 101, Developer, 70.0, 91, 365, AssignmentStatus.Active,
                                0.0, 0.0, 0.0, None, 3, 0, 0)

  /**
   * Both records meet the range from day 60 to day 121 (March to May): the
   * engineer is at 110%, the dashboard shows no capacity left and the
   * capacity endpoint shows -10.
   */
  lemma OverAllocationCase()
    ensures AllocationOf([FirstHalf, FromApril], Engineer, Some(60), Some(121)) == 110.0
    ensures ClampedCapacity(AllocationOf([FirstHalf, FromApril], Engineer, Some(60), Some(121))) == 0.0
    ensures AssignmentController.EngineerCapacity([FirstHalf, FromApril], Engineer, Some(60), Some(121)).availableCapacity
         == -10.0
  {
    var q := CapacityQuery(Engineer, Some(60), Some(121));
    var s := [FirstHalf, FromApril];
    assert Matches(FirstHalf, q) && Matches(FromApril, q);
    assert s[1..] == [FromApril] && [FromApril][1..] == [];
    assert Find(s, q) == [FirstHalf, FromApril];
    BothRecordsSum();
  }

  lemma BothRecordsSum()
    ensures Total([FirstHalf, FromApril], Allocation) == 110.0
  {
    var s := [FirstHalf, FromApril];
    assert s[1..] == [FromApril] && [FromApril][1..] == [];
    assert Total([], Allocation) == 0.0;
    assert Total([FromApril], Allocation) == 70.0 + Total([], Allocation);
    assert Total(s, Allocation) == 40.0 + Total([FromApril], Allocation);
  }

  /** Without a range both records count in full; with a range after both end, neither does. */
  lemma RangeOnlyNarrows()
    ensures AllocationOf([FirstHalf, FromApril], Engineer, None, None) == 110.0
    ensures AllocationOf([FirstHalf, FromApril], Engineer, Some(400), Some(500)) == 0.0
    ensures AllocationOf([FirstHalf, FromApril], Engineer, Some(200), None) == 110.0
  {
    var s := [FirstHalf, FromApril];
    assert s[1..] == [FromApril] && [FromApril][1..] == [];
    var all := CapacityQuery(Engineer, None, None);
    assert Matches(FirstHalf, all) && Matches(FromApril, all);
    assert Find(s, all) == s;
    var late := CapacityQuery(Engineer, Some(400), Some(500));
    assert !Matches(FirstHalf, late) && !Matches(FromApril, late);
    assert Find(s, late) == [];
    var half := CapacityQuery(Engineer, Some(200), None);
    assert Matches(FirstHalf, half) && Matches(FromApril, half);
    assert Find(s, half) == s;
    BothRecordsSum();
  }

  /** The project gate lets a non-admin through exactly for the projects their dashboard lists as managed. */
  lemma ManagersPassForManagedProjects(user: User, projects: map<Id, Project>, projectId: Id)
    requires user.role != Admin
    ensures AuthMiddleware.CanManageProject(Some(user), projects, projectId) == Next
        <==> projectId in UserController.ManagedBy(projects, user.id)
  {
  }

  /**
   * Records only ever leave the creation handler active, and neither update
   * handler changes the status: no modelled operation can take a record out
   * of the active state.
   */
  lemma StatusStaysActive(a: Assignment, f: AssignmentFields, id: Id, requester: Id, now: int, hoursWorked: real)
    ensures NewAssignment(id, f, requester, now).status == AssignmentStatus.Active
    ensures AssignmentController.ApplyUpdate(a, f).status == a.status
    ensures a.(hoursWorked := hoursWorked).status == a.status
  {
  }
}
