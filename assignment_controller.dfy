/**
 * The assignment handlers: creation (existence checks, the duplicate rule,
 * the insert), update, deletion and the hours update on the store, and the
 * two read-only capacity endpoints.
 */
module AssignmentController {
  import opened Wrappers
  import opened Domain
  import opened AssignmentModel
  import opened Capacity
  import opened Persistence

  // -------------------------------------------------------------- mutations

  /** Every check `createAssignment` makes before it inserts. */
  predicate CreateAllowed(db_users: map<Id, User>, db_projects: map<Id, Project>, s: seq<Assignment>,
                          fields: AssignmentFields)
  {
    && fields.engineerId in db_users
    && fields.projectId in db_projects
    && !HasPair(s, fields.engineerId, fields.projectId)
    && (fields.allocationPercentage.Some? ==> 0.0 <= fields.allocationPercentage.value <= 100.0)
  }

  /**
   * `createAssignment`: 404 when the engineer or the project is unknown, 400
   * when the pair already has a record (whatever its dates), 500 when the
   * schema rejects the allocation on save; otherwise exactly one record is
   * appended, built from the supplied fields and schema defaults, with
   * `assignedBy` the requester and both timestamps the save time.
   */
  method CreateAssignment(db: Database, fields: AssignmentFields, requester: Id, now: int)
    returns (reply: Reply)
    requires db.Valid()
    modifies db
    ensures db.Valid()
    ensures db.users == old(db.users) && db.projects == old(db.projects)
    ensures fields.engineerId !in old(db.users) ==> reply == Reply(404, "Engineer not found")
    ensures fields.engineerId in old(db.users) && fields.projectId !in old(db.projects) ==>
      reply == Reply(404, "Project not found")
    ensures (&& fields.engineerId in old(db.users) && fields.projectId in old(db.projects)
             && HasPair(old(db.assignments), fields.engineerId, fields.projectId)) ==>
      reply == Reply(400, "Assignment already exists")
    ensures (&& fields.engineerId in old(db.users) && fields.projectId in old(db.projects)
             && !HasPair(old(db.assignments), fields.engineerId, fields.projectId)
             && !CreateAllowed(old(db.users), old(db.projects), old(db.assignments), fields)) ==>
      reply == InternalError
    ensures reply.Succeeded() <==> CreateAllowed(old(db.users), old(db.projects), old(db.assignments), fields)
    ensures !reply.Succeeded() ==> db.assignments == old(db.assignments)
    ensures reply.Succeeded() ==>
      && reply == Reply(201, "Assignment created successfully")
      && db.assignments == old(db.assignments) + [PreSave(NewAssignment(old(db.nextId), fields, requester, now), now)]
  {
    if fields.engineerId !in db.users {
      return Reply(404, "Engineer not found");
    }
    if fields.projectId !in db.projects {
      return Reply(404, "Project not found");
    }
    if HasPair(db.assignments, fields.engineerId, fields.projectId) {
      return Reply(400, "Assignment already exists");
    }
    var id := db.NewId();
    var doc := NewAssignment(id, fields, requester, now);
    if !SchemaValid(doc) {
      return InternalError;
    }
    doc := PreSave(doc, now);
    AppendKeepsUniquePairs(db.assignments, doc);
    db.assignments := db.assignments + [doc];
    reply := Reply(201, "Assignment created successfully");
  }

  /**
   * The record after `findByIdAndUpdate(id, body)`: the body's fields
   * replace the stored ones; an absent optional field keeps its stored value
   * (no defaults on update), and nothing else changes, `updatedAt` included,
   * because the pre-save hook does not run for this call.
   */
  function ApplyUpdate(a: Assignment, f: AssignmentFields): (r: Assignment)
    ensures r.id == a.id && r.status == a.status && r.hoursWorked == a.hoursWorked
    ensures r.assignedBy == a.assignedBy && r.createdAt == a.createdAt && r.updatedAt == a.updatedAt
    ensures r.engineerId == f.engineerId && r.projectId == f.projectId
    ensures r.startDate == f.startDate && r.endDate == f.endDate
    ensures r.role == (if f.role.Some? then f.role.value else a.role)
    ensures r.allocationPercentage ==
      (if f.allocationPercentage.Some? then f.allocationPercentage.value else a.allocationPercentage)
    ensures r.hoursAllocated == (if f.hoursAllocated.Some? then f.hoursAllocated.value else a.hoursAllocated)
    ensures r.hourlyRate == (if f.hourlyRate.Some? then f.hourlyRate.value else a.hourlyRate)
    ensures r.notes == (if f.notes.Some? then f.notes else a.notes)
    ensures SchemaValid(a) && (f.allocationPercentage.Some? ==> 0.0 <= f.allocationPercentage.value <= 100.0) ==>
      SchemaValid(r)
  {
    a.(engineerId := f.engineerId,
       projectId := f.projectId,
       role := f.role.GetOr(a.role),
       allocationPercentage := f.allocationPercentage.GetOr(a.allocationPercentage),
       startDate := f.startDate,
       endDate := f.endDate,
       hoursAllocated := f.hoursAllocated.GetOr(a.hoursAllocated),
       hourlyRate := f.hourlyRate.GetOr(a.hourlyRate),
       notes := if f.notes.Some? then f.notes else a.notes)
  }

  /** True when a record other than the one at `i` holds the pair (the unique index would refuse the update). */
  predicate PairTakenElsewhere(s: seq<Assignment>, i: nat, engineerId: Id, projectId: Id) {
    exists k :: 0 <= k < |s| && k != i && s[k].engineerId == engineerId && s[k].projectId == projectId
  }

  /**
   * `updateAssignment`: the update validators run first (an allocation
   * outside [0, 100] is a 500 whether or not the id exists), then 404 for an
   * unknown id, then a 500 when the new pair belongs to another record;
   * otherwise exactly that record is replaced by its updated version.
   */
  method UpdateAssignment(db: Database, id: Id, fields: AssignmentFields) returns (reply: Reply)
    requires db.Valid()
    modifies db
    ensures db.Valid()
    ensures db.users == old(db.users) && db.projects == old(db.projects) && db.nextId == old(db.nextId)
    ensures fields.allocationPercentage.Some? && !(0.0 <= fields.allocationPercentage.value <= 100.0) ==>
      reply == InternalError && db.assignments == old(db.assignments)
    ensures ((fields.allocationPercentage.Some? ==> 0.0 <= fields.allocationPercentage.value <= 100.0)
             && IndexOf(old(db.assignments), id).None?) ==>
      reply == Reply(404, "Assignment not found") && db.assignments == old(db.assignments)
    ensures (&& IndexOf(old(db.assignments), id).Some?
             && (fields.allocationPercentage.Some? ==> 0.0 <= fields.allocationPercentage.value <= 100.0)
             && PairTakenElsewhere(old(db.assignments), IndexOf(old(db.assignments), id).value,
                                   fields.engineerId, fields.projectId)) ==>
      reply == InternalError
    ensures !reply.Succeeded() ==> db.assignments == old(db.assignments)
    ensures reply.Succeeded() ==>
      && reply == Reply(200, "Assignment updated successfully")
      && IndexOf(old(db.assignments), id).Some?
      && var i := IndexOf(old(db.assignments), id).value;
         && !PairTakenElsewhere(old(db.assignments), i, fields.engineerId, fields.projectId)
         && db.assignments == old(db.assignments)[i := ApplyUpdate(old(db.assignments)[i], fields)]
    ensures (&& IndexOf(old(db.assignments), id).Some?
             && (fields.allocationPercentage.Some? ==> 0.0 <= fields.allocationPercentage.value <= 100.0)
             && !PairTakenElsewhere(old(db.assignments), IndexOf(old(db.assignments), id).value,
                                    fields.engineerId, fields.projectId)) ==>
      reply.Succeeded()
  {
    if fields.allocationPercentage.Some? && !(0.0 <= fields.allocationPercentage.value <= 100.0) {
      return InternalError;
    }
    var found := IndexOf(db.assignments, id);
    if found.None? {
      return Reply(404, "Assignment not found");
    }
    var i := found.value;
    if PairTakenElsewhere(db.assignments, i, fields.engineerId, fields.projectId) {
      return InternalError;
    }
    var updated := ApplyUpdate(db.assignments[i], fields);
    ReplaceKeepsUniqueness(db.assignments, i, updated);
    db.assignments := db.assignments[i := updated];
    reply := Reply(200, "Assignment updated successfully");
  }

  /** `deleteAssignment`: 404 for an unknown id; otherwise exactly that record goes and the rest keep their order. */
  method DeleteAssignment(db: Database, id: Id) returns (reply: Reply)
    requires db.Valid()
    modifies db
    ensures db.Valid()
    ensures db.users == old(db.users) && db.projects == old(db.projects) && db.nextId == old(db.nextId)
    ensures IndexOf(old(db.assignments), id).None? <==> reply == Reply(404, "Assignment not found")
    ensures IndexOf(old(db.assignments), id).None? ==> db.assignments == old(db.assignments)
    ensures IndexOf(old(db.assignments), id).Some? ==>
      && reply == Reply(200, "Assignment deleted successfully")
      && db.assignments == RemoveAt(old(db.assignments), IndexOf(old(db.assignments), id).value)
      && forall a :: a in db.assignments <==> a in old(db.assignments) && a.id != id
  {
    var found := IndexOf(db.assignments, id);
    if found.None? {
      return Reply(404, "Assignment not found");
    }
    var i := found.value;
    RemoveKeepsRecordsValid(db.assignments, i, db.nextId);
    RemoveAtMembers(db.assignments, i);
    db.assignments := RemoveAt(db.assignments, i);
    reply := Reply(200, "Assignment deleted successfully");
  }

  /** `updateHoursWorked`: 404 for an unknown id; otherwise only that record's `hoursWorked` changes. */
  method UpdateHoursWorked(db: Database, id: Id, hoursWorked: real) returns (reply: Reply)
    requires db.Valid()
    modifies db
    ensures db.Valid()
    ensures db.users == old(db.users) && db.projects == old(db.projects) && db.nextId == old(db.nextId)
    ensures IndexOf(old(db.assignments), id).None? <==> reply == Reply(404, "Assignment not found")
    ensures IndexOf(old(db.assignments), id).None? ==> db.assignments == old(db.assignments)
    ensures IndexOf(old(db.assignments), id).Some? ==>
      && reply == Reply(200, "Hours updated successfully")
      && var i := IndexOf(old(db.assignments), id).value;
         db.assignments == old(db.assignments)[i := old(db.assignments)[i].(hoursWorked := hoursWorked)]
  {
    var found := IndexOf(db.assignments, id);
    if found.None? {
      return Reply(404, "Assignment not found");
    }
    var i := found.value;
    var updated := db.assignments[i].(hoursWorked := hoursWorked);
    ReplaceKeepsUniqueness(db.assignments, i, updated);
    db.assignments := db.assignments[i := updated];
    reply := Reply(200, "Hours updated successfully");
  }

  // ------------------------------------------------------------------ reads

  datatype EngineerCapacityReport = EngineerCapacityReport(
    assignments: seq<Assignment>,
    totalAllocation: real,
    availableCapacity: real)

  /**
   * `getEngineerCapacity`: the engineer's active records (in the range only
   * when both bounds are given), their allocation sum, and `100 - total`
   * unclamped, so an over-allocated engineer gets a negative capacity.
   */
  function EngineerCapacity(assignments: seq<Assignment>, engineerId: Id, rangeStart: Option<int>, rangeEnd: Option<int>)
    : (r: EngineerCapacityReport)
    ensures r.assignments == CapacityRecords(assignments, engineerId, rangeStart, rangeEnd)
    ensures forall a :: a in r.assignments <==>
      && a in assignments
      && a.engineerId == engineerId
      && a.status == AssignmentStatus.Active
      && (rangeStart.Some? && rangeEnd.Some? ==> a.startDate <= rangeEnd.value && a.endDate >= rangeStart.value)
    ensures r.totalAllocation == Total(r.assignments, Allocation)
    ensures r.totalAllocation == AllocationOf(assignments, engineerId, rangeStart, rangeEnd)
    ensures r.availableCapacity + r.totalAllocation == 100.0
    ensures r.totalAllocation > 100.0 ==> r.availableCapacity < 0.0
  {
    var found := CapacityRecords(assignments, engineerId, rangeStart, rangeEnd);
    var total := Total(found, Allocation);
    EngineerCapacityReport(found, total, 100.0 - total)
  }

  datatype ResourceAllocation = ResourceAllocation(
    assignments: seq<Assignment>,
    totalEngineers: nat,
    totalAllocation: real,
    totalHoursAllocated: real,
    totalHoursWorked: real)

  /**
   * `getProjectResourceAllocation`: the project's records (none for an
   * unknown project; the handler does not check it exists), their count and
   * the three plain sums.
   */
  function ProjectResourceAllocation(assignments: seq<Assignment>, projectId: Id): (r: ResourceAllocation)
    ensures r.assignments == Find(assignments, [ProjectIs(projectId)])
    ensures forall a :: a in r.assignments <==> a in assignments && a.projectId == projectId
    ensures r.totalEngineers == |r.assignments|
    ensures r.totalAllocation == Total(r.assignments, Allocation)
    ensures r.totalHoursAllocated == Total(r.assignments, HoursAllocated)
    ensures r.totalHoursWorked == Total(r.assignments, HoursWorked)
    ensures (forall a :: a in assignments ==> SchemaValid(a)) ==>
      0.0 <= r.totalAllocation <= 100.0 * r.totalEngineers as real
  {
    var found := Find(assignments, [ProjectIs(projectId)]);
    SingleCriterion(ProjectIs(projectId));
    if forall a :: a in assignments ==> SchemaValid(a) then
      AllocationBounds(found);
      ResourceAllocation(found, |found|, Total(found, Allocation),
                         Total(found, HoursAllocated), Total(found, HoursWorked))
    else
      ResourceAllocation(found, |found|, Total(found, Allocation),
                         Total(found, HoursAllocated), Total(found, HoursWorked))
  }

  // ------------------------------------------- store operations and capacity

  /** The allocation a record contributes to an engineer's capacity figure. */
  function Contribution(a: Assignment, engineerId: Id, rangeStart: Option<int>, rangeEnd: Option<int>): real {
    if Matches(a, CapacityQuery(engineerId, rangeStart, rangeEnd)) then a.allocationPercentage else 0.0
  }

  /** Appending a record adds its contribution, and only that, to every engineer's allocation. */
  lemma AppendAllocation(s: seq<Assignment>, a: Assignment, engineerId: Id, rangeStart: Option<int>, rangeEnd: Option<int>)
    ensures AllocationOf(s + [a], engineerId, rangeStart, rangeEnd)
         == AllocationOf(s, engineerId, rangeStart, rangeEnd) + Contribution(a, engineerId, rangeStart, rangeEnd)
  {
    var q := CapacityQuery(engineerId, rangeStart, rangeEnd);
    FindConcat(s, [a], q);
    assert [a][1..] == [];
    TotalConcat(Find(s, q), Find([a], q), Allocation);
  }

  /** Removing a record takes its contribution, and only that, off every engineer's allocation. */
  lemma RemoveAllocation(s: seq<Assignment>, i: nat, engineerId: Id, rangeStart: Option<int>, rangeEnd: Option<int>)
    requires i < |s|
    ensures AllocationOf(RemoveAt(s, i), engineerId, rangeStart, rangeEnd)
         == AllocationOf(s, engineerId, rangeStart, rangeEnd) - Contribution(s[i], engineerId, rangeStart, rangeEnd)
  {
    var q := CapacityQuery(engineerId, rangeStart, rangeEnd);
    var before, after := s[..i], s[i + 1..];
    assert s == before + [s[i]] + after;
    assert RemoveAt(s, i) == before + after;
    FindConcat(before + [s[i]], after, q);
    FindConcat(before, [s[i]], q);
    FindConcat(before, after, q);
    assert [s[i]][1..] == [];
    TotalConcat(Find(before, q), Find(after, q), Allocation);
    TotalConcat(Find(before, q) + Find([s[i]], q), Find(after, q), Allocation);
    TotalConcat(Find(before, q), Find([s[i]], q), Allocation);
  }

  /**
   * Replacing a record by one the capacity query treats alike (same match,
   * same allocation) leaves every engineer's allocation as it was; recording
   * hours is such a replacement.
   */
  lemma ReplaceKeepsAllocation(s: seq<Assignment>, i: nat, a: Assignment,
                               engineerId: Id, rangeStart: Option<int>, rangeEnd: Option<int>)
    requires i < |s|
    requires Contribution(a, engineerId, rangeStart, rangeEnd) == Contribution(s[i], engineerId, rangeStart, rangeEnd)
    ensures AllocationOf(s[i := a], engineerId, rangeStart, rangeEnd) == AllocationOf(s, engineerId, rangeStart, rangeEnd)
  {
    RemoveAllocation(s, i, engineerId, rangeStart, rangeEnd);
    RemoveAllocation(s[i := a], i, engineerId, rangeStart, rangeEnd);
    assert RemoveAt(s[i := a], i) == RemoveAt(s, i);
  }

  /** `updateHoursWorked` never moves any engineer's allocation figure. */
  lemma HoursUpdateKeepsAllocation(s: seq<Assignment>, i: nat, hoursWorked: real,
                                   engineerId: Id, rangeStart: Option<int>, rangeEnd: Option<int>)
    requires i < |s|
    ensures AllocationOf(s[i := s[i].(hoursWorked := hoursWorked)], engineerId, rangeStart, rangeEnd)
         == AllocationOf(s, engineerId, rangeStart, rangeEnd)
  {
    var a := s[i].(hoursWorked := hoursWorked);
    var q := CapacityQuery(engineerId, rangeStart, rangeEnd);
    assert Matches(a, q) == Matches(s[i], q);
    ReplaceKeepsAllocation(s, i, a, engineerId, rangeStart, rangeEnd);
  }

  /**
   * A successful creation raises the new record's engineer's allocation by
   * the new record's allocation, over any range the record meets.
   */
  lemma CreationRaisesAllocation(s: seq<Assignment>, fields: AssignmentFields, id: Id, requester: Id, now: int,
                                 rangeStart: Option<int>, rangeEnd: Option<int>)
    requires rangeStart.Some? && rangeEnd.Some? ==>
      fields.startDate <= rangeEnd.value && fields.endDate >= rangeStart.value
    ensures var a := NewAssignment(id, fields, requester, now);
      AllocationOf(s + [a], fields.engineerId, rangeStart, rangeEnd)
        == AllocationOf(s, fields.engineerId, rangeStart, rangeEnd) + a.allocationPercentage
  {
    AppendAllocation(s, NewAssignment(id, fields, requester, now), fields.engineerId, rangeStart, rangeEnd);
  }
}
