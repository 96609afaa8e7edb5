/**
 * The assignment document: its fields, the defaults and bounds its schema
 * declares, the unique (engineerId, projectId) index and the pre-save hook.
 */
module AssignmentModel {
  import opened Wrappers
  import opened Domain

  datatype Assignment = Assignment(
    id: Id,
    engineerId: Id,
    projectId: Id,
    role: AssignmentRole,
    allocationPercentage: real,
    startDate: int,
    endDate: int,
    status: AssignmentStatus,
    hoursAllocated: real,
    hoursWorked: real,
    hourlyRate: real,
    notes: Option<string>,
    assignedBy: Id,
    createdAt: int,
    updatedAt: int)

  const DefaultRole: AssignmentRole := Developer
  const DefaultAllocation: real := 100.0
  const DefaultStatus: AssignmentStatus := AssignmentStatus.Active

  /**
   * The fields a handler passes when it constructs an assignment document;
   * `None` is a field the request body left out.
   */
  datatype AssignmentFields = AssignmentFields(
    engineerId: Id,
    projectId: Id,
    role: Option<AssignmentRole>,
    allocationPercentage: Option<real>,
    startDate: int,
    endDate: int,
    hoursAllocated: Option<real>,
    hourlyRate: Option<real>,
    notes: Option<string>)

  /**
   * The schema's own validator: allocationPercentage lies in [0, 100]. The
   * role and status enums hold by construction of the Dafny types; the
   * hour and rate fields carry no bound in the schema.
   */
  predicate SchemaValid(a: Assignment) {
    0.0 <= a.allocationPercentage <= 100.0
  }

  /**
   * The document that `new AssignmentModel({...})` builds: the supplied fields,
   * the schema defaults for the absent ones, `createdAt` and `updatedAt` at
   * construction time.
   */
  function NewAssignment(id: Id, f: AssignmentFields, assignedBy: Id, now: int): (a: Assignment)
    ensures a.id == id && a.assignedBy == assignedBy
    ensures a.engineerId == f.engineerId && a.projectId == f.projectId
    ensures a.startDate == f.startDate && a.endDate == f.endDate && a.notes == f.notes
    ensures a.status == AssignmentStatus.Active && a.hoursWorked == 0.0
    ensures f.role.Some? ==> a.role == f.role.value
    ensures f.role.None? ==> a.role == Developer
    ensures f.allocationPercentage.Some? ==> a.allocationPercentage == f.allocationPercentage.value
    ensures f.allocationPercentage.None? ==> a.allocationPercentage == 100.0 && SchemaValid(a)
    ensures f.hoursAllocated.Some? ==> a.hoursAllocated == f.hoursAllocated.value
    ensures f.hoursAllocated.None? ==> a.hoursAllocated == 0.0
    ensures f.hourlyRate.Some? ==> a.hourlyRate == f.hourlyRate.value
    ensures f.hourlyRate.None? ==> a.hourlyRate == 0.0
    ensures a.createdAt == now && a.updatedAt == now
  {
    Assignment(
      id, f.engineerId, f.projectId,
      f.role.GetOr(DefaultRole),
      f.allocationPercentage.GetOr(DefaultAllocation),
      f.startDate, f.endDate,
      DefaultStatus,
      f.hoursAllocated.GetOr(0.0),
      0.0,
      f.hourlyRate.GetOr(0.0),
      f.notes,
      assignedBy, now, now)
  }

  /** The pre('save') hook: saving stamps `updatedAt` with the save time and touches nothing else. */
  function PreSave(a: Assignment, now: int): (r: Assignment)
    ensures r.updatedAt == now
    ensures r.(updatedAt := a.updatedAt) == a
  {
    a.(updatedAt := now)
  }

  /** True when some record links engineer `e` to project `p`. */
  predicate HasPair(s: seq<Assignment>, e: Id, p: Id) {
    exists i :: 0 <= i < |s| && s[i].engineerId == e && s[i].projectId == p
  }

  /** The unique compound index on (engineerId, projectId): no two records share the pair. */
  predicate UniquePairs(s: seq<Assignment>) {
    forall i, j :: 0 <= i < |s| && 0 <= j < |s| && i != j ==>
      s[i].engineerId != s[j].engineerId || s[i].projectId != s[j].projectId
  }

  /** Document ids are unique within the collection. */
  predicate DistinctIds(s: seq<Assignment>) {
    forall i, j :: 0 <= i < |s| && 0 <= j < |s| && i != j ==> s[i].id != s[j].id
  }

  /** `findById`: the position of the record with this id, if there is one. */
  function IndexOf(s: seq<Assignment>, id: Id): (r: Option<nat>)
    ensures r.Some? ==> r.value < |s| && s[r.value].id == id
    ensures r.None? <==> forall i :: 0 <= i < |s| ==> s[i].id != id
  {
    if s == [] then None
    else if s[0].id == id then Some(0)
    else match IndexOf(s[1..], id)
      case Some(k) => Some(k + 1)
      case None => None
  }

  /** The collection without the record at position `i`, the others in their order. */
  function RemoveAt(s: seq<Assignment>, i: nat): (r: seq<Assignment>)
    requires i < |s|
    ensures |r| == |s| - 1
    ensures forall k :: 0 <= k < i ==> r[k] == s[k]
    ensures forall k :: i <= k < |r| ==> r[k] == s[k + 1]
  {
    s[..i] + s[i + 1..]
  }

  /** Inserting a record whose pair is absent keeps the index unique. */
  lemma AppendKeepsUniquePairs(s: seq<Assignment>, a: Assignment)
    requires UniquePairs(s)
    requires !HasPair(s, a.engineerId, a.projectId)
    ensures UniquePairs(s + [a])
  {
    var t := s + [a];
    forall i, j | 0 <= i < |t| && 0 <= j < |t| && i != j
      ensures t[i].engineerId != t[j].engineerId || t[i].projectId != t[j].projectId
    {
      if i == |s| {
        assert t[j] == s[j];
      } else if j == |s| {
        assert t[i] == s[i];
      } else {
        assert t[i] == s[i] && t[j] == s[j];
      }
    }
  }

  /** Removing a record keeps both the pair index and the ids unique. */
  lemma RemoveAtKeepsUniqueness(s: seq<Assignment>, i: nat)
    requires i < |s|
    requires UniquePairs(s) && DistinctIds(s)
    ensures UniquePairs(RemoveAt(s, i)) && DistinctIds(RemoveAt(s, i))
  {
    var r := RemoveAt(s, i);
    forall x, y | 0 <= x < |r| && 0 <= y < |r| && x != y
      ensures r[x].engineerId != r[y].engineerId || r[x].projectId != r[y].projectId
      ensures r[x].id != r[y].id
    {
      var x' := if x < i then x else x + 1;
      var y' := if y < i then y else y + 1;
      assert r[x] == s[x'] && r[y] == s[y'];
    }
  }

  /** With unique ids, removing the record at `i` removes exactly the records carrying its id. */
  lemma RemoveAtMembers(s: seq<Assignment>, i: nat)
    requires i < |s| && DistinctIds(s)
    ensures forall a :: a in RemoveAt(s, i) <==> a in s && a.id != s[i].id
  {
    var r := RemoveAt(s, i);
    forall a ensures a in r <==> a in s && a.id != s[i].id {
      if a in s && a.id != s[i].id {
        var k :| 0 <= k < |s| && s[k] == a;
        assert k != i;
        assert a == r[if k < i then k else k - 1];
      }
    }
  }

  /** Replacing one record by one with the same id and a pair no other record holds keeps both unique. */
  lemma ReplaceKeepsUniqueness(s: seq<Assignment>, i: nat, a: Assignment)
    requires i < |s|
    requires UniquePairs(s) && DistinctIds(s)
    requires a.id == s[i].id
    requires forall k :: 0 <= k < |s| && k != i ==>
      s[k].engineerId != a.engineerId || s[k].projectId != a.projectId
    ensures UniquePairs(s[i := a]) && DistinctIds(s[i := a])
  {
  }
}
