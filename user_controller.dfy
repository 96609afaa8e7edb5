/**
 * The user handlers: the guarded deletion, the profile update that never
 * touches the password, the per-user dashboard totals and the search for
 * engineers with spare capacity.
 */
module UserController {
  import opened Wrappers
  import opened Seqs
  import opened Domain
  import opened AssignmentModel
  import opened Capacity
  import opened Persistence

  // -------------------------------------------------------------- deleteUser

  /** True when some record assigns this user with status active. */
  predicate HasActiveAssignment(s: seq<Assignment>, userId: Id) {
    exists a :: a in s && a.engineerId == userId && a.status == AssignmentStatus.Active
  }

  /**
   * `deleteUser`: refused with 400 while the user has an active assignment
   * (checked before the user is looked up), 404 for an unknown id, else the
   * user alone is removed; assignment records are left as they are.
   */
  method DeleteUser(db: Database, id: Id) returns (reply: Reply)
    requires db.Valid()
    modifies db
    ensures db.Valid()
    ensures db.projects == old(db.projects) && db.assignments == old(db.assignments) && db.nextId == old(db.nextId)
    ensures HasActiveAssignment(old(db.assignments), id) ==>
      reply == Reply(400, "Cannot delete user with active assignments") && db.users == old(db.users)
    ensures !HasActiveAssignment(old(db.assignments), id) && id !in old(db.users) ==>
      reply == Reply(404, "User not found") && db.users == old(db.users)
    ensures reply.Succeeded() <==> !HasActiveAssignment(old(db.assignments), id) && id in old(db.users)
    ensures reply.Succeeded() ==>
      reply == Reply(200, "User deleted successfully") && db.users == old(db.users) - {id}
  {
    var activeAssignments := Find(db.assignments, [EngineerIs(id), StatusIs(AssignmentStatus.Active)]);
    assert forall a :: a in activeAssignments <==>
      a in db.assignments && a.engineerId == id && a.status == AssignmentStatus.Active by {
      assert CapacityQuery(id, None, None) == [EngineerIs(id), StatusIs(AssignmentStatus.Active)];
    }
    if |activeAssignments| > 0 {
      assert activeAssignments[0] in activeAssignments;
      return Reply(400, "Cannot delete user with active assignments");
    }
    if id !in db.users {
      return Reply(404, "User not found");
    }
    db.users := db.users - {id};
    reply := Reply(200, "User deleted successfully");
  }

  // -------------------------------------------------------------- updateUser

  /** The body of a profile update; `None` is a key the body does not carry. */
  datatype UserUpdate = UserUpdate(
    name: Option<string>,
    password: Option<string>,
    role: Option<UserRole>,
    skills: Option<seq<string>>,
    experience: Option<real>,
    hourlyRate: Option<real>,
    availability: Option<Availability>,
    department: Option<string>)

  /** `delete updateData.password`: the key is gone and every other key is kept. */
  function StripPassword(d: UserUpdate): (r: UserUpdate)
    ensures r.password.None?
    ensures r.(password := d.password) == d
  {
    d.(password := None)
  }

  /** The stored user after `findByIdAndUpdate`: every key the body carries replaces the stored field. */
  function ApplyUserUpdate(u: User, d: UserUpdate): (r: User)
    ensures r.id == u.id && r.email == u.email
    ensures r.password == (if d.password.Some? then d.password.value else u.password)
    ensures r.name == (if d.name.Some? then d.name.value else u.name)
    ensures r.role == (if d.role.Some? then d.role.value else u.role)
    ensures r.skills == (if d.skills.Some? then d.skills.value else u.skills)
    ensures r.experience == (if d.experience.Some? then d.experience.value else u.experience)
    ensures r.hourlyRate == (if d.hourlyRate.Some? then d.hourlyRate.value else u.hourlyRate)
    ensures r.availability == (if d.availability.Some? then d.availability.value else u.availability)
    ensures r.department == (if d.department.Some? then d.department.value else u.department)
  {
    u.(name := d.name.GetOr(u.name),
       password := d.password.GetOr(u.password),
       role := d.role.GetOr(u.role),
       skills := d.skills.GetOr(u.skills),
       experience := d.experience.GetOr(u.experience),
       hourlyRate := d.hourlyRate.GetOr(u.hourlyRate),
       availability := d.availability.GetOr(u.availability),
       department := d.department.GetOr(u.department))
  }

  /**
   * `updateUser`: the password key is dropped from the body first, then the
   * stored user (if any) is updated; 404 for an unknown id. Whatever the
   * body says, the stored password stays what it was.
   */
  method UpdateUser(db: Database, id: Id, updateData: UserUpdate) returns (reply: Reply)
    requires db.Valid()
    modifies db
    ensures db.Valid()
    ensures db.projects == old(db.projects) && db.assignments == old(db.assignments) && db.nextId == old(db.nextId)
    ensures id !in old(db.users) <==> reply == Reply(404, "User not found")
    ensures id !in old(db.users) ==> db.users == old(db.users)
    ensures id in old(db.users) ==>
      && reply == Reply(200, "User updated successfully")
      && db.users == old(db.users)[id := ApplyUserUpdate(old(db.users)[id], StripPassword(updateData))]
      && db.users[id].password == old(db.users)[id].password
  {
    var body := updateData;
    body := StripPassword(body);
    if id !in db.users {
      return Reply(404, "User not found");
    }
    db.users := db.users[id := ApplyUserUpdate(db.users[id], body)];
    reply := Reply(200, "User updated successfully");
  }

  // -------------------------------------------------------- getUserDashboard

  /** The dashboard object; `managedProjects` is present only for managers. */
  datatype UserDashboard = UserDashboard(
    user: User,
    assignments: seq<Assignment>,
    managedProjects: Option<set<Id>>,
    totalProjects: nat,
    totalHours: real,
    currentAllocation: real)

  /** `ProjectModel.find({ projectManager: id })`, as the ids of the projects found. */
  function ManagedBy(projects: map<Id, Project>, managerId: Id): (r: set<Id>)
    ensures forall k :: k in r <==> k in projects && projects[k].projectManager == managerId
  {
    set k | k in projects && projects[k].projectManager == managerId
  }

  /**
   * `getUserDashboard`: 404 for an unknown id; otherwise zero defaults,
   * overwritten for engineers and team leads by their assignment count, hours
   * worked and active allocation, and for admins and project managers by the
   * count of the projects they manage.
   */
  method GetUserDashboard(db: Database, id: Id) returns (r: Outcome<UserDashboard>)
    ensures id !in db.users <==> r == Failure(Reply(404, "User not found"))
    ensures r.Success? ==> id in db.users && r.value.user == db.users[id]
    ensures r.Success? && IsEngineerRole(r.value.user.role) ==>
      var x := r.value;
      && x.assignments == Find(db.assignments, [EngineerIs(id)])
      && (forall a :: a in x.assignments <==> a in db.assignments && a.engineerId == id)
      && x.totalProjects == |x.assignments|
      && x.totalHours == Total(x.assignments, HoursWorked)
      && x.currentAllocation == AllocationOf(db.assignments, id, None, None)
      && x.managedProjects.None?
    ensures r.Success? && IsManagerRole(r.value.user.role) ==>
      var x := r.value;
      && x.managedProjects == Some(ManagedBy(db.projects, id))
      && x.totalProjects == |ManagedBy(db.projects, id)|
      && x.assignments == [] && x.totalHours == 0.0 && x.currentAllocation == 0.0
    ensures r.Success? && !IsEngineerRole(r.value.user.role) && !IsManagerRole(r.value.user.role) ==>
      r.value == UserDashboard(db.users[id], [], None, 0, 0.0, 0.0)
  {
    if id !in db.users {
      return Failure(Reply(404, "User not found"));
    }
    var user := db.users[id];
    var data := UserDashboard(user, [], None, 0, 0.0, 0.0);
    if IsEngineerRole(user.role) {
      var found := Find(db.assignments, [EngineerIs(id)]);
      var active := Find(found, [StatusIs(AssignmentStatus.Active)]);
      EngineerFilters(db.assignments, id, 0);
      data := data.(assignments := found);
      data := data.(totalProjects := |found|);
      data := data.(totalHours := Total(found, HoursWorked));
      data := data.(currentAllocation := Total(active, Allocation));
    }
    if IsManagerRole(user.role) {
      var managed := ManagedBy(db.projects, id);
      data := data.(managedProjects := Some(managed));
      data := data.(totalProjects := |managed|);
    }
    r := Success(data);
  }

  // --------------------------------------------------- getAvailableEngineers

  /**
   * The user query: role engineer or team_lead, availability other than
   * unavailable, and, when a skill list is given, at least one skill in it.
   */
  predicate Eligible(u: User, skills: Option<seq<string>>) {
    && IsEngineerRole(u.role)
    && u.availability != Unavailable
    && (skills.Some? ==> exists k :: 0 <= k < |u.skills| && u.skills[k] in skills.value)
  }

  /** One engineer in the answer; the capacity figures are present only when both dates were given. */
  datatype Candidate = Candidate(engineer: User, availableCapacity: Option<real>, currentAllocation: Option<real>)

  /** An engineer with the unclamped capacity `100 - total` over the range. */
  function CandidateFor(u: User, assignments: seq<Assignment>, rangeStart: int, rangeEnd: int): (c: Candidate)
    ensures c.engineer == u
    ensures c.currentAllocation == Some(AllocationOf(assignments, u.id, Some(rangeStart), Some(rangeEnd)))
    ensures c.availableCapacity.Some? && c.availableCapacity.value + c.currentAllocation.value == 100.0
  {
    var total := AllocationOf(assignments, u.id, Some(rangeStart), Some(rangeEnd));
    Candidate(u, Some(100.0 - total), Some(total))
  }

  /** `engineers.map(...)`: every engineer with its capacity over the range, in order. */
  function WithCapacity(engineers: seq<User>, assignments: seq<Assignment>, rangeStart: int, rangeEnd: int)
    : (r: seq<Candidate>)
    ensures |r| == |engineers|
    ensures forall i :: 0 <= i < |r| ==> r[i] == CandidateFor(engineers[i], assignments, rangeStart, rangeEnd)
  {
    if engineers == [] then []
    else [CandidateFor(engineers[0], assignments, rangeStart, rangeEnd)]
         + WithCapacity(engineers[1..], assignments, rangeStart, rangeEnd)
  }

  /** The mapped list holds exactly the candidates built from the engineers. */
  lemma WithCapacityMembers(engineers: seq<User>, assignments: seq<Assignment>, rangeStart: int, rangeEnd: int)
    ensures var r := WithCapacity(engineers, assignments, rangeStart, rangeEnd);
      && (forall c :: c in r ==> c.engineer in engineers && c == CandidateFor(c.engineer, assignments, rangeStart, rangeEnd))
      && (forall u :: u in engineers ==> CandidateFor(u, assignments, rangeStart, rangeEnd) in r)
  {
    var r := WithCapacity(engineers, assignments, rangeStart, rangeEnd);
    forall u | u in engineers ensures CandidateFor(u, assignments, rangeStart, rangeEnd) in r {
      var i :| 0 <= i < |engineers| && engineers[i] == u;
      assert r[i] in r;
    }
  }

  /** The answer without a date range: each engineer, no capacity figures. */
  function Plain(engineers: seq<User>): (r: seq<Candidate>)
    ensures |r| == |engineers|
    ensures forall i :: 0 <= i < |r| ==> r[i] == Candidate(engineers[i], None, None)
  {
    if engineers == [] then [] else [Candidate(engineers[0], None, None)] + Plain(engineers[1..])
  }

  /** The plain list holds exactly the engineers, without figures. */
  lemma PlainMembers(engineers: seq<User>)
    ensures forall c :: c in Plain(engineers) ==> c.engineer in engineers && c == Candidate(c.engineer, None, None)
    ensures forall u :: u in engineers ==> Candidate(u, None, None) in Plain(engineers)
  {
    var r := Plain(engineers);
    forall u | u in engineers ensures Candidate(u, None, None) in r {
      var i :| 0 <= i < |engineers| && engineers[i] == u;
      assert r[i] in r;
    }
  }

  /** The minimum-capacity test; a candidate without a capacity figure never passes. */
  predicate HasCapacity(c: Candidate, minCapacity: int) {
    c.availableCapacity.Some? && c.availableCapacity.value >= minCapacity as real
  }

  /** The minimum-capacity test as the callback handed to `filter`. */
  function AtLeast(minCapacity: int): Candidate -> bool {
    c => HasCapacity(c, minCapacity)
  }

  /** The date-range branch: the mapped list, cut to the minimum capacity when one is given. */
  function RangedCandidates(
    engineers: seq<User>, assignments: seq<Assignment>, rangeStart: int, rangeEnd: int, minCapacity: Option<int>)
    : (r: seq<Candidate>)
    ensures minCapacity.None? ==> r == WithCapacity(engineers, assignments, rangeStart, rangeEnd)
    ensures minCapacity.Some? ==>
      r == Filter(WithCapacity(engineers, assignments, rangeStart, rangeEnd), AtLeast(minCapacity.value))
    ensures forall c :: c in r ==> c.engineer in engineers && c == CandidateFor(c.engineer, assignments, rangeStart, rangeEnd)
    ensures forall c :: c in r && minCapacity.Some? ==> HasCapacity(c, minCapacity.value)
    ensures forall u :: u in engineers ==>
      (CandidateFor(u, assignments, rangeStart, rangeEnd) in r <==>
       (minCapacity.Some? ==> HasCapacity(CandidateFor(u, assignments, rangeStart, rangeEnd), minCapacity.value)))
  {
    var annotated := WithCapacity(engineers, assignments, rangeStart, rangeEnd);
    WithCapacityMembers(engineers, assignments, rangeStart, rangeEnd);
    if minCapacity.Some? then Filter(annotated, AtLeast(minCapacity.value))
    else annotated
  }

  /** The user query as a test on one user. */
  function EligibleUnder(skills: Option<seq<string>>): User -> bool {
    u => Eligible(u, skills)
  }

  /**
   * `getAvailableEngineers`: the eligible users in collection order; with
   * both dates each carries its unclamped capacity over the range, and a
   * minimum capacity then keeps exactly those at or above it. Without both
   * dates the minimum is ignored.
   */
  function AvailableEngineers(
    users: seq<User>, assignments: seq<Assignment>, skills: Option<seq<string>>,
    rangeStart: Option<int>, rangeEnd: Option<int>, minCapacity: Option<int>)
    : (r: seq<Candidate>)
    ensures var engineers := Filter(users, EligibleUnder(skills));
      r == if rangeStart.Some? && rangeEnd.Some?
           then RangedCandidates(engineers, assignments, rangeStart.value, rangeEnd.value, minCapacity)
           else Plain(engineers)
    ensures forall c :: c in r ==> c.engineer in users && Eligible(c.engineer, skills)
    ensures !(rangeStart.Some? && rangeEnd.Some?) ==>
      && (forall c :: c in r ==> c.availableCapacity.None? && c.currentAllocation.None?)
      && (forall u :: u in users && Eligible(u, skills) ==> Candidate(u, None, None) in r)
    ensures rangeStart.Some? && rangeEnd.Some? ==>
      forall c :: c in r ==> c == CandidateFor(c.engineer, assignments, rangeStart.value, rangeEnd.value)
    ensures rangeStart.Some? && rangeEnd.Some? && minCapacity.Some? ==>
      forall c :: c in r ==> HasCapacity(c, minCapacity.value)
    ensures rangeStart.Some? && rangeEnd.Some? ==>
      forall u :: u in users && Eligible(u, skills) ==>
        (CandidateFor(u, assignments, rangeStart.value, rangeEnd.value) in r <==>
         (minCapacity.Some? ==>
            HasCapacity(CandidateFor(u, assignments, rangeStart.value, rangeEnd.value), minCapacity.value)))
  {
    var engineers := Filter(users, EligibleUnder(skills));
    if rangeStart.Some? && rangeEnd.Some? then
      RangedCandidates(engineers, assignments, rangeStart.value, rangeEnd.value, minCapacity)
    else
      PlainMembers(engineers);
      Plain(engineers)
  }
}
