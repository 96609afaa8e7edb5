/**
 * The figures of the dashboard handlers: the utilisation line of the
 * statistics endpoint, project analytics, engineer analytics and the
 * per-engineer resource capacity overview with its fleet summary. The
 * collections are the query results the handlers read, given as inputs.
 */
module DashboardController {
  import opened Wrappers
  import opened Domain
  import opened AssignmentModel
  import opened Capacity
  import opened Seqs

  // ---------------------------------------------------------------- counting

  /** `keys.reduce((acc, k) => { acc[k] = (acc[k] || 0) + 1; return acc }, {})`. */
  function Tally<K(==,!new)>(keys: seq<K>): (m: map<K, nat>)
    ensures forall k :: k in m <==> k in keys
    ensures forall k :: k in m ==> m[k] == multiset(keys)[k]
  {
    if keys == [] then map[]
    else
      var prefix := keys[..|keys| - 1];
      var k := keys[|keys| - 1];
      assert keys == prefix + [k];
      var acc := Tally(prefix);
      acc[k := (if k in acc then acc[k] else 0) + 1]
  }

  /** How often a key was counted; an absent key counts zero. */
  function CountOf<K>(m: map<K, nat>, k: K): nat {
    if k in m then m[k] else 0
  }

  function RolesOf(s: seq<Assignment>): (r: seq<AssignmentRole>)
    ensures |r| == |s| && forall i :: 0 <= i < |s| ==> r[i] == s[i].role
  {
    seq(|s|, i requires 0 <= i < |s| => s[i].role)
  }

  /** Every role is one of the four, so the four multiplicities add up to the length. */
  lemma {:induction false} FourRolesCover(rs: seq<AssignmentRole>)
    ensures multiset(rs)[Lead] + multiset(rs)[Developer] + multiset(rs)[Tester] + multiset(rs)[Analyst] == |rs|
  {
    if rs != [] {
      var prefix, last := rs[..|rs| - 1], rs[|rs| - 1];
      assert rs == prefix + [last];
      assert multiset(rs) == multiset(prefix) + multiset{last};
      FourRolesCover(prefix);
      match last
      case Lead => assert multiset(rs)[Lead] == multiset(prefix)[Lead] + 1;
      case Developer => assert multiset(rs)[Developer] == multiset(prefix)[Developer] + 1;
      case Tester => assert multiset(rs)[Tester] == multiset(prefix)[Tester] + 1;
      case Analyst => assert multiset(rs)[Analyst] == multiset(prefix)[Analyst] + 1;
    }
  }

  /** `roleDistribution`: its counts add up to the number of assignments counted. */
  lemma RoleDistributionSums(s: seq<Assignment>)
    ensures var d := Tally(RolesOf(s));
      CountOf(d, Lead) + CountOf(d, Developer) + CountOf(d, Tester) + CountOf(d, Analyst) == |s|
  {
    var rs := RolesOf(s);
    var d := Tally(rs);
    forall k ensures CountOf(d, k) == multiset(rs)[k] {
      if k !in d {
        assert k !in rs;
      }
    }
    FourRolesCover(rs);
  }

  // ------------------------------------------------------ getDashboardStats

  /** The role test of the engineer query. */
  predicate IsEngineerUser(u: User) {
    IsEngineerRole(u.role)
  }

  /**
   * `UserModel.find({ role: { $in: ['engineer', 'team_lead'] } })`: the
   * engineer users in collection order, which is `Filter` by the role test.
   */
  function EngineersOf(users: seq<User>): (r: seq<User>)
    ensures |r| <= |users|
    ensures forall u :: u in r <==> u in users && IsEngineerRole(u.role)
    ensures r == Filter(users, IsEngineerUser)
  {
    if users == [] then []
    else (if IsEngineerRole(users[0].role) then [users[0]] else []) + EngineersOf(users[1..])
  }

  /**
   * The statistics endpoint's `averageUtilization`: every active assignment's
   * allocation, whoever holds it, over the engineer count floored at 1.
   */
  function StatsAverageUtilization(assignments: seq<Assignment>, totalEngineers: nat): (avg: real)
    ensures var denominator := if totalEngineers > 1 then totalEngineers else 1;
      avg * denominator as real == Total(Find(assignments, [StatusIs(AssignmentStatus.Active)]), Allocation)
    ensures (forall a :: a in assignments ==> SchemaValid(a)) ==> avg >= 0.0
  {
    var active := Find(assignments, [StatusIs(AssignmentStatus.Active)]);
    var denominator := if totalEngineers > 1 then totalEngineers else 1;
    if forall a :: a in assignments ==> SchemaValid(a) then
      AllocationBounds(active);
      Total(active, Allocation) / denominator as real
    else
      Total(active, Allocation) / denominator as real
  }

  // ---------------------------------------------------- getProjectAnalytics

  /** `progressPercentage`: hours worked as a percentage of hours allocated, 0 when none are allocated. */
  function ProgressPercentage(workedHours: real, allocatedHours: real): (p: real)
    ensures allocatedHours > 0.0 ==> p * allocatedHours == workedHours * 100.0
    ensures allocatedHours <= 0.0 ==> p == 0.0
    ensures allocatedHours > 0.0 && workedHours >= 0.0 ==> p >= 0.0
    ensures allocatedHours > 0.0 && workedHours <= allocatedHours ==> p <= 100.0
  {
    if allocatedHours > 0.0 then (workedHours / allocatedHours) * 100.0 else 0.0
  }

  /**
   * `timelineProgress`: the elapsed share of the project's duration, in
   * percent, clamped into [0, 100]. A zero-length project divides by zero:
   * the quotient is an infinity, clamped to 0 before the date and to 100
   * after it, and NaN at the date itself, which the reply carries as `null`
   * (here `None`). Dates in the wrong order give a clamped but meaningless figure.
   */
  function TimelineProgress(startDate: int, endDate: int, now: int): (t: Option<real>)
    ensures t.None? <==> startDate == endDate == now
    ensures t.Some? ==> 0.0 <= t.value <= 100.0
    ensures startDate <= endDate && now < startDate ==> t == Some(0.0)
    ensures startDate <= endDate && now > endDate ==> t == Some(100.0)
    ensures startDate < endDate && startDate <= now <= endDate ==>
      t.Some? && t.value * (endDate - startDate) as real == (now - startDate) as real * 100.0
  {
    var total := (endDate - startDate) as real;
    var elapsed := (now - startDate) as real;
    if total == 0.0 then
      if elapsed > 0.0 then Some(100.0) else if elapsed < 0.0 then Some(0.0) else None
    else
      var ratio := (elapsed / total) * 100.0;
      assert total > 0.0 && elapsed <= 0.0 ==> ratio <= 0.0;
      assert total > 0.0 && elapsed >= total ==> ratio >= 100.0 by {
        if total > 0.0 && elapsed >= total {
          assert elapsed / total >= 1.0;
        }
      }
      assert ratio * total == elapsed * 100.0;
      var atLeastZero := if ratio > 0.0 then ratio else 0.0;
      Some(if atLeastZero < 100.0 then atLeastZero else 100.0)
  }

  datatype ProjectAnalytics = ProjectAnalytics(
    totalEngineers: nat,
    totalAllocation: real,
    totalHoursAllocated: real,
    totalHoursWorked: real,
    progressPercentage: real,
    timelineProgress: Option<real>,
    roleDistribution: map<AssignmentRole, nat>)

  /** The analytics over a project's records: counts, sums, the two progress figures and the role tally. */
  function AnalyticsOver(found: seq<Assignment>, startDate: int, endDate: int, now: int): (x: ProjectAnalytics)
    ensures x.totalEngineers == |found|
    ensures x.totalAllocation == Total(found, Allocation)
    ensures x.totalHoursAllocated == Total(found, HoursAllocated)
    ensures x.totalHoursWorked == Total(found, HoursWorked)
    ensures x.totalHoursAllocated <= 0.0 ==> x.progressPercentage == 0.0
    ensures x.totalHoursAllocated > 0.0 ==>
      x.progressPercentage * x.totalHoursAllocated == x.totalHoursWorked * 100.0
    ensures x.timelineProgress == TimelineProgress(startDate, endDate, now)
    ensures x.roleDistribution == Tally(RolesOf(found))
    ensures CountOf(x.roleDistribution, Lead) + CountOf(x.roleDistribution, Developer)
      + CountOf(x.roleDistribution, Tester) + CountOf(x.roleDistribution, Analyst) == x.totalEngineers
  {
    var allocatedHours := Total(found, HoursAllocated);
    var workedHours := Total(found, HoursWorked);
    var progress := ProgressPercentage(workedHours, allocatedHours);
    var timeline := TimelineProgress(startDate, endDate, now);
    var roles := Tally(RolesOf(found));
    RoleDistributionSums(found);
    ProjectAnalytics(|found|, Total(found, Allocation), allocatedHours, workedHours, progress, timeline, roles)
  }

  /** `getProjectAnalytics`: 404 for an unknown project, else the analytics over exactly the project's records. */
  function ProjectAnalyticsOf(projects: map<Id, Project>, assignments: seq<Assignment>, projectId: Id, now: int)
    : (r: Outcome<ProjectAnalytics>)
    ensures projectId !in projects <==> r == Failure(Reply(404, "Project not found"))
    ensures projectId in projects ==> r == Success(AnalyticsOver(Find(assignments, [ProjectIs(projectId)]),
      projects[projectId].startDate, projects[projectId].endDate, now))
  {
    if projectId !in projects then Failure(Reply(404, "Project not found"))
    else
      var project := projects[projectId];
      var found := Find(assignments, [ProjectIs(projectId)]);
      Success(AnalyticsOver(found, project.startDate, project.endDate, now))
  }

  // --------------------------------------------------- getEngineerAnalytics

  datatype EngineerAnalytics = EngineerAnalytics(
    totalProjects: nat,
    activeProjects: nat,
    totalHoursWorked: real,
    currentAllocation: real,
    projectStatusDistribution: map<ProjectStatus, nat>,
    roleDistribution: map<AssignmentRole, nat>,
    recentAssignments: seq<Assignment>)

  /** Every record's populated project exists (otherwise reading its status throws). */
  predicate ProjectsExist(s: seq<Assignment>, projects: map<Id, Project>) {
    forall a :: a in s ==> a.projectId in projects
  }

  function ProjectStatusesOf(s: seq<Assignment>, projects: map<Id, Project>): (r: seq<ProjectStatus>)
    requires ProjectsExist(s, projects)
    ensures |r| == |s| && forall i :: 0 <= i < |s| ==> r[i] == projects[s[i].projectId].status
  {
    seq(|s|, i requires 0 <= i < |s| => projects[s[i].projectId].status)
  }

  /**
   * `getEngineerAnalytics`: 404 for an unknown user; a 500 when one of the
   * engineer's records points at a deleted project; else the figures, with
   * only the assignments that started on or after `sixMonthsAgo` listed.
   */
  function EngineerAnalyticsOf(
    users: map<Id, User>, projects: map<Id, Project>, assignments: seq<Assignment>,
    engineerId: Id, sixMonthsAgo: int)
    : (r: Outcome<EngineerAnalytics>)
    ensures engineerId !in users ==> r == Failure(Reply(404, "Engineer not found"))
    ensures engineerId in users ==>
      (r.Success? <==> ProjectsExist(Find(assignments, [EngineerIs(engineerId)]), projects))
    ensures r.Failure? && engineerId in users ==> r.reply == InternalError
    ensures r.Success? ==>
      var x := r.value;
      && x.totalProjects == |Find(assignments, [EngineerIs(engineerId)])|
      && x.activeProjects <= x.totalProjects
      && x.activeProjects == |CapacityRecords(assignments, engineerId, None, None)|
      && x.currentAllocation == AllocationOf(assignments, engineerId, None, None)
      && x.totalHoursWorked == Total(Find(assignments, [EngineerIs(engineerId)]), HoursWorked)
      && x.roleDistribution == Tally(RolesOf(Find(assignments, [EngineerIs(engineerId)])))
      && ProjectsExist(Find(assignments, [EngineerIs(engineerId)]), projects)
      && x.projectStatusDistribution
         == Tally(ProjectStatusesOf(Find(assignments, [EngineerIs(engineerId)]), projects))
      && x.recentAssignments
         == Find(Find(assignments, [EngineerIs(engineerId)]), [StartsOnOrAfter(sixMonthsAgo)])
      && (forall a :: a in x.recentAssignments <==>
            a in assignments && a.engineerId == engineerId && a.startDate >= sixMonthsAgo)
  {
    if engineerId !in users then Failure(Reply(404, "Engineer not found"))
    else
      var found := Find(assignments, [EngineerIs(engineerId)]);
      if !ProjectsExist(found, projects) then Failure(InternalError)
      else
        var active := Find(found, [StatusIs(AssignmentStatus.Active)]);
        var recent := Find(found, [StartsOnOrAfter(sixMonthsAgo)]);
        EngineerFilters(assignments, engineerId, sixMonthsAgo);
        Success(EngineerAnalytics(
          |found|,
          |active|,
          Total(found, HoursWorked),
          Total(active, Allocation),
          Tally(ProjectStatusesOf(found, projects)),
          Tally(RolesOf(found)),
          recent))
  }

  // ---------------------------------------------------- getResourceCapacity

  /** One line of a capacity row's assignment list, read from the populated project. */
  datatype AssignmentDetail = AssignmentDetail(
    projectName: string,
    projectStatus: ProjectStatus,
    allocation: real,
    role: AssignmentRole)

  datatype CapacityRow = CapacityRow(
    engineer: User,
    totalAllocation: real,
    availableCapacity: real,
    assignments: seq<AssignmentDetail>)

  datatype CapacitySummary = CapacitySummary(
    totalEngineers: nat,
    averageUtilization: real,
    underutilizedEngineers: nat,
    overutilizedEngineers: nat)

  datatype CapacityReport = CapacityReport(rows: seq<CapacityRow>, summary: CapacitySummary)

  /** The assignment list of a row; None when a record's project was deleted (reading its name throws). */
  function DetailsOf(s: seq<Assignment>, projects: map<Id, Project>): (r: Option<seq<AssignmentDetail>>)
    ensures r.Some? <==> ProjectsExist(s, projects)
    ensures r.Some? ==> |r.value| == |s|
    ensures r.Some? ==> forall i :: 0 <= i < |s| ==>
      r.value[i] == AssignmentDetail(projects[s[i].projectId].name, projects[s[i].projectId].status,
                                     s[i].allocationPercentage, s[i].role)
  {
    if s == [] then Some([])
    else if s[0].projectId !in projects then None
    else match DetailsOf(s[1..], projects)
      case None => None
      case Some(rest) =>
        var p := projects[s[0].projectId];
        Some([AssignmentDetail(p.name, p.status, s[0].allocationPercentage, s[0].role)] + rest)
  }

  /** One engineer's row: allocation over active records in the range, capacity clamped at 0. */
  function CapacityRowOf(
    engineer: User, assignments: seq<Assignment>, projects: map<Id, Project>,
    rangeStart: Option<int>, rangeEnd: Option<int>)
    : (r: Option<CapacityRow>)
    ensures var found := CapacityRecords(assignments, engineer.id, rangeStart, rangeEnd);
      && (r.Some? <==> ProjectsExist(found, projects))
      && (r.Some? ==>
            && r.value.engineer == engineer
            && r.value.totalAllocation == AllocationOf(assignments, engineer.id, rangeStart, rangeEnd)
            && r.value.availableCapacity >= 0.0
            && r.value.availableCapacity == ClampedCapacity(r.value.totalAllocation)
            && |r.value.assignments| == |found|
            && r.value.assignments == DetailsOf(found, projects).value)
  {
    var found := CapacityRecords(assignments, engineer.id, rangeStart, rangeEnd);
    match DetailsOf(found, projects)
    case None => None
    case Some(details) =>
      var total := AllocationOf(assignments, engineer.id, rangeStart, rangeEnd);
      Some(CapacityRow(engineer, total, ClampedCapacity(total), details))
  }

  /** Every engineer's capacity records point at existing projects, so no row throws. */
  predicate RecordsResolve(
    engineers: seq<User>, assignments: seq<Assignment>, projects: map<Id, Project>,
    rangeStart: Option<int>, rangeEnd: Option<int>)
  {
    forall i :: 0 <= i < |engineers| ==>
      ProjectsExist(CapacityRecords(assignments, engineers[i].id, rangeStart, rangeEnd), projects)
  }

  /** `Promise.all(engineers.map(...))`, taken in order: one row per engineer, or a failure if any row fails. */
  function CapacityRowsOf(
    engineers: seq<User>, assignments: seq<Assignment>, projects: map<Id, Project>,
    rangeStart: Option<int>, rangeEnd: Option<int>)
    : (r: Option<seq<CapacityRow>>)
    ensures r.Some? <==> forall i :: 0 <= i < |engineers| ==>
      CapacityRowOf(engineers[i], assignments, projects, rangeStart, rangeEnd).Some?
    ensures r.Some? <==> RecordsResolve(engineers, assignments, projects, rangeStart, rangeEnd)
    ensures r.Some? ==> |r.value| == |engineers|
    ensures r.Some? ==> forall i :: 0 <= i < |engineers| ==>
      r.value[i] == CapacityRowOf(engineers[i], assignments, projects, rangeStart, rangeEnd).value
  {
    if engineers == [] then Some([])
    else match CapacityRowOf(engineers[0], assignments, projects, rangeStart, rangeEnd)
      case None => None
      case Some(row) =>
        match CapacityRowsOf(engineers[1..], assignments, projects, rangeStart, rangeEnd)
        case None => None
        case Some(rest) => Some([row] + rest)
  }

  function SumTotals(rows: seq<CapacityRow>): real {
    if rows == [] then 0.0 else rows[0].totalAllocation + SumTotals(rows[1..])
  }

  /** `capacityData.filter(d => d.availableCapacity > 50).length`: the rows with more than 50 free. */
  function CountUnderutilized(rows: seq<CapacityRow>): (n: nat)
    ensures n == |set i | 0 <= i < |rows| && rows[i].availableCapacity > 50.0|
    ensures n <= |rows|
  {
    if rows == [] then 0
    else
      var prefix, last := rows[..|rows| - 1], |rows| - 1;
      assert (set i | 0 <= i < |rows| && rows[i].availableCapacity > 50.0)
          == (set i | 0 <= i < |prefix| && prefix[i].availableCapacity > 50.0)
             + (if rows[last].availableCapacity > 50.0 then {last} else {});
      CountUnderutilized(prefix) + (if rows[last].availableCapacity > 50.0 then 1 else 0)
  }

  /** `capacityData.filter(d => d.totalAllocation > 100).length`: the rows allocated beyond 100%. */
  function CountOverutilized(rows: seq<CapacityRow>): (n: nat)
    ensures n == |set i | 0 <= i < |rows| && rows[i].totalAllocation > 100.0|
    ensures n <= |rows|
  {
    if rows == [] then 0
    else
      var prefix, last := rows[..|rows| - 1], |rows| - 1;
      assert (set i | 0 <= i < |rows| && rows[i].totalAllocation > 100.0)
          == (set i | 0 <= i < |prefix| && prefix[i].totalAllocation > 100.0)
             + (if rows[last].totalAllocation > 100.0 then {last} else {});
      CountOverutilized(prefix) + (if rows[last].totalAllocation > 100.0 then 1 else 0)
  }

  /** The fleet summary: average utilisation (0 for no engineers) and the two counts. */
  function Summarize(rows: seq<CapacityRow>): (s: CapacitySummary)
    ensures s.totalEngineers == |rows|
    ensures s.underutilizedEngineers == |set i | 0 <= i < |rows| && rows[i].availableCapacity > 50.0|
    ensures s.overutilizedEngineers == |set i | 0 <= i < |rows| && rows[i].totalAllocation > 100.0|
    ensures s.underutilizedEngineers <= s.totalEngineers
    ensures s.overutilizedEngineers <= s.totalEngineers
    ensures rows == [] ==> s == CapacitySummary(0, 0.0, 0, 0)
    ensures rows != [] ==> s.averageUtilization * |rows| as real == SumTotals(rows)
  {
    var n := |rows|;
    var average := if n > 0 then SumTotals(rows) / n as real else 0.0;
    CapacitySummary(n, average, CountUnderutilized(rows), CountOverutilized(rows))
  }

  predicate RowsClamped(rows: seq<CapacityRow>) {
    forall i :: 0 <= i < |rows| ==> rows[i].availableCapacity == ClampedCapacity(rows[i].totalAllocation)
  }

  /**
   * No engineer is both under- and over-utilised: more than 50 free means
   * less than 50 allocated. The two counts together never exceed the fleet.
   */
  lemma {:induction false} UnderAndOverAreDisjoint(rows: seq<CapacityRow>)
    requires RowsClamped(rows)
    ensures CountUnderutilized(rows) + CountOverutilized(rows) <= |rows|
  {
    if rows != [] {
      var prefix := rows[..|rows| - 1];
      assert RowsClamped(prefix) by {
        forall i | 0 <= i < |prefix| ensures prefix[i] == rows[i] { }
      }
      UnderAndOverAreDisjoint(prefix);
    }
  }

  /** `getResourceCapacity`: one clamped row per engineer user, and the fleet summary over the rows. */
  function ResourceCapacity(
    users: seq<User>, assignments: seq<Assignment>, projects: map<Id, Project>,
    rangeStart: Option<int>, rangeEnd: Option<int>)
    : (r: Outcome<CapacityReport>)
    ensures r.Failure? ==> r.reply == InternalError
    ensures r.Success? <==> RecordsResolve(EngineersOf(users), assignments, projects, rangeStart, rangeEnd)
    ensures r.Success? ==>
      var engineers := EngineersOf(users);
      && |r.value.rows| == |engineers|
      && r.value.summary == Summarize(r.value.rows)
      && r.value.summary.underutilizedEngineers + r.value.summary.overutilizedEngineers <= |engineers|
      && (forall i :: 0 <= i < |engineers| ==>
            && r.value.rows[i].engineer == engineers[i]
            && r.value.rows[i].totalAllocation == AllocationOf(assignments, engineers[i].id, rangeStart, rangeEnd)
            && r.value.rows[i].availableCapacity == ClampedCapacity(r.value.rows[i].totalAllocation)
            && r.value.rows[i].assignments
               == DetailsOf(CapacityRecords(assignments, engineers[i].id, rangeStart, rangeEnd), projects).value)
  {
    var engineers := EngineersOf(users);
    match CapacityRowsOf(engineers, assignments, projects, rangeStart, rangeEnd)
    case None => Failure(InternalError)
    case Some(rows) =>
      UnderAndOverAreDisjoint(rows);
      Success(CapacityReport(rows, Summarize(rows)))
  }
}
