/**
 * Shapes shared by the backend: identifiers, the string enums of the user,
 * project and assignment schemas, the user and project documents, and the
 * outcomes a handler or middleware can produce.
 */
module Domain {
  import opened Wrappers

  /** A document identifier (a Mongo ObjectId); one id space for all collections. */
  type Id = nat

  datatype UserRole = Admin | ProjectManager | TeamLead | Engineer | RegularUser

  datatype Availability = Available | PartiallyAvailable | Unavailable

  /** The role an engineer plays on a project. */
  datatype AssignmentRole = Lead | Developer | Tester | Analyst

  datatype AssignmentStatus = Active | Completed | OnHold | Cancelled

  datatype ProjectStatus = Planning | Active | OnHold | Completed | Cancelled

  datatype Priority = Low | Medium | High | Critical

  /** The string values the schemas accept for an assignment role. */
  function AssignmentRoleName(r: AssignmentRole): string {
    match r
    case Lead => "lead"
    case Developer => "developer"
    case Tester => "tester"
    case Analyst => "analyst"
  }

  /** Reading a request string as an assignment role: only the four enum values are accepted. */
  function ParseAssignmentRole(s: string): (r: Option<AssignmentRole>)
    ensures r.Some? <==> s in ["lead", "developer", "tester", "analyst"]
    ensures r.Some? ==> AssignmentRoleName(r.value) == s
  {
    if s == "lead" then Some(Lead)
    else if s == "developer" then Some(Developer)
    else if s == "tester" then Some(Tester)
    else if s == "analyst" then Some(Analyst)
    else None
  }

  lemma AssignmentRoleRoundTrip(r: AssignmentRole)
    ensures ParseAssignmentRole(AssignmentRoleName(r)) == Some(r)
  {
  }

  function ProjectStatusName(s: ProjectStatus): string {
    match s
    case Planning => "planning"
    case Active => "active"
    case OnHold => "on-hold"
    case Completed => "completed"
    case Cancelled => "cancelled"
  }

  function ParseProjectStatus(s: string): (r: Option<ProjectStatus>)
    ensures r.Some? <==> s in ["planning", "active", "on-hold", "completed", "cancelled"]
    ensures r.Some? ==> ProjectStatusName(r.value) == s
  {
    if s == "planning" then Some(ProjectStatus.Planning)
    else if s == "active" then Some(ProjectStatus.Active)
    else if s == "on-hold" then Some(ProjectStatus.OnHold)
    else if s == "completed" then Some(ProjectStatus.Completed)
    else if s == "cancelled" then Some(ProjectStatus.Cancelled)
    else None
  }

  lemma ProjectStatusRoundTrip(s: ProjectStatus)
    ensures ParseProjectStatus(ProjectStatusName(s)) == Some(s)
  {
  }

  function PriorityName(p: Priority): string {
    match p
    case Low => "low"
    case Medium => "medium"
    case High => "high"
    case Critical => "critical"
  }

  function ParsePriority(s: string): (r: Option<Priority>)
    ensures r.Some? <==> s in ["low", "medium", "high", "critical"]
    ensures r.Some? ==> PriorityName(r.value) == s
  {
    if s == "low" then Some(Low)
    else if s == "medium" then Some(Medium)
    else if s == "high" then Some(High)
    else if s == "critical" then Some(Critical)
    else None
  }

  lemma PriorityRoundTrip(p: Priority)
    ensures ParsePriority(PriorityName(p)) == Some(p)
  {
  }

  /** A user document; `password` is the stored credential hash. */
  datatype User = User(
    id: Id,
    name: string,
    email: string,
    password: string,
    role: UserRole,
    skills: seq<string>,
    experience: real,
    hourlyRate: real,
    availability: Availability,
    department: string)

  /** Users the backend treats as engineers: role engineer or team_lead. */
  predicate IsEngineerRole(r: UserRole) {
    r == Engineer || r == TeamLead
  }

  /** Users who may own a project: role admin or project_manager. */
  predicate IsManagerRole(r: UserRole) {
    r == Admin || r == ProjectManager
  }

  /** One entry of a project's embedded `assignedEngineers` list. */
  datatype EngineerEntry = EngineerEntry(
    engineerId: Id,
    role: AssignmentRole,
    allocationPercentage: real,
    startDate: int,
    endDate: int)

  /** The sub-schema's bound on an embedded entry, checked for every entry whenever the project is saved. */
  predicate EntryValid(e: EngineerEntry) {
    0.0 <= e.allocationPercentage <= 100.0
  }

  /** A project document. */
  datatype Project = Project(
    id: Id,
    name: string,
    description: string,
    status: ProjectStatus,
    startDate: int,
    endDate: int,
    priority: Priority,
    assignedEngineers: seq<EngineerEntry>,
    projectManager: Id,
    budget: real,
    technologies: seq<string>,
    createdAt: int,
    updatedAt: int)

  /** The project schema's required strings: Mongoose's `required` check refuses the empty string. */
  predicate ProjectSchemaValid(p: Project) {
    p.name != "" && p.description != ""
  }

  /** An HTTP status with the message of the JSON envelope. */
  datatype Reply = Reply(code: nat, message: string) {
    predicate Succeeded() {
      200 <= code < 300
    }
  }

  /** Every handler's catch block: an exception thrown by the data layer becomes this reply. */
  const InternalError := Reply(500, "Internal Server Error")

  /** What a middleware does with a request: hand it to the next handler, or answer it. */
  datatype Decision = Next | Deny(reply: Reply)

  /** What a read-only handler answers: its data on success, or an error reply. */
  datatype Outcome<+T> = Success(value: T) | Failure(reply: Reply)
}
