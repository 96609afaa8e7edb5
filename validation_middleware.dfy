/**
 * The request-body rules checked before the write handlers run. A body is
 * a record of optional keys (`None` is a key the request leaves out); enum
 * keys arrive as strings. A failing body is answered with 400 and the
 * handler is not reached. The validated copy is discarded, so a rule's
 * default never reaches the handler; the handler sees the body as sent.
 */
module ValidationMiddleware {
  import opened Wrappers
  import opened Domain
  import Text
  import opened AssignmentModel
  import ProjectController

  const BadRequest := Reply(400, "Bad Request")

  /**
   * Joi's `string()` refuses the empty string; `min(n)` and `max(n)` bound
   * the JavaScript length, counted in UTF-16 code units.
   */
  predicate StringWithin(s: string, min: nat, max: nat) {
    1 <= Text.JsLength(s) && min <= Text.JsLength(s) <= max
  }

  predicate OptionalAtLeastZero(x: Option<real>) {
    x.Some? ==> x.value >= 0.0
  }

  predicate OptionalPercentage(x: Option<real>) {
    x.Some? ==> 0.0 <= x.value <= 100.0
  }

  /** Both dates present and the end strictly after the start. */
  predicate ProperInterval(startDate: Option<int>, endDate: Option<int>) {
    startDate.Some? && endDate.Some? && endDate.value > startDate.value
  }

  function Gate(ok: bool): (d: Decision)
    ensures d == Next <==> ok
    ensures d.Deny? ==> d.reply == BadRequest
  {
    if ok then Next else Deny(BadRequest)
  }

  // --------------------------------------------------- assignmentValidation

  datatype AssignmentBody = AssignmentBody(
    engineerId: Option<Id>,
    projectId: Option<Id>,
    role: Option<string>,
    allocationPercentage: Option<real>,
    startDate: Option<int>,
    endDate: Option<int>,
    hoursAllocated: Option<real>,
    hourlyRate: Option<real>,
    notes: Option<string>)

  predicate AssignmentBodyValid(b: AssignmentBody) {
    && b.engineerId.Some? && b.projectId.Some?
    && (b.role.Some? ==> ParseAssignmentRole(b.role.value).Some?)
    && OptionalPercentage(b.allocationPercentage)
    && ProperInterval(b.startDate, b.endDate)
    && OptionalAtLeastZero(b.hoursAllocated)
    && OptionalAtLeastZero(b.hourlyRate)
    && (b.notes.Some? ==> StringWithin(b.notes.value, 1, 500))
  }

  /** `assignmentValidation`, used on both creation and update of an assignment. */
  function AssignmentValidation(b: AssignmentBody): (d: Decision)
    ensures d.Deny? ==> d.reply == BadRequest
    ensures d == Next ==> b.engineerId.Some? && b.projectId.Some?
    ensures d == Next ==> b.role.Some? ==> b.role.value in ["lead", "developer", "tester", "analyst"]
    ensures d == Next ==> b.allocationPercentage.Some? ==> 0.0 <= b.allocationPercentage.value <= 100.0
    ensures d == Next ==> b.startDate.Some? && b.endDate.Some? && b.endDate.value > b.startDate.value
    ensures d == Next ==> b.hoursAllocated.Some? ==> b.hoursAllocated.value >= 0.0
    ensures d == Next ==> b.hourlyRate.Some? ==> b.hourlyRate.value >= 0.0
    ensures d == Next ==> b.notes.Some? ==> 1 <= Text.JsLength(b.notes.value) <= 500
    ensures d == Next <==> AssignmentBodyValid(b)
  {
    Gate(AssignmentBodyValid(b))
  }

  /** The fields the handler reads out of a validated body (the role string cast to its enum). */
  function ToAssignmentFields(b: AssignmentBody): (f: AssignmentFields)
    requires AssignmentBodyValid(b)
    ensures f.engineerId == b.engineerId.value && f.projectId == b.projectId.value
    ensures f.startDate == b.startDate.value && f.endDate == b.endDate.value
    ensures f.allocationPercentage == b.allocationPercentage && f.notes == b.notes
    ensures f.hoursAllocated == b.hoursAllocated && f.hourlyRate == b.hourlyRate
    ensures f.role.Some? <==> b.role.Some?
    ensures b.role.Some? ==> AssignmentRoleName(f.role.value) == b.role.value
  {
    AssignmentFields(
      b.engineerId.value, b.projectId.value,
      if b.role.Some? then ParseAssignmentRole(b.role.value) else None,
      b.allocationPercentage, b.startDate.value, b.endDate.value,
      b.hoursAllocated, b.hourlyRate, b.notes)
  }

  /**
   * A body that passes the rule always makes a record the schema accepts,
   * with a proper interval: the 500 on save cannot follow a 400-free request.
   */
  lemma ValidatedAssignmentIsSchemaValid(b: AssignmentBody, id: Id, assignedBy: Id, now: int)
    requires AssignmentValidation(b) == Next
    ensures var a := NewAssignment(id, ToAssignmentFields(b), assignedBy, now);
      SchemaValid(a) && a.endDate > a.startDate && a.hoursAllocated >= 0.0 && a.hourlyRate >= 0.0
  {
  }

  // -------------------------------------------------- hoursWorkedValidation

  /** `hoursWorkedValidation`: the hours are required and not negative. */
  function HoursWorkedValidation(hoursWorked: Option<real>): (d: Decision)
    ensures d.Deny? ==> d.reply == BadRequest
    ensures d == Next <==> hoursWorked.Some? && hoursWorked.value >= 0.0
  {
    Gate(hoursWorked.Some? && hoursWorked.value >= 0.0)
  }

  // ------------------------------------------- engineerAssignmentValidation

  datatype EngineerBody = EngineerBody(
    engineerId: Option<Id>,
    role: Option<string>,
    allocationPercentage: Option<real>,
    startDate: Option<int>,
    endDate: Option<int>)

  predicate EngineerBodyValid(b: EngineerBody) {
    && b.engineerId.Some?
    && (b.role.Some? ==> ParseAssignmentRole(b.role.value).Some?)
    && OptionalPercentage(b.allocationPercentage)
    && ProperInterval(b.startDate, b.endDate)
  }

  /** `engineerAssignmentValidation`, in front of a push onto a project's engineer list. */
  function EngineerAssignmentValidation(b: EngineerBody): (d: Decision)
    ensures d.Deny? ==> d.reply == BadRequest
    ensures d == Next ==> b.engineerId.Some?
    ensures d == Next ==> b.role.Some? ==> b.role.value in ["lead", "developer", "tester", "analyst"]
    ensures d == Next ==> b.allocationPercentage.Some? ==> 0.0 <= b.allocationPercentage.value <= 100.0
    ensures d == Next ==> b.startDate.Some? && b.endDate.Some? && b.endDate.value > b.startDate.value
    ensures d == Next <==> EngineerBodyValid(b)
  {
    Gate(EngineerBodyValid(b))
  }

  function ToEngineerFields(b: EngineerBody): (f: ProjectController.EngineerFields)
    requires EngineerBodyValid(b)
    ensures f.engineerId == b.engineerId.value && f.allocationPercentage == b.allocationPercentage
    ensures f.startDate == b.startDate.value && f.endDate == b.endDate.value
    ensures f.role.Some? <==> b.role.Some?
    ensures b.role.Some? ==> AssignmentRoleName(f.role.value) == b.role.value
  {
    ProjectController.EngineerFields(
      b.engineerId.value,
      if b.role.Some? then ParseAssignmentRole(b.role.value) else None,
      b.allocationPercentage, b.startDate.value, b.endDate.value)
  }

  /** A validated body always gives an entry the project's sub-schema accepts. */
  lemma ValidatedEntryIsValid(b: EngineerBody)
    requires EngineerAssignmentValidation(b) == Next
    ensures var e := ProjectController.NewEntry(ToEngineerFields(b));
      EntryValid(e) && e.endDate > e.startDate
  {
  }

  // ---------------------------------------------------- projectValidation

  datatype ProjectBody = ProjectBody(
    name: Option<string>,
    description: Option<string>,
    startDate: Option<int>,
    endDate: Option<int>,
    priority: Option<string>,
    budget: Option<real>,
    technologies: Option<seq<string>>,
    projectManager: Option<Id>)

  predicate ProjectBodyValid(b: ProjectBody, now: int) {
    && b.name.Some? && StringWithin(b.name.value, 3, 100)
    && b.description.Some? && StringWithin(b.description.value, 10, 1000)
    && b.startDate.Some? && b.startDate.value > now
    && ProperInterval(b.startDate, b.endDate)
    && (b.priority.Some? ==> ParsePriority(b.priority.value).Some?)
    && OptionalAtLeastZero(b.budget)
    && (b.technologies.Some? ==> forall i :: 0 <= i < |b.technologies.value| ==> b.technologies.value[i] != "")
    && b.projectManager.Some?
  }

  /** `projectValidation`: a new project starts after `now` and ends after it starts. */
  function ProjectValidation(b: ProjectBody, now: int): (d: Decision)
    ensures d.Deny? ==> d.reply == BadRequest
    ensures d == Next ==> b.name.Some? && 3 <= Text.JsLength(b.name.value) <= 100
    ensures d == Next ==> b.description.Some? && 10 <= Text.JsLength(b.description.value) <= 1000
    ensures d == Next ==> b.startDate.Some? && b.endDate.Some? && now < b.startDate.value < b.endDate.value
    ensures d == Next ==> b.priority.Some? ==> b.priority.value in ["low", "medium", "high", "critical"]
    ensures d == Next ==> b.budget.Some? ==> b.budget.value >= 0.0
    ensures d == Next ==> b.projectManager.Some?
    ensures d == Next <==> ProjectBodyValid(b, now)
  {
    Gate(ProjectBodyValid(b, now))
  }

  function ToProjectFields(b: ProjectBody, now: int): (f: ProjectController.ProjectFields)
    requires ProjectBodyValid(b, now)
    ensures f.name == b.name.value && f.description == b.description.value
    ensures f.startDate == b.startDate.value && f.endDate == b.endDate.value
    ensures f.projectManager == b.projectManager.value && f.budget == b.budget
    ensures f.technologies == b.technologies
    ensures f.priority.Some? <==> b.priority.Some?
    ensures b.priority.Some? ==> PriorityName(f.priority.value) == b.priority.value
  {
    ProjectController.ProjectFields(
      b.name.value, b.description.value, b.startDate.value, b.endDate.value,
      if b.priority.Some? then ParsePriority(b.priority.value) else None,
      b.budget, b.technologies, b.projectManager.value)
  }

  /** A project created from a validated body has a proper, future timeline and no engineers. */
  lemma ValidatedProjectIsWellFormed(b: ProjectBody, id: Id, now: int)
    requires ProjectValidation(b, now) == Next
    ensures var p := ProjectController.NewProject(id, ToProjectFields(b, now), now);
      now < p.startDate < p.endDate && p.budget >= 0.0 && p.assignedEngineers == [] && p.status == Planning
  {
  }

  /**
   * The rule measures the name before the schema trims it: a name of three
   * spaces passes, yet it is stored empty, so the save refuses it and
   * creation answers 500 instead of 400.
   */
  lemma BlankNamePassesValidation(now: int)
    ensures var b := ProjectBody(Some("   "), Some("Ten chars."), Some(now + 1), Some(now + 2),
                                 None, None, None, Some(0));
      && ProjectValidation(b, now) == Next
      && Text.Trim(ToProjectFields(b, now).name) == ""
  {
  }

  /**
   * Lengths are JavaScript lengths: a name of two characters from above the
   * Basic Multilingual Plane measures 4 and meets the minimum of 3, while a
   * single one measures 2 and does not.
   */
  lemma AstralCharactersCountTwice(now: int)
    ensures ProjectValidation(ProjectBody(Some("\U{1F600}\U{1F600}"), Some("Ten chars."), Some(now + 1), Some(now + 2),
                                          None, None, None, Some(0)), now) == Next
    ensures ProjectValidation(ProjectBody(Some("\U{1F600}"), Some("Ten chars."), Some(now + 1), Some(now + 2),
                                          None, None, None, Some(0)), now) == Deny(BadRequest)
  {
  }

  // ---------------------------------------------- projectUpdateValidation

  datatype ProjectUpdateBody = ProjectUpdateBody(
    name: Option<string>,
    description: Option<string>,
    status: Option<string>,
    startDate: Option<int>,
    endDate: Option<int>,
    priority: Option<string>,
    budget: Option<real>,
    technologies: Option<seq<string>>,
    projectManager: Option<Id>)

  predicate ProjectUpdateBodyValid(b: ProjectUpdateBody) {
    && (b.name.Some? ==> StringWithin(b.name.value, 3, 100))
    && (b.description.Some? ==> StringWithin(b.description.value, 10, 1000))
    && (b.status.Some? ==> ParseProjectStatus(b.status.value).Some?)
    && (b.priority.Some? ==> ParsePriority(b.priority.value).Some?)
    && OptionalAtLeastZero(b.budget)
    && (b.technologies.Some? ==> forall i :: 0 <= i < |b.technologies.value| ==> b.technologies.value[i] != "")
  }

  /** `projectUpdateValidation`: every key optional; the dates are not compared with each other. */
  function ProjectUpdateValidation(b: ProjectUpdateBody): (d: Decision)
    ensures d.Deny? ==> d.reply == BadRequest
    ensures d == Next ==> b.name.Some? ==> 3 <= Text.JsLength(b.name.value) <= 100
    ensures d == Next ==> b.description.Some? ==> 10 <= Text.JsLength(b.description.value) <= 1000
    ensures d == Next ==> b.status.Some? ==>
      b.status.value in ["planning", "active", "on-hold", "completed", "cancelled"]
    ensures d == Next ==> b.priority.Some? ==> b.priority.value in ["low", "medium", "high", "critical"]
    ensures d == Next ==> b.budget.Some? ==> b.budget.value >= 0.0
    ensures d == Next <==> ProjectUpdateBodyValid(b)
  {
    Gate(ProjectUpdateBodyValid(b))
  }

  /** An update may set the end before the start: the rule lets such a body through. */
  lemma UpdateMayInvertTimeline()
    ensures ProjectUpdateValidation(ProjectUpdateBody(None, None, None, Some(10), Some(5), None, None, None, None)) == Next
  {
  }
}
