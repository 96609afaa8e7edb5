/**
 * The project handlers that write: creation under a qualified manager,
 * deletion, and the push onto / filter of a project's embedded
 * `assignedEngineers` list.
 */
module ProjectController {
  import opened Wrappers
  import opened Seqs
  import opened Text
  import opened Domain
  import opened Persistence

  // ----------------------------------------------------------- createProject

  /** The body of a project creation; `None` is a key the body does not carry. */
  datatype ProjectFields = ProjectFields(
    name: string,
    description: string,
    startDate: int,
    endDate: int,
    priority: Option<Priority>,
    budget: Option<real>,
    technologies: Option<seq<string>>,
    projectManager: Id)

  /**
   * The document `new ProjectModel({...})` builds: the name trimmed (the
   * schema path says `trim: true`), schema defaults for absent keys, no
   * engineers yet.
   */
  function NewProject(id: Id, f: ProjectFields, now: int): (p: Project)
    ensures p.id == id && p.name == Trim(f.name) && p.description == f.description
    ensures p.startDate == f.startDate && p.endDate == f.endDate && p.projectManager == f.projectManager
    ensures p.status == Planning && p.assignedEngineers == []
    ensures p.priority == (if f.priority.Some? then f.priority.value else Medium)
    ensures p.budget == (if f.budget.Some? then f.budget.value else 0.0)
    ensures p.technologies == (if f.technologies.Some? then f.technologies.value else [])
    ensures p.createdAt == now && p.updatedAt == now
  {
    Project(id, Trim(f.name), f.description, Planning, f.startDate, f.endDate,
            f.priority.GetOr(Medium), [], f.projectManager, f.budget.GetOr(0.0),
            f.technologies.GetOr([]), now, now)
  }

  /**
   * `createProject`: 404 when the named manager does not exist, 403 when
   * that user is neither admin nor project manager, 500 when the save finds
   * the trimmed name or the description empty; otherwise one new project is
   * stored and nothing else changes.
   */
  method CreateProject(db: Database, fields: ProjectFields, now: int) returns (reply: Reply)
    requires db.Valid()
    modifies db
    ensures db.Valid()
    ensures db.users == old(db.users) && db.assignments == old(db.assignments)
    ensures fields.projectManager !in old(db.users) ==> reply == Reply(404, "Project manager not found")
    ensures fields.projectManager in old(db.users) && !IsManagerRole(old(db.users)[fields.projectManager].role) ==>
      reply == Reply(403, "User is not authorized to be a project manager")
    ensures (&& fields.projectManager in old(db.users) && IsManagerRole(old(db.users)[fields.projectManager].role)
             && (Trim(fields.name) == "" || fields.description == "")) ==>
      reply == InternalError
    ensures !reply.Succeeded() ==> db.projects == old(db.projects) && db.nextId == old(db.nextId)
    ensures reply.Succeeded() <==>
      && fields.projectManager in old(db.users) && IsManagerRole(old(db.users)[fields.projectManager].role)
      && Trim(fields.name) != "" && fields.description != ""
    ensures reply.Succeeded() ==>
      && reply == Reply(201, "Project created successfully")
      && old(db.nextId) !in old(db.projects)
      && db.projects == old(db.projects)[old(db.nextId) := NewProject(old(db.nextId), fields, now)]
  {
    if fields.projectManager !in db.users {
      return Reply(404, "Project manager not found");
    }
    var manager := db.users[fields.projectManager];
    if !IsManagerRole(manager.role) {
      return Reply(403, "User is not authorized to be a project manager");
    }
    if Trim(fields.name) == "" || fields.description == "" {
      return InternalError;
    }
    var id := db.NewId();
    var project := NewProject(id, fields, now);
    AddProjectKeepsFiled(db.projects, db.nextId, project);
    db.projects := db.projects[id := project];
    reply := Reply(201, "Project created successfully");
  }

  // ----------------------------------------------------------- deleteProject

  /** `deleteProject`: 404 for an unknown id, else that project alone goes; assignment records stay. */
  method DeleteProject(db: Database, id: Id) returns (reply: Reply)
    requires db.Valid()
    modifies db
    ensures db.Valid()
    ensures db.users == old(db.users) && db.assignments == old(db.assignments) && db.nextId == old(db.nextId)
    ensures id !in old(db.projects) <==> reply == Reply(404, "Project not found")
    ensures id !in old(db.projects) ==> db.projects == old(db.projects)
    ensures id in old(db.projects) ==>
      reply == Reply(200, "Project deleted successfully") && db.projects == old(db.projects) - {id}
  {
    if id !in db.projects {
      return Reply(404, "Project not found");
    }
    db.projects := db.projects - {id};
    reply := Reply(200, "Project deleted successfully");
  }

  // ---------------------------------------------------------- assignEngineer

  /** The body of an engineer assignment; `None` is a key the body does not carry. */
  datatype EngineerFields = EngineerFields(
    engineerId: Id,
    role: Option<AssignmentRole>,
    allocationPercentage: Option<real>,
    startDate: int,
    endDate: int)

  /** The pushed sub-document, with the sub-schema's defaults for absent keys. */
  function NewEntry(f: EngineerFields): (e: EngineerEntry)
    ensures e.engineerId == f.engineerId && e.startDate == f.startDate && e.endDate == f.endDate
    ensures e.role == (if f.role.Some? then f.role.value else Developer)
    ensures e.allocationPercentage == (if f.allocationPercentage.Some? then f.allocationPercentage.value else 100.0)
  {
    EngineerEntry(f.engineerId, f.role.GetOr(Developer), f.allocationPercentage.GetOr(100.0), f.startDate, f.endDate)
  }

  /** Pushing an engineer the list does not hold keeps every engineer listed at most once. */
  lemma AppendKeepsDistinctEngineers(entries: seq<EngineerEntry>, e: EngineerEntry)
    requires DistinctEngineers(entries)
    requires !Lists(entries, e.engineerId)
    ensures DistinctEngineers(entries + [e])
  {
    var t := entries + [e];
    forall i, j | 0 <= i < |t| && 0 <= j < |t| && i != j
      ensures t[i].engineerId != t[j].engineerId
    {
      if i == |entries| {
        assert t[j] == entries[j];
      } else if j == |entries| {
        assert t[i] == entries[i];
      } else {
        assert t[i] == entries[i] && t[j] == entries[j];
      }
    }
  }

  /**
   * `assignEngineer`: 404 for an unknown project or user, 403 when the user
   * is not an engineer or team lead, 400 when the list already holds the
   * engineer, 500 when the save rejects the allocation; otherwise exactly one
   * entry is pushed at the end and the save stamps `updatedAt`.
   */
  method AssignEngineer(db: Database, projectId: Id, fields: EngineerFields, now: int) returns (reply: Reply)
    requires db.Valid()
    modifies db
    ensures db.Valid()
    ensures db.users == old(db.users) && db.assignments == old(db.assignments) && db.nextId == old(db.nextId)
    ensures projectId !in old(db.projects) ==> reply == Reply(404, "Project not found")
    ensures projectId in old(db.projects) && fields.engineerId !in old(db.users) ==>
      reply == Reply(404, "Engineer not found")
    ensures (&& projectId in old(db.projects) && fields.engineerId in old(db.users)
             && !IsEngineerRole(old(db.users)[fields.engineerId].role)) ==>
      reply == Reply(403, "User is not authorized to be assigned as engineer")
    ensures (&& projectId in old(db.projects) && fields.engineerId in old(db.users)
             && IsEngineerRole(old(db.users)[fields.engineerId].role)
             && Lists(old(db.projects)[projectId].assignedEngineers, fields.engineerId)) ==>
      reply == Reply(400, "Engineer is already assigned to this project")
    ensures reply.Succeeded() <==>
      && projectId in old(db.projects) && fields.engineerId in old(db.users)
      && IsEngineerRole(old(db.users)[fields.engineerId].role)
      && !Lists(old(db.projects)[projectId].assignedEngineers, fields.engineerId)
      && EntryValid(NewEntry(fields))
    ensures !reply.Succeeded() ==> db.projects == old(db.projects)
    ensures !reply.Succeeded() && reply.code == 500 ==> reply == InternalError
    ensures reply.Succeeded() ==>
      && reply == Reply(200, "Engineer assigned successfully")
      && var p := old(db.projects)[projectId];
         db.projects == old(db.projects)[projectId :=
           p.(assignedEngineers := p.assignedEngineers + [NewEntry(fields)], updatedAt := now)]
  {
    if projectId !in db.projects {
      return Reply(404, "Project not found");
    }
    var project := db.projects[projectId];
    if fields.engineerId !in db.users {
      return Reply(404, "Engineer not found");
    }
    var engineer := db.users[fields.engineerId];
    if !IsEngineerRole(engineer.role) {
      return Reply(403, "User is not authorized to be assigned as engineer");
    }
    if Lists(project.assignedEngineers, fields.engineerId) {
      return Reply(400, "Engineer is already assigned to this project");
    }
    var entry := NewEntry(fields);
    if !EntryValid(entry) {
      return InternalError;
    }
    AppendKeepsDistinctEngineers(project.assignedEngineers, entry);
    project := project.(assignedEngineers := project.assignedEngineers + [entry]);
    project := project.(updatedAt := now);
    db.projects := db.projects[projectId := project];
    reply := Reply(200, "Engineer assigned successfully");
  }

  // ---------------------------------------------------------- removeEngineer

  /** `assignedEngineers.filter(a => a.engineerId !== engineerId)`. */
  function WithoutEngineer(entries: seq<EngineerEntry>, engineerId: Id): (r: seq<EngineerEntry>)
    ensures |r| <= |entries|
    ensures forall e :: e in r <==> e in entries && e.engineerId != engineerId
    ensures !Lists(r, engineerId)
  {
    var r := Filter(entries, (e: EngineerEntry) => e.engineerId != engineerId);
    assert forall i :: 0 <= i < |r| ==> r[i] in r;
    r
  }

  /** The filter keeps the order of the surviving entries: it distributes over concatenation. */
  lemma WithoutEngineerKeepsOrder(s: seq<EngineerEntry>, t: seq<EngineerEntry>, engineerId: Id)
    ensures WithoutEngineer(s + t, engineerId) == WithoutEngineer(s, engineerId) + WithoutEngineer(t, engineerId)
  {
    FilterConcat(s, t, (e: EngineerEntry) => e.engineerId != engineerId);
  }

  /** Removing an engineer the list does not hold leaves it exactly as it was. */
  lemma WithoutAbsentEngineer(entries: seq<EngineerEntry>, engineerId: Id)
    requires !Lists(entries, engineerId)
    ensures WithoutEngineer(entries, engineerId) == entries
  {
    forall e | e in entries ensures e.engineerId != engineerId {
      var i :| 0 <= i < |entries| && entries[i] == e;
    }
    FilterAll(entries, (e: EngineerEntry) => e.engineerId != engineerId);
  }

  /** Removing the same engineer twice is removing it once. */
  lemma WithoutEngineerIdempotent(entries: seq<EngineerEntry>, engineerId: Id)
    ensures WithoutEngineer(WithoutEngineer(entries, engineerId), engineerId) == WithoutEngineer(entries, engineerId)
  {
    WithoutAbsentEngineer(WithoutEngineer(entries, engineerId), engineerId);
  }

  /** Removing an engineer undoes assigning it: the list is back to what it was before the push. */
  lemma RemoveUndoesAssign(entries: seq<EngineerEntry>, e: EngineerEntry)
    requires !Lists(entries, e.engineerId)
    ensures WithoutEngineer(entries + [e], e.engineerId) == entries
  {
    WithoutEngineerKeepsOrder(entries, [e], e.engineerId);
    WithoutAbsentEngineer(entries, e.engineerId);
    assert WithoutEngineer([e], e.engineerId) == [];
  }

  /** A filtered list still lists every engineer at most once. */
  lemma {:induction false} WithoutEngineerKeepsDistinct(entries: seq<EngineerEntry>, engineerId: Id)
    requires DistinctEngineers(entries)
    ensures DistinctEngineers(WithoutEngineer(entries, engineerId))
  {
    if entries != [] {
      var p := (e: EngineerEntry) => e.engineerId != engineerId;
      var rest := entries[1..];
      assert DistinctEngineers(rest) by {
        forall i, j | 0 <= i < |rest| && 0 <= j < |rest| && i != j
          ensures rest[i].engineerId != rest[j].engineerId
        {
          assert rest[i] == entries[i + 1] && rest[j] == entries[j + 1];
        }
      }
      WithoutEngineerKeepsDistinct(rest, engineerId);
      var tail := WithoutEngineer(rest, engineerId);
      assert !Lists(rest, entries[0].engineerId) by {
        forall k | 0 <= k < |rest| ensures rest[k].engineerId != entries[0].engineerId {
          assert rest[k] == entries[k + 1];
        }
      }
      assert forall k :: 0 <= k < |tail| ==> tail[k] in rest;
      var head := if p(entries[0]) then [entries[0]] else [];
      assert WithoutEngineer(entries, engineerId) == head + tail;
      var r := head + tail;
      forall i, j | 0 <= i < |r| && 0 <= j < |r| && i != j
        ensures r[i].engineerId != r[j].engineerId
      {
        if head != [] && (i == 0 || j == 0) {
          var k := if i == 0 then j - 1 else i - 1;
          assert tail[k] in rest;
        } else if head != [] {
          assert r[i] == tail[i - 1] && r[j] == tail[j - 1];
        }
      }
    }
  }

  /**
   * `removeEngineer`: 404 for an unknown project; otherwise every entry for
   * the engineer goes, the others keep their order, and the save stamps
   * `updatedAt`. An engineer not on the list is no error.
   */
  method RemoveEngineer(db: Database, projectId: Id, engineerId: Id, now: int) returns (reply: Reply)
    requires db.Valid()
    modifies db
    ensures db.Valid()
    ensures db.users == old(db.users) && db.assignments == old(db.assignments) && db.nextId == old(db.nextId)
    ensures projectId !in old(db.projects) <==> reply == Reply(404, "Project not found")
    ensures projectId !in old(db.projects) ==> db.projects == old(db.projects)
    ensures projectId in old(db.projects) ==>
      && reply == Reply(200, "Engineer removed successfully")
      && var p := old(db.projects)[projectId];
         db.projects == old(db.projects)[projectId :=
           p.(assignedEngineers := WithoutEngineer(p.assignedEngineers, engineerId), updatedAt := now)]
  {
    if projectId !in db.projects {
      return Reply(404, "Project not found");
    }
    var project := db.projects[projectId];
    WithoutEngineerKeepsDistinct(project.assignedEngineers, engineerId);
    project := project.(assignedEngineers := WithoutEngineer(project.assignedEngineers, engineerId));
    project := project.(updatedAt := now);
    db.projects := db.projects[projectId := project];
    reply := Reply(200, "Engineer removed successfully");
  }
}
