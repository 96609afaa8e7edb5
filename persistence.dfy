/**
 * The three collections the handlers read and write, as one object whose
 * fields the handlers reassign. Users and projects are keyed by id; the
 * assignment collection keeps its records in insertion order, which is
 * the order `find` returns them in.
 */
module Persistence {
  import opened Domain
  import opened AssignmentModel

  /** No engineer appears twice in a project's embedded list. */
  predicate DistinctEngineers(entries: seq<EngineerEntry>) {
    forall i, j :: 0 <= i < |entries| && 0 <= j < |entries| && i != j ==>
      entries[i].engineerId != entries[j].engineerId
  }

  /** True when the embedded list has an entry for this engineer. */
  predicate Lists(entries: seq<EngineerEntry>, engineerId: Id) {
    exists i :: 0 <= i < |entries| && entries[i].engineerId == engineerId
  }

  /** Users are filed under their own ids, all handed out below `nextId`. */
  predicate UsersFiled(users: map<Id, User>, nextId: Id) {
    forall k :: k in users ==> users[k].id == k && k < nextId
  }

  /**
   * Projects are filed under their own ids, all handed out below `nextId`;
   * each has its required strings, lists no engineer twice, and every
   * listed entry is within the sub-schema's bound.
   */
  predicate ProjectsFiled(projects: map<Id, Project>, nextId: Id) {
    forall k :: k in projects ==>
      && projects[k].id == k && k < nextId
      && DistinctEngineers(projects[k].assignedEngineers)
      && EntriesValid(projects[k].assignedEngineers)
      && ProjectSchemaValid(projects[k])
  }

  /** Every embedded entry passes the sub-schema, as a saved project's entries must. */
  predicate EntriesValid(entries: seq<EngineerEntry>) {
    forall e :: e in entries ==> EntryValid(e)
  }

  /** Assignment records have ids below `nextId`, obey the schema bound, and keep ids and pairs unique. */
  predicate RecordsValid(assignments: seq<Assignment>, nextId: Id) {
    && (forall i :: 0 <= i < |assignments| ==> assignments[i].id < nextId && SchemaValid(assignments[i]))
    && DistinctIds(assignments)
    && UniquePairs(assignments)
  }

  /** Deleting one record keeps the record invariant. */
  lemma RemoveKeepsRecordsValid(s: seq<Assignment>, i: nat, nextId: Id)
    requires i < |s| && RecordsValid(s, nextId)
    ensures RecordsValid(RemoveAt(s, i), nextId)
  {
    RemoveAtKeepsUniqueness(s, i);
  }

  /** Filing a well-formed project under a handed-out id keeps the project invariant. */
  lemma AddProjectKeepsFiled(projects: map<Id, Project>, nextId: Id, p: Project)
    requires ProjectsFiled(projects, nextId)
    requires p.id < nextId && DistinctEngineers(p.assignedEngineers) && EntriesValid(p.assignedEngineers)
    requires ProjectSchemaValid(p)
    ensures ProjectsFiled(projects[p.id := p], nextId)
  {
  }

  class Database {
    var users: map<Id, User>
    var projects: map<Id, Project>
    var assignments: seq<Assignment>
    /** Stands for ObjectId generation: every id handed out so far is below it. */
    var nextId: Id

    /**
     * The store's invariant: documents are filed under their own ids, every id
     * was handed out, the assignment records obey their schema bounds and the
     * unique (engineerId, projectId) index, every project has its required name
     * and description, no project lists an engineer twice, and every listed
     * entry is within the sub-schema's bound.
     */
    ghost predicate Valid()
      reads this
    {
      && UsersFiled(users, nextId)
      && ProjectsFiled(projects, nextId)
      && RecordsValid(assignments, nextId)
    }

    /** An empty database. */
    constructor ()
      ensures Valid()
      ensures users == map[] && projects == map[] && assignments == []
    {
      users := map[];
      projects := map[];
      assignments := [];
      nextId := 0;
    }

    /** Hands out a fresh document id. */
    method NewId() returns (id: Id)
      requires Valid()
      modifies this`nextId
      ensures Valid()
      ensures id == old(nextId) && nextId == id + 1
    {
      id := nextId;
      nextId := nextId + 1;
    }
  }
}
