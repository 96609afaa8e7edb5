/**
 * Capacity accounting shared by the dashboard, assignment and user handlers:
 * the conjunctive filters the handlers send to the assignment collection,
 * the `reduce` sums over the records found, and the two capacity formulas.
 */
module Capacity {
  import opened Wrappers
  import opened Domain
  import opened AssignmentModel

  /** One condition of a find() query on the assignment collection. */
  datatype Criterion =
    | EngineerIs(engineerId: Id)
    | ProjectIs(projectId: Id)
    | StatusIs(status: AssignmentStatus)
    | StartsOnOrBefore(date: int)   // { startDate: { $lte: date } }
    | EndsOnOrAfter(date: int)      // { endDate: { $gte: date } }
    | StartsOnOrAfter(date: int)    // startDate >= date, an in-memory filter

  /** A query is the conjunction of its criteria; `[]` matches every record. */
  type Query = seq<Criterion>

  predicate Satisfies(a: Assignment, c: Criterion) {
    match c
    case EngineerIs(e) => a.engineerId == e
    case ProjectIs(p) => a.projectId == p
    case StatusIs(st) => a.status == st
    case StartsOnOrBefore(d) => a.startDate <= d
    case EndsOnOrAfter(d) => a.endDate >= d
    case StartsOnOrAfter(d) => a.startDate >= d
  }

  predicate Matches(a: Assignment, q: Query) {
    forall i :: 0 <= i < |q| ==> Satisfies(a, q[i])
  }

  /** A one-criterion query matches exactly the records that satisfy the criterion. */
  lemma SingleCriterion(c: Criterion)
    ensures forall a :: Matches(a, [c]) <==> Satisfies(a, c)
  {
    forall a ensures Matches(a, [c]) <==> Satisfies(a, c) {
      assert [c][0] == c;
    }
  }

  /** `find(query)` (or `filter`): the matching records, in collection order. */
  function Find(s: seq<Assignment>, q: Query): (r: seq<Assignment>)
    ensures |r| <= |s|
    ensures forall a :: a in r <==> a in s && Matches(a, q)
  {
    if s == [] then []
    else
      (if Matches(s[0], q) then [s[0]] else []) + Find(s[1..], q)
  }

  /** The numeric fields the handlers sum. */
  datatype Quantity = Allocation | HoursAllocated | HoursWorked

  function Amount(a: Assignment, q: Quantity): real {
    match q
    case Allocation => a.allocationPercentage
    case HoursAllocated => a.hoursAllocated
    case HoursWorked => a.hoursWorked
  }

  /** `records.reduce((sum, a) => sum + a.<field>, 0)`. */
  function Total(s: seq<Assignment>, q: Quantity): real {
    if s == [] then 0.0 else Amount(s[0], q) + Total(s[1..], q)
  }

  lemma {:induction false} TotalConcat(s: seq<Assignment>, t: seq<Assignment>, q: Quantity)
    ensures Total(s + t, q) == Total(s, q) + Total(t, q)
  {
    if s == [] {
      assert s + t == t;
    } else {
      assert (s + t)[1..] == s[1..] + t;
      TotalConcat(s[1..], t, q);
    }
  }

  lemma {:induction false} FindConcat(s: seq<Assignment>, t: seq<Assignment>, q: Query)
    ensures Find(s + t, q) == Find(s, q) + Find(t, q)
  {
    if s == [] {
      assert s + t == t;
    } else {
      assert (s + t)[1..] == s[1..] + t;
      FindConcat(s[1..], t, q);
    }
  }

  /**
   * A record that the query does not match never changes a filtered sum:
   * removing it from the collection leaves the result as it was.
   */
  lemma NonMatchingRecordIsIrrelevant(s: seq<Assignment>, x: Assignment, t: seq<Assignment>, query: Query, q: Quantity)
    requires !Matches(x, query)
    ensures Total(Find(s + [x] + t, query), q) == Total(Find(s + t, query), q)
  {
    var none := Find([x], query);
    assert none == [] by {
      assert [x][1..] == [];
    }
    FindConcat(s + [x], t, query);
    FindConcat(s, [x], query);
    FindConcat(s, t, query);
    assert Find(s + [x], query) == Find(s, query);
  }

  /** A sum over records whose fields are all non-negative is non-negative. */
  lemma {:induction false} TotalNonNegative(s: seq<Assignment>, q: Quantity)
    requires forall a :: a in s ==> Amount(a, q) >= 0.0
    ensures Total(s, q) >= 0.0
  {
    if s != [] {
      assert s[0] in s;
      TotalNonNegative(s[1..], q);
    }
  }

  /** Records that pass the schema's bounds sum to between 0 and 100 per record. */
  lemma {:induction false} AllocationBounds(s: seq<Assignment>)
    requires forall a :: a in s ==> SchemaValid(a)
    ensures 0.0 <= Total(s, Allocation) <= 100.0 * |s| as real
  {
    if s != [] {
      assert s[0] in s;
      AllocationBounds(s[1..]);
    }
  }

  /**
   * The date part of a capacity query: applied only when both bounds were
   * supplied, and then inclusive at both ends (the record's interval meets
   * the range).
   */
  function DateFilter(rangeStart: Option<int>, rangeEnd: Option<int>): (r: Query)
    ensures forall a :: Matches(a, r) <==>
      (rangeStart.Some? && rangeEnd.Some? ==>
        a.startDate <= rangeEnd.value && a.endDate >= rangeStart.value)
  {
    if rangeStart.Some? && rangeEnd.Some? then
      var r := [StartsOnOrBefore(rangeEnd.value), EndsOnOrAfter(rangeStart.value)];
      assert forall a :: Matches(a, r) <==> Satisfies(a, r[0]) && Satisfies(a, r[1]);
      r
    else []
  }

  /** The query every capacity figure is computed from: the engineer's active records, optionally in the range. */
  function CapacityQuery(engineerId: Id, rangeStart: Option<int>, rangeEnd: Option<int>): (r: Query)
    ensures forall a :: Matches(a, r) <==>
      && a.engineerId == engineerId
      && a.status == AssignmentStatus.Active
      && (rangeStart.Some? && rangeEnd.Some? ==>
            a.startDate <= rangeEnd.value && a.endDate >= rangeStart.value)
  {
    var d := DateFilter(rangeStart, rangeEnd);
    var r := [EngineerIs(engineerId), StatusIs(AssignmentStatus.Active)] + d;
    assert forall a :: Matches(a, r) <==> Satisfies(a, r[0]) && Satisfies(a, r[1]) && Matches(a, d) by {
      forall a ensures Matches(a, r) <==> Satisfies(a, r[0]) && Satisfies(a, r[1]) && Matches(a, d) {
        if Satisfies(a, r[0]) && Satisfies(a, r[1]) && Matches(a, d) {
          forall i | 0 <= i < |r| ensures Satisfies(a, r[i]) {
            if i >= 2 { assert r[i] == d[i - 2]; }
          }
        }
        if Matches(a, r) {
          forall i | 0 <= i < |d| ensures Satisfies(a, d[i]) {
            assert r[i + 2] == d[i];
          }
        }
      }
    }
    r
  }

  /** The records an engineer's allocation is summed over. */
  function CapacityRecords(s: seq<Assignment>, engineerId: Id, rangeStart: Option<int>, rangeEnd: Option<int>): seq<Assignment> {
    Find(s, CapacityQuery(engineerId, rangeStart, rangeEnd))
  }

  /** An engineer's total allocation: the sum of `allocationPercentage` over the capacity records. */
  function AllocationOf(s: seq<Assignment>, engineerId: Id, rangeStart: Option<int>, rangeEnd: Option<int>): (total: real)
    ensures (forall a :: a in s ==> SchemaValid(a)) ==>
      0.0 <= total <= 100.0 * |CapacityRecords(s, engineerId, rangeStart, rangeEnd)| as real
  {
    var found := CapacityRecords(s, engineerId, rangeStart, rangeEnd);
    if forall a :: a in s ==> SchemaValid(a) then
      AllocationBounds(found);
      Total(found, Allocation)
    else
      Total(found, Allocation)
  }

  /** The dashboard's capacity: `Math.max(100 - total, 0)`, never negative. */
  function ClampedCapacity(total: real): (c: real)
    ensures c >= 0.0 && c >= 100.0 - total
    ensures c == 0.0 || c == 100.0 - total
    ensures total <= 100.0 ==> c == 100.0 - total
    ensures total >= 100.0 ==> c == 0.0
  {
    if 100.0 - total > 0.0 then 100.0 - total else 0.0
  }

  /** Filtering twice is filtering once by both queries. */
  lemma {:induction false} FindFind(s: seq<Assignment>, q1: Query, q2: Query)
    ensures Find(Find(s, q1), q2) == Find(s, q1 + q2)
  {
    assert forall a :: Matches(a, q1 + q2) <==> Matches(a, q1) && Matches(a, q2) by {
      forall a ensures Matches(a, q1 + q2) <==> Matches(a, q1) && Matches(a, q2) {
        if Matches(a, q1) && Matches(a, q2) {
          forall i | 0 <= i < |q1 + q2| ensures Satisfies(a, (q1 + q2)[i]) {
            if i >= |q1| { assert (q1 + q2)[i] == q2[i - |q1|]; }
          }
        }
        if Matches(a, q1 + q2) {
          forall i | 0 <= i < |q2| ensures Satisfies(a, q2[i]) {
            assert (q1 + q2)[i + |q1|] == q2[i];
          }
          forall i | 0 <= i < |q1| ensures Satisfies(a, q1[i]) {
            assert (q1 + q2)[i] == q1[i];
          }
        }
      }
    }
    if s != [] {
      var head1 := if Matches(s[0], q1) then [s[0]] else [];
      assert Find(s, q1) == head1 + Find(s[1..], q1);
      FindConcat(head1, Find(s[1..], q1), q2);
      FindFind(s[1..], q1, q2);
      if Matches(s[0], q1) {
        assert [s[0]][1..] == [];
      }
    }
  }

  /** The engineer's active records are the capacity records without a date range; the recent ones start after the cut-off. */
  lemma EngineerFilters(s: seq<Assignment>, engineerId: Id, cutoff: int)
    ensures var found := Find(s, [EngineerIs(engineerId)]);
      && Find(found, [StatusIs(AssignmentStatus.Active)]) == CapacityRecords(s, engineerId, None, None)
      && (forall a :: a in found <==> a in s && a.engineerId == engineerId)
      && (forall a :: a in Find(found, [StartsOnOrAfter(cutoff)]) <==>
            a in s && a.engineerId == engineerId && a.startDate >= cutoff)
  {
    FindFind(s, [EngineerIs(engineerId)], [StatusIs(AssignmentStatus.Active)]);
    assert [EngineerIs(engineerId)] + [StatusIs(AssignmentStatus.Active)] == CapacityQuery(engineerId, None, None);
    SingleCriterion(EngineerIs(engineerId));
    SingleCriterion(StartsOnOrAfter(cutoff));
  }
}
