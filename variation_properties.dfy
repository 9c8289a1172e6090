/** What a traffic re-allocation leaves in the variation table. */
module VariationProperties {
  import opened Common
  import opened Entities
  import opened TrafficAllocationRequest
  import opened VariationService

  predicate DistinctAllocationIds(allocations: seq<VariationTraffic>)
  {
    forall i, j :: 0 <= i < j < |allocations| ==> allocations[i].variationId != allocations[j].variationId
  }

  lemma {:induction false} AllocationTotalAppend(a: seq<VariationTraffic>, b: seq<VariationTraffic>)
    ensures AllocationTotal(a + b) == AllocationTotal(a) + AllocationTotal(b)
    decreases |b|
  {
    if b == [] {
      assert a + b == a;
    } else {
      assert (a + b)[..|a + b| - 1] == a + b[..|b| - 1];
      AllocationTotalAppend(a, b[..|b| - 1]);
    }
  }

  lemma {:induction false} LastTrafficAppend(a: seq<VariationTraffic>, b: seq<VariationTraffic>, id: int, dflt: int)
    ensures LastTraffic(a + b, id, dflt) == LastTraffic(b, id, LastTraffic(a, id, dflt))
    decreases |b|
  {
    if b == [] {
      assert a + b == a;
    } else {
      assert (a + b)[..|a + b| - 1] == a + b[..|b| - 1];
      LastTrafficAppend(a, b[..|b| - 1], id, dflt);
    }
  }

  lemma {:induction false} LastTrafficAbsent(b: seq<VariationTraffic>, id: int, dflt: int)
    requires forall i :: 0 <= i < |b| ==> b[i].variationId != id
    ensures LastTraffic(b, id, dflt) == dflt
    decreases |b|
  {
    if b != [] {
      LastTrafficAbsent(b[..|b| - 1], id, dflt);
    }
  }

  /** Dropping an entry that names another variation does not change
      what the loop leaves on `id`. */
  lemma LastTrafficRemove(allocations: seq<VariationTraffic>, p: nat, id: int, dflt: int)
    requires p < |allocations| && allocations[p].variationId != id
    ensures LastTraffic(allocations[..p] + allocations[p + 1..], id, dflt) == LastTraffic(allocations, id, dflt)
  {
    var a, b := allocations[..p], allocations[p + 1..];
    var x := allocations[p];
    assert allocations == (a + [x]) + b;
    LastTrafficAppend(a + [x], b, id, dflt);
    LastTrafficAppend(a, [x], id, dflt);
    LastTrafficAppend(a, b, id, dflt);
    assert LastTraffic([x], id, LastTraffic(a, id, dflt)) == LastTraffic(a, id, dflt) by {
      assert [x][..0] == [];
    }
  }

  /** With distinct ids, the variation named by entry `p` ends with that
      entry's traffic. */
  lemma LastTrafficUnique(allocations: seq<VariationTraffic>, p: nat, dflt: int)
    requires DistinctAllocationIds(allocations)
    requires p < |allocations|
    ensures LastTraffic(allocations, allocations[p].variationId, dflt) == allocations[p].traffic
  {
    var id := allocations[p].variationId;
    var ax, b := allocations[..p + 1], allocations[p + 1..];
    assert allocations == ax + b;
    LastTrafficAppend(ax, b, id, dflt);
    LastTrafficAbsent(b, id, LastTraffic(ax, id, dflt));
  }

  lemma AllocationTotalRemove(allocations: seq<VariationTraffic>, p: nat)
    requires p < |allocations|
    ensures AllocationTotal(allocations) ==
      AllocationTotal(allocations[..p] + allocations[p + 1..]) + allocations[p].traffic
  {
    var a, b := allocations[..p], allocations[p + 1..];
    var x := allocations[p];
    assert allocations == a + ([x] + b);
    AllocationTotalAppend(a, [x] + b);
    AllocationTotalAppend([x], b);
    assert AllocationTotal([x]) == x.traffic by {
      assert [x][..0] == [];
    }
    AllocationTotalAppend(a, b);
  }

  lemma FirstEntryIdPresent(allocations: seq<VariationTraffic>)
    requires allocations != []
    ensures allocations[0].variationId in AllocationIds(allocations)
  {
    assert allocations[0] in allocations;
  }

  lemma ReallocatedPrefix(stored: seq<Variation>, allocations: seq<VariationTraffic>)
    requires stored != []
    ensures Reallocated(stored, allocations)[..|stored| - 1] == Reallocated(stored[..|stored| - 1], allocations)
  {
  }

  /** Dropping entry `p` keeps the request's ids distinct. */
  lemma RemovedEntryKeepsDistinct(allocations: seq<VariationTraffic>, p: nat)
    requires DistinctAllocationIds(allocations) && p < |allocations|
    ensures DistinctAllocationIds(allocations[..p] + allocations[p + 1..])
  {
    var rest := allocations[..p] + allocations[p + 1..];
    forall i, j | 0 <= i < j < |rest|
      ensures rest[i].variationId != rest[j].variationId
    {
      var i' := if i < p then i else i + 1;
      var j' := if j < p then j else j + 1;
      assert rest[i] == allocations[i'] && rest[j] == allocations[j'];
    }
  }

  /** Dropping the entry that names the last variation leaves a request
      that names exactly the other variations. */
  lemma RemovedEntryMatchesFront(stored: seq<Variation>, allocations: seq<VariationTraffic>, p: nat)
    requires DistinctVariationIds(stored) && DistinctAllocationIds(allocations)
    requires AllocationIds(allocations) == VariationIds(stored)
    requires stored != [] && p < |allocations|
    requires allocations[p].variationId == stored[|stored| - 1].id
    ensures AllocationIds(allocations[..p] + allocations[p + 1..]) == VariationIds(stored[..|stored| - 1])
  {
    RestIdsWithinFront(stored, allocations, p);
    FrontIdsWithinRest(stored, allocations, p);
  }

  lemma RestIdsWithinFront(stored: seq<Variation>, allocations: seq<VariationTraffic>, p: nat)
    requires DistinctVariationIds(stored) && DistinctAllocationIds(allocations)
    requires AllocationIds(allocations) == VariationIds(stored)
    requires stored != [] && p < |allocations|
    requires allocations[p].variationId == stored[|stored| - 1].id
    ensures AllocationIds(allocations[..p] + allocations[p + 1..]) <= VariationIds(stored[..|stored| - 1])
  {
    var n := |stored|;
    var rest := allocations[..p] + allocations[p + 1..];
    forall id | id in AllocationIds(rest)
      ensures id in VariationIds(stored[..n - 1])
    {
      var b :| b in rest && b.variationId == id;
      var i :| 0 <= i < |rest| && rest[i] == b;
      var i' := if i < p then i else i + 1;
      assert allocations[i'] == b && i' != p;
      assert id in VariationIds(stored);
      var w :| w in stored && w.id == id;
      var m :| 0 <= m < n && stored[m] == w;
      assert m != n - 1;
      assert stored[..n - 1][m] == w;
    }
  }

  lemma FrontIdsWithinRest(stored: seq<Variation>, allocations: seq<VariationTraffic>, p: nat)
    requires AllocationIds(allocations) == VariationIds(stored)
    requires DistinctVariationIds(stored)
    requires stored != [] && p < |allocations|
    requires allocations[p].variationId == stored[|stored| - 1].id
    ensures VariationIds(stored[..|stored| - 1]) <= AllocationIds(allocations[..p] + allocations[p + 1..])
  {
    var n := |stored|;
    var rest := allocations[..p] + allocations[p + 1..];
    forall id | id in VariationIds(stored[..n - 1])
      ensures id in AllocationIds(rest)
    {
      var w :| w in stored[..n - 1] && w.id == id;
      var m :| 0 <= m < n - 1 && stored[..n - 1][m] == w;
      assert stored[m] == w;
      assert id in AllocationIds(allocations);
      var b :| b in allocations && b.variationId == id;
      var i :| 0 <= i < |allocations| && allocations[i] == b;
      assert i != p;
      var i' := if i < p then i else i - 1;
      assert rest[i'] == b;
    }
  }

  /** When the request names every variation of the experiment exactly
      once, the traffic saved for the experiment adds up to the request's
      total — 100 once the request has passed its validator. */
  lemma {:induction false} ReallocationKeepsTotal(stored: seq<Variation>, allocations: seq<VariationTraffic>)
    requires DistinctVariationIds(stored)
    requires DistinctAllocationIds(allocations)
    requires AllocationIds(allocations) == VariationIds(stored)
    ensures TrafficTotal(Reallocated(stored, allocations)) == AllocationTotal(allocations)
    decreases |stored|
  {
    if stored == [] {
      if allocations != [] {
        FirstEntryIdPresent(allocations);
        assert false;
      }
    } else {
      var n := |stored|;
      var v := stored[n - 1];
      var front := stored[..n - 1];
      assert v.id in VariationIds(stored);
      var a :| a in allocations && a.variationId == v.id;
      var p :| 0 <= p < |allocations| && allocations[p] == a;
      var rest := allocations[..p] + allocations[p + 1..];
      RemovedEntryKeepsDistinct(allocations, p);
      RemovedEntryMatchesFront(stored, allocations, p);
      ReallocationKeepsTotal(front, rest);
      assert Reallocated(front, rest) == Reallocated(front, allocations) by {
        forall m | 0 <= m < |front|
          ensures Reallocated(front, rest)[m] == Reallocated(front, allocations)[m]
        {
          assert stored[m] == front[m];
          LastTrafficRemove(allocations, p, front[m].id, front[m].traffic);
        }
      }
      ReallocatedPrefix(stored, allocations);
      LastTrafficUnique(allocations, p, v.traffic);
      AllocationTotalRemove(allocations, p);
    }
  }

  /** Each request entry, when no other entry names the same variation,
      is what the saved variation carries. */
  lemma RequestedTrafficApplied(stored: seq<Variation>, allocations: seq<VariationTraffic>, i: nat, p: nat)
    requires DistinctAllocationIds(allocations)
    requires i < |stored| && p < |allocations| && allocations[p].variationId == stored[i].id
    ensures Reallocated(stored, allocations)[i].traffic == allocations[p].traffic
  {
    LastTrafficUnique(allocations, p, stored[i].traffic);
  }

  /** A request that names one variation twice passes both checks — its
      total is 100 and its id set is the experiment's — yet the second
      entry overwrites the first and the saved traffic adds up to 50. */
  lemma RepeatedIdLosesTraffic(v1: Variation, v2: Variation)
    requires v1.id == 1 && v2.id == 2
    ensures
      var stored := [v1, v2];
      var allocations := [VariationTraffic(1, 50), VariationTraffic(1, 50), VariationTraffic(2, 0)];
      && ValidateTotalTraffic(allocations).Ok?
      && AllocationIds(allocations) == VariationIds(stored)
      && TrafficTotal(Reallocated(stored, allocations)) == 50
  {
    var stored := [v1, v2];
    var allocations := [VariationTraffic(1, 50), VariationTraffic(1, 50), VariationTraffic(2, 0)];
    assert allocations[..2][..1] == [VariationTraffic(1, 50)];
    assert [VariationTraffic(1, 50)][..0] == [];
    assert AllocationTotal([VariationTraffic(1, 50)]) == 50;
    assert allocations[..2] == [VariationTraffic(1, 50), VariationTraffic(1, 50)];
    assert AllocationTotal(allocations[..2]) == 100;
    assert AllocationTotal(allocations) == 100;
    assert VariationIds(stored) == {1, 2} by {
      assert v1 in stored && v2 in stored;
    }
    assert AllocationIds(allocations) == {1, 2} by {
      assert allocations[0] in allocations && allocations[2] in allocations;
    }
    assert LastTraffic(allocations, 1, v1.traffic) == LastTraffic(allocations[..2], 1, v1.traffic) == 50;
    assert LastTraffic(allocations, 2, v2.traffic) == 0;
    var r := Reallocated(stored, allocations);
    assert r[0].traffic == 50;
    assert r[1].traffic == 0;
    assert r[..1] == [r[0]];
    assert [r[0]][..0] == [];
    assert TrafficTotal(r[..1]) == 50;
  }

  const RepeatedAllocationMessage := "Traffic allocation must name each variation exactly once"

  /** Re-allocation as its validator evidently intends it: besides the
      checks of `UpdateTrafficAllocation`, a request that names a
      variation twice is refused, so an accepted request always leaves
      the experiment's traffic summing to the request's total. */
  function CheckedReallocation(stored: seq<Variation>, allocations: seq<VariationTraffic>): (r: Result<seq<Variation>>)
    requires DistinctVariationIds(stored)
    ensures r.Ok? <==> stored != [] && AllocationIds(allocations) == VariationIds(stored) && DistinctAllocationIds(allocations)
    ensures r.Ok? ==> r.value == Reallocated(stored, allocations)
    ensures r.Ok? ==> TrafficTotal(r.value) == AllocationTotal(allocations)
    ensures r.Ok? && ValidateTotalTraffic(allocations).Ok? ==> TrafficTotal(r.value) == 100
  {
    if stored == [] then Err(Http(NotFound, NoVariationsMessage))
    else if AllocationIds(allocations) != VariationIds(stored) then Err(Http(BadRequest, MissingAllocationMessage))
    else if !DistinctAllocationIds(allocations) then Err(Http(BadRequest, RepeatedAllocationMessage))
    else
      ReallocationKeepsTotal(stored, allocations);
      Ok(Reallocated(stored, allocations))
  }
}
