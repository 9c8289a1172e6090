/** Variations of an experiment: creation with an even traffic split,
    field updates, and re-allocation of the traffic percentages.

    The variation table is reached through a thin repository; here each
    operation takes the rows the repository returns (`stored`, the
    experiment's variations in table order) and returns the rows it
    hands back to the repository for saving. */
module VariationService {
  import opened Common
  import opened Entities
  import opened ExperimentStore
  import opened TrafficAllocationRequest
  import opened VariationUpdateRequest

  datatype VariationCreate = VariationCreate(title: string, js: Option<string>, css: Option<string>)

  datatype VariationResponse = VariationResponse(
    id: int,
    experimentId: int,
    title: string,
    traffic: int,
    js: Option<string>,
    css: Option<string>)

  const VariationNotFound := "Variation not found"
  const NoVariationsMessage := "No variations found for this experiment"
  const MissingAllocationMessage := "Traffic allocation must include all variations belonging to this experiment"

  /** `_mapToResponse` */
  function ToResponse(v: Variation): VariationResponse
  {
    VariationResponse(v.id, v.experimentId, v.title, v.traffic, v.js, v.css)
  }

  // ---------------------------------------------------------------------
  // Even split

  /** The percentage the even split gives to the variation at position
      `i` of `count`: the integer share, plus one for the first
      `100 % count` positions. */
  function EvenShare(count: nat, i: nat): int
    requires count > 0
  {
    100 / count + (if i < 100 % count then 1 else 0)
  }

  /** Sum of the shares of the first `k` positions. */
  function SharesTotal(count: nat, k: nat): int
    requires count > 0
  {
    if k == 0 then 0 else SharesTotal(count, k - 1) + EvenShare(count, k - 1)
  }

  /** `vs` with every traffic replaced by its even share; the other
      fields and the order are kept. */
  function EvenlyDistributed(vs: seq<Variation>): seq<Variation>
  {
    seq(|vs|, i requires 0 <= i < |vs| => vs[i].(traffic := EvenShare(|vs|, i)))
  }

  lemma {:induction false} SharesTotalClosedForm(count: nat, k: nat)
    requires count > 0
    ensures SharesTotal(count, k) == k * (100 / count) + (if k < 100 % count then k else 100 % count)
    decreases k
  {
    if k > 0 {
      SharesTotalClosedForm(count, k - 1);
    }
  }

  /** The shares of a split over `count` variations add up to 100. */
  lemma EvenSharesSumTo100(count: nat)
    requires count > 0
    ensures SharesTotal(count, count) == 100
  {
    SharesTotalClosedForm(count, count);
    assert 100 % count < count;
    assert count * (100 / count) + 100 % count == 100;
  }

  /** The split is as even as integers allow: every share is
      non-negative, earlier positions never get less than later ones,
      and no two shares differ by more than one. */
  lemma EvenSharesAreFair(count: nat, i: nat, j: nat)
    requires 0 <= i <= j < count
    ensures 0 <= EvenShare(count, j) <= EvenShare(count, i) <= EvenShare(count, j) + 1
  {
  }

  lemma {:induction false} EvenlyDistributedPrefixTotal(vs: seq<Variation>, k: nat)
    requires 0 < |vs| && k <= |vs|
    ensures TrafficTotal(EvenlyDistributed(vs)[..k]) == SharesTotal(|vs|, k)
    decreases k
  {
    if k > 0 {
      var d := EvenlyDistributed(vs);
      assert d[..k][..k - 1] == d[..k - 1];
      EvenlyDistributedPrefixTotal(vs, k - 1);
    }
  }

  /** After the even split of a non-empty list the traffic adds up to
      100; an empty list is left as it is. */
  lemma EvenlyDistributedTotal(vs: seq<Variation>)
    ensures |vs| > 0 ==> TrafficTotal(EvenlyDistributed(vs)) == 100
    ensures |vs| == 0 ==> EvenlyDistributed(vs) == vs
  {
    if |vs| > 0 {
      var d := EvenlyDistributed(vs);
      EvenlyDistributedPrefixTotal(vs, |vs|);
      assert d[..|vs|] == d;
      EvenSharesSumTo100(|vs|);
    }
  }

  /** Three variations are split 34 / 33 / 33. */
  lemma ThreeWaySplit(a: Variation, b: Variation, c: Variation)
    ensures EvenlyDistributed([a, b, c]) ==
      [a.(traffic := 34), b.(traffic := 33), c.(traffic := 33)]
  {
  }

  /** `_distributeTrafficEvenly`: rewrites the traffic of every element
      in place with its even share. */
  method DistributeTrafficEvenly(variations: array<Variation>)
    modifies variations
    ensures variations[..] == EvenlyDistributed(old(variations[..]))
  {
    var count := variations.Length;
    if count > 0 {
      var baseTraffic := 100 / count;
      var remainder := 100 % count;
      var i := 0;
      while i < count
        invariant 0 <= i <= count
        invariant forall k :: 0 <= k < i ==> variations[k] == old(variations[k]).(traffic := EvenShare(count, k))
        invariant forall k :: i <= k < count ==> variations[k] == old(variations[k])
      {
        var extra := if i < remainder then 1 else 0;
        variations[i] := variations[i].(traffic := baseTraffic + extra);
        i := i + 1;
      }
    }
  }

  // ---------------------------------------------------------------------
  // Creation

  /** `createVariation`: 404 when the experiment does not exist;
      otherwise the new variation (traffic 0, id `newId` assigned by the
      store on saving) is appended to the experiment's variations, the
      traffic of the whole list is split evenly, and the list is saved.
      Returns the saved list and the response for the new variation. */
  method CreateVariation(
    experiments: ExperimentRepository, experimentId: int, stored: seq<Variation>,
    req: VariationCreate, newId: int)
    returns (r: Result<(seq<Variation>, VariationResponse)>)
    ensures experiments.GetById(experimentId).Err? ==> r == Err(experiments.GetById(experimentId).error)
    ensures experiments.GetById(experimentId).Ok? ==> r.Ok?
    ensures r.Ok? ==>
      var saved := r.value.0;
      && |saved| == |stored| + 1
      && (forall i :: 0 <= i < |stored| ==> saved[i] == stored[i].(traffic := EvenShare(|stored| + 1, i)))
      && saved[|stored|] == Variation(newId, experimentId, req.title, EvenShare(|stored| + 1, |stored|), req.js, req.css)
      && TrafficTotal(saved) == 100
      && r.value.1 == ToResponse(saved[|stored|])
  {
    var found := experiments.GetById(experimentId);
    if found.Err? {
      return Err(found.error);
    }
    var newVariation := Variation(newId, experimentId, req.title, 0, req.js, req.css);
    var variations := stored + [newVariation];
    var a := new Variation[|variations|](i requires 0 <= i < |variations| => variations[i]);
    assert a[..] == variations;
    DistributeTrafficEvenly(a);
    EvenlyDistributedTotal(variations);
    var saved := a[..];
    r := Ok((saved, ToResponse(saved[|stored|])));
  }

  // ---------------------------------------------------------------------
  // Field update

  /** The variation after the present fields of `req` are written over it. */
  function Patched(v: Variation, req: VariationUpdate): Variation
  {
    v.(title := req.title.GetOr(v.title),
       js := if req.js.Some? then req.js else v.js,
       css := if req.css.Some? then req.css else v.css)
  }

  /** `updateVariation`: 404 when no variation has the id (`current` is
      the row the store holds for it); otherwise every present field of
      the request replaces the stored one and the rest — id, experiment
      and traffic included — is kept. */
  function UpdateVariation(current: Option<Variation>, req: VariationUpdate): (r: Result<Variation>)
    ensures current.None? <==> r == Err(Http(NotFound, VariationNotFound))
    ensures current.Some? ==> r.Ok?
    ensures r.Ok? ==>
      && r.value.id == current.value.id
      && r.value.experimentId == current.value.experimentId
      && r.value.traffic == current.value.traffic
      && r.value.title == (if req.title.Some? then req.title.value else current.value.title)
      && r.value.js == (if req.js.Some? then req.js else current.value.js)
      && r.value.css == (if req.css.Some? then req.css else current.value.css)
  {
    match current
    case None => Err(Http(NotFound, VariationNotFound))
    case Some(v) => Ok(Patched(v, req))
  }

  /** Sending the same update twice changes nothing the second time. */
  lemma UpdateVariationIdempotent(v: Variation, req: VariationUpdate)
    ensures UpdateVariation(Some(UpdateVariation(Some(v), req).value), req) == UpdateVariation(Some(v), req)
  {
  }

  // ---------------------------------------------------------------------
  // Traffic re-allocation

  function VariationIds(vs: seq<Variation>): set<int>
  {
    set v | v in vs :: v.id
  }

  function AllocationIds(allocations: seq<VariationTraffic>): set<int>
  {
    set a | a in allocations :: a.variationId
  }

  /** The traffic the re-allocation loop leaves on variation `id`: that
      of the LAST request entry naming it, or `dflt` when none does. */
  function LastTraffic(allocations: seq<VariationTraffic>, id: int, dflt: int): int
  {
    if allocations == [] then dflt
    else
      var last := allocations[|allocations| - 1];
      if last.variationId == id then last.traffic
      else LastTraffic(allocations[..|allocations| - 1], id, dflt)
  }

  lemma LastTrafficStep(allocations: seq<VariationTraffic>, k: nat, id: int, dflt: int)
    requires k < |allocations|
    ensures LastTraffic(allocations[..k + 1], id, dflt) ==
      if allocations[k].variationId == id then allocations[k].traffic
      else LastTraffic(allocations[..k], id, dflt)
  {
    assert allocations[..k + 1][..k] == allocations[..k];
  }

  /** The experiment's variations after the request is applied. */
  function Reallocated(stored: seq<Variation>, allocations: seq<VariationTraffic>): seq<Variation>
  {
    seq(|stored|, i requires 0 <= i < |stored| =>
      stored[i].(traffic := LastTraffic(allocations, stored[i].id, stored[i].traffic)))
  }

  /** `{v.id: v for v in dbVariations}` over rows with distinct ids. */
  method IndexById(stored: seq<Variation>) returns (m: map<int, Variation>)
    requires DistinctVariationIds(stored)
    ensures m.Keys == VariationIds(stored)
    ensures forall i :: 0 <= i < |stored| ==> m[stored[i].id] == stored[i]
  {
    m := map[];
    var k := 0;
    while k < |stored|
      invariant 0 <= k <= |stored|
      invariant m.Keys == VariationIds(stored[..k])
      invariant forall i :: 0 <= i < k ==> m[stored[i].id] == stored[i]
    {
      assert stored[..k + 1] == stored[..k] + [stored[k]];
      m := m[stored[k].id := stored[k]];
      k := k + 1;
    }
    assert stored[..k] == stored;
  }

  /** `updateTrafficAllocation`: 404 when the experiment has no
      variations; 400 unless the request names exactly the experiment's
      variation ids; otherwise each request entry, in order, overwrites
      the traffic of the variation it names, and the whole list is saved
      and returned in table order. (`stored` comes from the variation
      table, whose ids are primary keys.) */
  method UpdateTrafficAllocation(stored: seq<Variation>, allocations: seq<VariationTraffic>)
    returns (r: Result<seq<Variation>>)
    requires DistinctVariationIds(stored)
    ensures stored == [] ==> r == Err(Http(NotFound, NoVariationsMessage))
    ensures stored != [] && AllocationIds(allocations) != VariationIds(stored) ==>
      r == Err(Http(BadRequest, MissingAllocationMessage))
    ensures stored != [] && AllocationIds(allocations) == VariationIds(stored) ==>
      r == Ok(Reallocated(stored, allocations))
  {
    if |stored| == 0 {
      return Err(Http(NotFound, NoVariationsMessage));
    }
    var dbVarMap := IndexById(stored);
    if AllocationIds(allocations) != dbVarMap.Keys {
      return Err(Http(BadRequest, MissingAllocationMessage));
    }
    var k := 0;
    while k < |allocations|
      invariant 0 <= k <= |allocations|
      invariant dbVarMap.Keys == VariationIds(stored)
      invariant forall i :: 0 <= i < |stored| ==>
        dbVarMap[stored[i].id] == stored[i].(traffic := LastTraffic(allocations[..k], stored[i].id, stored[i].traffic))
    {
      var alloc := allocations[k];
      assert alloc.variationId in AllocationIds(allocations);
      var variation := dbVarMap[alloc.variationId];
      dbVarMap := dbVarMap[alloc.variationId := variation.(traffic := alloc.traffic)];
      forall i | 0 <= i < |stored|
        ensures dbVarMap[stored[i].id] ==
          stored[i].(traffic := LastTraffic(allocations[..k + 1], stored[i].id, stored[i].traffic))
      {
        LastTrafficStep(allocations, k, stored[i].id, stored[i].traffic);
      }
      k := k + 1;
    }
    assert allocations[..k] == allocations;
    var saved := seq(|stored|, i requires 0 <= i < |stored| => dbVarMap[stored[i].id]);
    assert saved == Reallocated(stored, allocations);
    r := Ok(saved);
  }
}
