/** The request body of a traffic re-allocation and its validator. */
module TrafficAllocationRequest {
  import opened Common

  /** One entry of the request: the new percentage of one variation. */
  datatype VariationTraffic = VariationTraffic(variationId: int, traffic: int)

  /** Sum of the requested percentages. */
  function AllocationTotal(allocations: seq<VariationTraffic>): int
  {
    if allocations == [] then 0
    else AllocationTotal(allocations[..|allocations| - 1]) + allocations[|allocations| - 1].traffic
  }

  function TotalMessage(total: int): string
  {
    "Total traffic allocation must equal 100%. Current total: " + IntToDecimal(total) + "%!"
  }

  /** `validate_total_traffic`: the list is accepted unchanged exactly
      when its percentages add up to 100; nothing else is checked. */
  function ValidateTotalTraffic(allocations: seq<VariationTraffic>): (r: Result<seq<VariationTraffic>>)
    ensures r.Ok? <==> AllocationTotal(allocations) == 100
    ensures r.Ok? ==> r.value == allocations
    ensures r.Err? ==> r.error == Validation(TotalMessage(AllocationTotal(allocations)))
  {
    var total := AllocationTotal(allocations);
    if total != 100 then Err(Validation(TotalMessage(total))) else Ok(allocations)
  }

  /** The validator rejects an empty list (its total is 0), but it lets
      through negative percentages and repeated variation ids as long as
      the sum is 100. */
  lemma ValidatorBoundaries()
    ensures ValidateTotalTraffic([]).Err?
    ensures ValidateTotalTraffic([VariationTraffic(1, 150), VariationTraffic(2, -50)]).Ok?
    ensures ValidateTotalTraffic([VariationTraffic(1, 50), VariationTraffic(1, 50)]).Ok?
  {
    assert AllocationTotal([VariationTraffic(1, 150), VariationTraffic(2, -50)]) == 100 by {
      assert [VariationTraffic(1, 150), VariationTraffic(2, -50)][..1] == [VariationTraffic(1, 150)];
    }
    assert AllocationTotal([VariationTraffic(1, 50), VariationTraffic(1, 50)]) == 100 by {
      assert [VariationTraffic(1, 50), VariationTraffic(1, 50)][..1] == [VariationTraffic(1, 50)];
    }
  }
}
