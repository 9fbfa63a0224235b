/** generate_objective_vector: the cost coefficients of the linear program,
    production (inbound) costs first and shipment (outbound) costs after. */
module Objective {
  import opened Seqs
  import opened Matrices
  import opened Failures
  import opened Network
  import opened Preprocessing

  predicate DimsPositive(d: Dims)
  {
    d.dimF > 0 && d.dimC > 0 && d.dimFC > 0
  }

  /** The objective vector: every product's inbound costs in product order,
      then every product's outbound costs in product order, each outbound
      table flattened factory-major. Rejected when a table does not have one
      entry per product, a dimension is not positive, the product list is
      empty (nothing to stack), a part has the wrong length or a cost is not
      positive. */
  function ObjectiveVector(pl: seq<Product>, inbound: seq<Row>, outbound: seq<CostArray>, d: Dims): (r: Result<Row>)
    requires forall i :: 0 <= i < |outbound| ==> outbound[i].WellShaped()
    ensures r.Ok? <==>
              |inbound| == |pl| && |outbound| == |pl| && DimsPositive(d) && |pl| > 0
              && |Concat(inbound)| == d.dimF && |Concat(Flats(outbound))| == d.dimFC
              && TablesPositive(inbound, outbound)
    ensures r.Err? ==> (r.error == TableCountMismatch <==> |inbound| != |pl| || |outbound| != |pl|)
    ensures r.Ok? ==> |r.value| == d.dimF + d.dimFC && AllPositive(r.value)
  {
    if |inbound| != |pl| then Err(TableCountMismatch)
    else if |outbound| != |pl| then Err(TableCountMismatch)
    else if !DimsPositive(d) then Err(NonPositiveDimension)
    else if |inbound| == 0 then Err(EmptyConcatenation)
    else
      var inCosts := Concat(inbound);
      var outCosts := Concat(Flats(outbound));
      if |inCosts| != d.dimF then Err(ShapeMismatch)
      else if |outCosts| != d.dimFC then Err(ShapeMismatch)
      else
        var v := inCosts + outCosts;
        CostsPositive(inbound, outbound);
        if !AllPositive(v) then Err(NonPositiveCost)
        else Ok(v)
  }

  /** Every cost of every product's tables is positive. */
  predicate TablesPositive(inbound: seq<Row>, outbound: seq<CostArray>)
    requires |inbound| == |outbound|
  {
    forall i :: 0 <= i < |inbound| ==> AllPositive(inbound[i]) && outbound[i].Positive()
  }

  /** The stacked costs are positive exactly when every table is. */
  lemma {:induction false} CostsPositive(inbound: seq<Row>, outbound: seq<CostArray>)
    requires |inbound| == |outbound|
    requires forall i :: 0 <= i < |outbound| ==> outbound[i].WellShaped()
    ensures AllPositive(Concat(inbound) + Concat(Flats(outbound))) <==> TablesPositive(inbound, outbound)
  {
    ConcatPositive(inbound);
    ConcatPositive(Flats(outbound));
    forall i | 0 <= i < |outbound|
      ensures AllPositive(Flats(outbound)[i]) <==> outbound[i].Positive()
    {
      FlattenPositive(outbound[i]);
    }
    var a, b := Concat(inbound), Concat(Flats(outbound));
    if AllPositive(a + b) {
      assert forall k :: 0 <= k < |a| ==> (a + b)[k] == a[k];
      assert forall k :: 0 <= k < |b| ==> (a + b)[|a| + k] == b[k];
    }
  }

  /** On acceptance the vector is the inbound costs followed by the flattened
      outbound costs. */
  lemma {:induction false} ObjectiveParts(pl: seq<Product>, inbound: seq<Row>, outbound: seq<CostArray>, d: Dims)
    requires forall t :: 0 <= t < |outbound| ==> outbound[t].WellShaped()
    requires ObjectiveVector(pl, inbound, outbound, d).Ok?
    ensures ObjectiveVector(pl, inbound, outbound, d).value == Concat(inbound) + Concat(Flats(outbound))
    ensures |Concat(inbound)| == d.dimF && |Concat(Flats(outbound))| == d.dimFC
  {
  }

  /** Inbound cost k of product i sits at that product's inbound offset plus k. */
  lemma {:induction false} ObjectiveInboundLayout(pl: seq<Product>, inbound: seq<Row>, outbound: seq<CostArray>, d: Dims, i: nat, k: nat)
    requires forall t :: 0 <= t < |outbound| ==> outbound[t].WellShaped()
    requires ObjectiveVector(pl, inbound, outbound, d).Ok?
    requires i < |pl| && k < |inbound[i]|
    ensures PrefixSum(Lengths(inbound), i) + k < d.dimF
    ensures ObjectiveVector(pl, inbound, outbound, d).value[PrefixSum(Lengths(inbound), i) + k] == inbound[i][k]
  {
    ObjectiveParts(pl, inbound, outbound, d);
    ConcatIndex(inbound, i, k);
  }

  /** Entry k of product i's flattened outbound table comes after all inbound
      costs, at that product's outbound offset plus k; for a grid, FlattenLayout
      places cell (customer c, factory f) at k = f * customers + c. */
  lemma {:induction false} ObjectiveOutboundLayout(pl: seq<Product>, inbound: seq<Row>, outbound: seq<CostArray>, d: Dims, i: nat, k: nat)
    requires forall t :: 0 <= t < |outbound| ==> outbound[t].WellShaped()
    requires ObjectiveVector(pl, inbound, outbound, d).Ok?
    requires i < |pl| && k < outbound[i].Size()
    ensures d.dimF + PrefixSum(Sizes(outbound), i) + k < d.dimF + d.dimFC
    ensures ObjectiveVector(pl, inbound, outbound, d).value[d.dimF + PrefixSum(Sizes(outbound), i) + k] == outbound[i].FlattenF()[k]
  {
    ObjectiveParts(pl, inbound, outbound, d);
    OffsetInFlats(outbound, i, k);
    var v, pos := ObjectiveVector(pl, inbound, outbound, d).value, PrefixSum(Sizes(outbound), i) + k;
    SecondPart(v, Concat(inbound), Concat(Flats(outbound)), d.dimF, pos);
    assert v[d.dimF + pos] == Concat(Flats(outbound))[pos] == outbound[i].FlattenF()[k];
  }

  lemma {:induction false} OffsetInFlats(outbound: seq<CostArray>, i: nat, k: nat)
    requires forall t :: 0 <= t < |outbound| ==> outbound[t].WellShaped()
    requires i < |outbound| && k < outbound[i].Size()
    ensures PrefixSum(Sizes(outbound), i) + k < |Concat(Flats(outbound))|
    ensures Concat(Flats(outbound))[PrefixSum(Sizes(outbound), i) + k] == outbound[i].FlattenF()[k]
  {
    var fl := Flats(outbound);
    ConcatIndex(fl, i, k);
    PrefixSumAgree(Lengths(fl), Sizes(outbound), i);
  }

  /** The dimensions computed by processed_inputs make both length checks
      pass when every product's inbound costs name one cost per factory and
      its outbound costs are a flat vector of one cost per factory and
      customer. */
  lemma {:induction false} ObjectiveFitsProcessedInputs(pl: seq<Product>, names: seq<seq<Factory>>, inbound: seq<Row>, outbound: seq<CostArray>)
    requires InputsAccepted(pl, names, outbound)
    requires |inbound| == |pl| && |outbound| == |pl|
    requires forall i :: 0 <= i < |pl| ==> |inbound[i]| == |names[i]|
    requires forall i :: 0 <= i < |pl| ==> outbound[i].Vector? && outbound[i].Len() % |names[i]| == 0
    ensures |Concat(inbound)| == ProcessedInputs(pl, names, outbound).value.dimF
    ensures |Concat(Flats(outbound))| == ProcessedInputs(pl, names, outbound).value.dimFC
  {
    var d := ProcessedInputs(pl, names, outbound).value;
    ConcatLength(inbound);
    PrefixSumAgree(Lengths(inbound), d.factorySizes, |pl|);
    DimFCCountsOutboundCosts(pl, names, outbound);
    assert outbound[..|pl|] == outbound;
    FlatsLength(outbound);
  }
}
