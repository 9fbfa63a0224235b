/** generate_supply_matrix: for each supply group, one row per factory of
    the group, holding the group's summed inbound combination rows (minus
    production) beside its summed outbound combination rows (shipments). */
module Supply {
  import opened Seqs
  import opened Matrices
  import opened Failures
  import opened Network
  import opened Preprocessing
  import opened Combination
  import opened Groups
  import opened Capacity

  /** The inputs the supply builder accepts: valid groups with factory
      names, sides as wide as dimF and dimFC, and on each side one kept row
      per factory of each group's union. */
  predicate SupplyAccepted(pl: seq<Product>, names: seq<seq<Factory>>, inbound: Table, outbound: Table, gs: seq<seq<Product>>, d: Dims)
    requires inbound.Valid(|pl|) && outbound.Valid(|pl|)
  {
    ValidGroups(pl, gs) && NamesKnown(pl, names, gs)
    && inbound.cols == d.dimF && outbound.cols == d.dimFC
    && |KeptRows(pl, inbound, gs)| == UnionRows(pl, names, gs)
    && |KeptRows(pl, outbound, gs)| == UnionRows(pl, names, gs)
  }

  /** generate_supply_matrix: validates the groups, sums each group's inbound
      and outbound slices, removes the all-zero rows of each side on its own,
      checks the sides against (supply_rows, dimF) and (supply_rows, dimFC)
      and places them side by side. */
  function SupplyMatrix(pl: seq<Product>, names: seq<seq<Factory>>, inbound: Table, outbound: Table, gs: seq<seq<Product>>, d: Dims): (r: Result<Section>)
    requires inbound.Valid(|pl|) && outbound.Valid(|pl|)
    ensures ValidateGroups(pl, gs).Fail? ==> r == Err(ValidateGroups(pl, gs).error)
    ensures r.Ok? <==> SupplyAccepted(pl, names, inbound, outbound, gs, d)
    ensures r.Ok? ==> r.value.rows == UnionRows(pl, names, gs)
    ensures r.Ok? ==> Shape(r.value.matrix, r.value.rows, d.dimF + d.dimFC)
    ensures r.Ok? ==> NoZeroRow(r.value.matrix)
    ensures r.Ok? ==> forall i :: 0 <= i < |r.value.matrix| ==>
              r.value.matrix[i] == KeptRows(pl, inbound, gs)[i] + KeptRows(pl, outbound, gs)[i]
  {
    var check := ValidateGroups(pl, gs);
    if check.Fail? then Err(check.error)
    else
      var ins := KeptRows(pl, inbound, gs);
      var outs := KeptRows(pl, outbound, gs);
      if !NamesKnown(pl, names, gs) then Err(MissingKey)
      else
        var supRows := UnionRows(pl, names, gs);
        if |ins| != supRows || inbound.cols != d.dimF then Err(ShapeMismatch)
        else if |outs| != supRows || outbound.cols != d.dimFC then Err(ShapeMismatch)
        else
          HStackShape(ins, outs, d.dimF, d.dimFC);
          HStackNoZeroRow(ins, outs);
          Ok(Section(HStack(ins, outs), supRows))
  }

  /** Stripping the two sides separately loses the same rows from both when
      the inbound slices follow the service pattern below zero and the
      outbound ones above it: the result is the side-by-side stack with its
      all-zero rows removed, and every kept row is non-zero on both sides. */
  lemma {:induction false} SupplyStripsAlike(pl: seq<Product>, fl: seq<Factory>, names: seq<seq<Factory>>, inbound: Table, outbound: Table, gs: seq<seq<Product>>)
    requires inbound.rows == |fl| && outbound.rows == |fl|
    requires RowsFollowService(pl, fl, names, inbound.slices, inbound.cols, false)
    requires RowsFollowService(pl, fl, names, outbound.slices, outbound.cols, true)
    requires AllKnown(pl, gs)
    ensures |Stacked(pl, inbound.slices, gs, |fl|, inbound.cols)| == |Stacked(pl, outbound.slices, gs, |fl|, outbound.cols)|
    ensures |KeptRows(pl, inbound, gs)| == |KeptRows(pl, outbound, gs)|
    ensures HStack(KeptRows(pl, inbound, gs), KeptRows(pl, outbound, gs))
         == StripZeroRows(HStack(Stacked(pl, inbound.slices, gs, |fl|, inbound.cols),
                                 Stacked(pl, outbound.slices, gs, |fl|, outbound.cols)))
  {
    StackedMasksAgree(pl, fl, names, inbound.slices, inbound.cols, outbound.slices, outbound.cols, gs);
    StripPairs(Stacked(pl, inbound.slices, gs, |fl|, inbound.cols), Stacked(pl, outbound.slices, gs, |fl|, outbound.cols));
  }

  /** When both sides follow the service pattern, every factory appears once
      in the factory list and each group's factories are in it, both
      row-count checks pass: valid groups are accepted exactly when the
      sides are dimF and dimFC wide, with one row per factory of each
      group's union. */
  lemma {:induction false} SupplyRowsTheorem(pl: seq<Product>, fl: seq<Factory>, names: seq<seq<Factory>>, inbound: Table, outbound: Table, gs: seq<seq<Product>>, d: Dims)
    requires inbound.rows == |fl| && outbound.rows == |fl|
    requires RowsFollowService(pl, fl, names, inbound.slices, inbound.cols, false)
    requires RowsFollowService(pl, fl, names, outbound.slices, outbound.cols, true)
    requires Distinct(fl)
    requires ValidGroups(pl, gs)
    requires forall g :: 0 <= g < |gs| ==> forall f :: f in FactoryUnion(pl, names, gs[g]) ==> f in fl
    ensures SupplyMatrix(pl, names, inbound, outbound, gs, d).Ok? <==> inbound.cols == d.dimF && outbound.cols == d.dimFC
    ensures SupplyMatrix(pl, names, inbound, outbound, gs, d).Ok? ==>
              SupplyMatrix(pl, names, inbound, outbound, gs, d).value.rows == UnionRows(pl, names, gs)
  {
    StackedRows(pl, fl, names, inbound.slices, inbound.cols, false, gs);
    StackedRows(pl, fl, names, outbound.slices, outbound.cols, true, gs);
  }

  /** End to end: the slices of an accepted combination, with positive
      customer counts, a duplicate-free factory list containing every
      grouped product's factories, and valid groups, always give a supply
      section with one row per factory of each group's union. */
  lemma {:induction false} SupplyAfterCombination(pl: seq<Product>, fl: seq<Factory>, names: seq<seq<Factory>>, eff: seq<Row>, d: Dims, gs: seq<seq<Product>>)
    returns (ti: Table, to: Table)
    requires CombinationAccepted(pl, fl, names, eff, d)
    requires forall i :: 0 <= i < |d.customerSizes| ==> d.customerSizes[i] > 0
    requires Distinct(fl)
    requires ValidGroups(pl, gs)
    requires |pl| <= |names|
    requires forall g :: 0 <= g < |gs| ==> forall f :: f in FactoryUnion(pl, names, gs[g]) ==> f in fl
    ensures ti == Table(CombinationMatrices(pl, fl, names, eff, d).value.inbound, |fl|, d.dimF)
    ensures to == Table(CombinationMatrices(pl, fl, names, eff, d).value.outbound, |fl|, d.dimFC)
    ensures ti.Valid(|pl|) && to.Valid(|pl|)
    ensures SupplyMatrix(pl, names, ti, to, gs, d).Ok?
    ensures SupplyMatrix(pl, names, ti, to, gs, d).value.rows == UnionRows(pl, names, gs)
  {
    InboundFollowsService(pl, fl, names, eff, d);
    OutboundFollowsService(pl, fl, names, eff, d);
    var c := CombinationMatrices(pl, fl, names, eff, d).value;
    ti, to := Table(c.inbound, |fl|, d.dimF), Table(c.outbound, |fl|, d.dimFC);
    SupplyRowsTheorem(pl, fl, names, ti, to, gs, d);
  }
}
