/** generate_capacity_matrix: one row per factory of each capacity group,
    holding the group's summed outbound combination rows; the production
    columns are all zero. */
module Capacity {
  import opened Seqs
  import opened Matrices
  import opened Failures
  import opened Network
  import opened Preprocessing
  import opened Combination
  import opened Groups

  /** A constraint section: its rows and the row count the builder reports
      (capacity_rows or supply_rows). */
  datatype Section = Section(matrix: Matrix, rows: nat)

  /** The inputs the capacity builder accepts: valid groups with factory
      names, slices as wide as dimFC, and one kept row per factory of each
      group's union. */
  predicate CapacityAccepted(pl: seq<Product>, names: seq<seq<Factory>>, outbound: Table, gs: seq<seq<Product>>, d: Dims)
    requires outbound.Valid(|pl|)
  {
    ValidGroups(pl, gs) && NamesKnown(pl, names, gs) && outbound.cols == d.dimFC
    && |KeptRows(pl, outbound, gs)| == UnionRows(pl, names, gs)
  }

  /** generate_capacity_matrix: validates the groups, sums each group's
      outbound slices, removes the all-zero rows, checks the result against
      (capacity_rows, dimFC) and puts dimF zero production columns in front. */
  function CapacityMatrix(pl: seq<Product>, names: seq<seq<Factory>>, outbound: Table, gs: seq<seq<Product>>, d: Dims): (r: Result<Section>)
    requires outbound.Valid(|pl|)
    ensures ValidateGroups(pl, gs).Fail? ==> r == Err(ValidateGroups(pl, gs).error)
    ensures r.Ok? <==> CapacityAccepted(pl, names, outbound, gs, d)
    ensures r.Ok? ==> r.value.rows == UnionRows(pl, names, gs)
    ensures r.Ok? ==> Shape(r.value.matrix, r.value.rows, d.dimF + d.dimFC)
    ensures r.Ok? ==> NoZeroRow(r.value.matrix)
    ensures r.Ok? ==> forall i, k :: 0 <= i < |r.value.matrix| && 0 <= k < d.dimF ==> r.value.matrix[i][k] == 0.0
    ensures r.Ok? ==> forall i :: 0 <= i < |r.value.matrix| ==> r.value.matrix[i] == Zeros(d.dimF) + KeptRows(pl, outbound, gs)[i]
  {
    var check := ValidateGroups(pl, gs);
    if check.Fail? then Err(check.error)
    else
      var kept := KeptRows(pl, outbound, gs);
      if !NamesKnown(pl, names, gs) then Err(MissingKey)
      else
        var capRows := UnionRows(pl, names, gs);
        if |kept| != capRows || outbound.cols != d.dimFC then Err(ShapeMismatch)
        else
          ZeroColumnsFront(d.dimF, kept, outbound.cols);
          Ok(Section(HStack(ZeroMatrix(|kept|, d.dimF), kept), capRows))
  }

  /** The kept rows are each group's non-zero summed rows, group after
      group. */
  lemma {:induction false} CapacityByGroup(pl: seq<Product>, outbound: Table, gs: seq<seq<Product>>)
    requires outbound.Valid(|pl|) && AllKnown(pl, gs)
    ensures KeptRows(pl, outbound, gs)
         == Concat(seq(|gs|, g requires 0 <= g < |gs| =>
              StripZeroRows(GroupSum(pl, outbound.slices, gs[g], outbound.rows, outbound.cols))))
  {
    var sums := GroupSums(pl, outbound.slices, gs, outbound.rows, outbound.cols);
    StripConcat(sums);
    assert seq(|sums|, g requires 0 <= g < |sums| => StripZeroRows(sums[g]))
        == seq(|gs|, g requires 0 <= g < |gs| => StripZeroRows(GroupSum(pl, outbound.slices, gs[g], outbound.rows, outbound.cols)));
  }

  /** When the outbound slices follow the service pattern, every factory
      appears once in the factory list and each group's factories are in it,
      the row-count check cannot fail: valid groups are accepted exactly when
      the slices are dimFC wide, with one row per factory of each group's
      union. */
  lemma {:induction false} CapacityRowsTheorem(pl: seq<Product>, fl: seq<Factory>, names: seq<seq<Factory>>, outbound: Table, gs: seq<seq<Product>>, d: Dims)
    requires outbound.rows == |fl|
    requires RowsFollowService(pl, fl, names, outbound.slices, outbound.cols, true)
    requires Distinct(fl)
    requires ValidGroups(pl, gs)
    requires forall g :: 0 <= g < |gs| ==> forall f :: f in FactoryUnion(pl, names, gs[g]) ==> f in fl
    ensures CapacityMatrix(pl, names, outbound, gs, d).Ok? <==> outbound.cols == d.dimFC
    ensures CapacityMatrix(pl, names, outbound, gs, d).Ok? ==>
              CapacityMatrix(pl, names, outbound, gs, d).value.rows == UnionRows(pl, names, gs)
  {
    StackedRows(pl, fl, names, outbound.slices, outbound.cols, true, gs);
  }

  /** End to end: the outbound slices of an accepted combination, with
      positive customer counts, a duplicate-free factory list containing
      every grouped product's factories, and valid groups, always give a
      capacity section with one row per factory of each group's union. */
  lemma {:induction false} CapacityAfterCombination(pl: seq<Product>, fl: seq<Factory>, names: seq<seq<Factory>>, eff: seq<Row>, d: Dims, gs: seq<seq<Product>>)
    returns (t: Table)
    requires CombinationAccepted(pl, fl, names, eff, d)
    requires forall i :: 0 <= i < |d.customerSizes| ==> d.customerSizes[i] > 0
    requires Distinct(fl)
    requires ValidGroups(pl, gs)
    requires |pl| <= |names|
    requires forall g :: 0 <= g < |gs| ==> forall f :: f in FactoryUnion(pl, names, gs[g]) ==> f in fl
    ensures t == Table(CombinationMatrices(pl, fl, names, eff, d).value.outbound, |fl|, d.dimFC)
    ensures t.Valid(|pl|)
    ensures CapacityMatrix(pl, names, t, gs, d).Ok?
    ensures CapacityMatrix(pl, names, t, gs, d).value.rows == UnionRows(pl, names, gs)
  {
    OutboundFollowsService(pl, fl, names, eff, d);
    t := Table(CombinationMatrices(pl, fl, names, eff, d).value.outbound, |fl|, d.dimFC);
    CapacityRowsTheorem(pl, fl, names, t, gs, d);
  }
}
