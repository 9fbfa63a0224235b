/** generate_constraints_matrix and generate_constraints_vector: the demand,
    capacity and supply sections stacked into the constraint matrix, and
    the right-hand side stacked alongside (demand volumes, capacity volumes,
    then zeros for the supply balance rows). */
module Constraints {
  import opened Seqs
  import opened Matrices
  import opened Failures
  import opened Network
  import opened Preprocessing
  import opened Demand
  import opened Capacity
  import opened Supply

  /** The stacked constraint matrix is what the solver receives: no row and
      no column of it may be all zero. */
  predicate NonDegenerate(m: Matrix, cols: nat)
    requires Rect(m, cols)
  {
    NoZeroRow(m) && NoZeroColumn(m, cols)
  }

  /** generate_constraints_matrix: demand rows, then capacity rows, then
      supply rows; checked against (dimC + capacity_rows + supply_rows,
      dimF + dimFC) and against all-zero rows and columns. */
  function ConstraintsMatrix(demand: Matrix, cap: Section, sup: Section, d: Dims): (r: Result<Matrix>)
    ensures r.Ok? <==>
              Shape(demand + cap.matrix + sup.matrix, d.dimC + cap.rows + sup.rows, d.dimF + d.dimFC)
              && NonDegenerate(demand + cap.matrix + sup.matrix, d.dimF + d.dimFC)
    ensures r.Err? ==> r.error == ShapeMismatch || r.error == DegenerateMatrix
    ensures r == Err(ShapeMismatch) <==> !Shape(demand + cap.matrix + sup.matrix, d.dimC + cap.rows + sup.rows, d.dimF + d.dimFC)
    ensures r.Ok? ==> Shape(r.value, d.dimC + cap.rows + sup.rows, d.dimF + d.dimFC)
    ensures r.Ok? ==> r.value == demand + cap.matrix + sup.matrix && NonDegenerate(r.value, d.dimF + d.dimFC)
  {
    var m := demand + cap.matrix + sup.matrix;
    if !Shape(m, d.dimC + cap.rows + sup.rows, d.dimF + d.dimFC) then Err(ShapeMismatch)
    else if !NonDegenerate(m, d.dimF + d.dimFC) then Err(DegenerateMatrix)
    else Ok(m)
  }

  /** Splitting the accepted matrix at the reported section heights gives the
      three sections back. */
  lemma {:induction false} ConstraintsSections(demand: Matrix, cap: Section, sup: Section, d: Dims)
    requires ConstraintsMatrix(demand, cap, sup, d).Ok?
    requires |demand| == d.dimC && |cap.matrix| == cap.rows
    ensures var m := ConstraintsMatrix(demand, cap, sup, d).value;
            m[..d.dimC] == demand
            && m[d.dimC..d.dimC + cap.rows] == cap.matrix
            && m[d.dimC + cap.rows..] == sup.matrix
  {
  }

  /** With the sections the builders accept, no row of the stack is zero:
      the only degeneracy the check can still find is an all-zero column. */
  lemma {:induction false} ConstraintsRowsNonZero(pl: seq<Product>, d: Dims, cap: Section, sup: Section)
    requires DemandMatrix(pl, d).Ok?
    requires NoZeroRow(cap.matrix) && NoZeroRow(sup.matrix)
    ensures NoZeroRow(DemandMatrix(pl, d).value + cap.matrix + sup.matrix)
  {
    DemandNoZeroRow(pl, d);
    var m := DemandMatrix(pl, d).value + cap.matrix + sup.matrix;
    forall i | 0 <= i < |m|
      ensures !IsZero(m[i])
    {
      var a := DemandMatrix(pl, d).value;
      if i < |a| {
        assert m[i] == a[i];
      } else if i < |a| + |cap.matrix| {
        assert m[i] == cap.matrix[i - |a|];
      } else {
        assert m[i] == sup.matrix[i - |a| - |cap.matrix|];
      }
    }
  }

  /** The three sections the builders accept always pass the shape check;
      the matrix is then accepted exactly when no column is all zero. */
  lemma {:induction false} ConstraintsAfterBuilders(pl: seq<Product>, d: Dims, cap: Section, sup: Section)
    requires DemandMatrix(pl, d).Ok?
    requires Shape(cap.matrix, cap.rows, d.dimF + d.dimFC) && NoZeroRow(cap.matrix)
    requires Shape(sup.matrix, sup.rows, d.dimF + d.dimFC) && NoZeroRow(sup.matrix)
    ensures var m := DemandMatrix(pl, d).value + cap.matrix + sup.matrix;
            Shape(m, d.dimC + cap.rows + sup.rows, d.dimF + d.dimFC)
            && (ConstraintsMatrix(DemandMatrix(pl, d).value, cap, sup, d).Ok? <==> NoZeroColumn(m, d.dimF + d.dimFC))
  {
    ConstraintsRowsNonZero(pl, d, cap, sup);
    var a := DemandMatrix(pl, d).value;
    var m := a + cap.matrix + sup.matrix;
    forall i | 0 <= i < |m|
      ensures |m[i]| == d.dimF + d.dimFC
    {
      if i < |a| {
        assert m[i] == a[i];
      } else if i < |a| + |cap.matrix| {
        assert m[i] == cap.matrix[i - |a|];
      } else {
        assert m[i] == sup.matrix[i - |a| - |cap.matrix|];
      }
    }
  }

  /** generate_constraints_vector: the section heights dimC, capacity_rows
      and supply_rows must be positive, the demand and capacity volumes must
      have one entry per demand and capacity row and be positive; the
      vector is the demand volumes, the capacity volumes, then one zero per
      supply row. Column vectors are held as sequences. */
  function ConstraintsVector(demandVolume: seq<real>, capacityVolume: seq<real>, d: Dims, capRows: nat, supRows: nat): (r: Result<seq<real>>)
    ensures r.Ok? <==>
              d.dimC > 0 && capRows > 0 && supRows > 0
              && |demandVolume| == d.dimC && |capacityVolume| == capRows
              && AllPositive(demandVolume) && AllPositive(capacityVolume)
    ensures r == Err(NonPositiveDimension) <==> d.dimC == 0 || capRows == 0 || supRows == 0
    ensures r == Err(ShapeMismatch) <==>
              d.dimC > 0 && capRows > 0 && supRows > 0
              && (|demandVolume| != d.dimC || |capacityVolume| != capRows)
    ensures r == Err(NonPositiveVolume) <==>
              d.dimC > 0 && capRows > 0 && supRows > 0
              && |demandVolume| == d.dimC && |capacityVolume| == capRows
              && (!AllPositive(demandVolume) || !AllPositive(capacityVolume))
    ensures r.Ok? ==> |r.value| == d.dimC + capRows + supRows
    ensures r.Ok? ==> r.value[..d.dimC] == demandVolume
    ensures r.Ok? ==> r.value[d.dimC..d.dimC + capRows] == capacityVolume
    ensures r.Ok? ==> IsZero(r.value[d.dimC + capRows..])
    ensures r.Ok? ==> NonNeg(r.value)
  {
    if d.dimC == 0 || capRows == 0 || supRows == 0 then Err(NonPositiveDimension)
    else if |demandVolume| != d.dimC then Err(ShapeMismatch)
    else if |capacityVolume| != capRows then Err(ShapeMismatch)
    else if !AllPositive(demandVolume) then Err(NonPositiveVolume)
    else if !AllPositive(capacityVolume) then Err(NonPositiveVolume)
    else
      var v := demandVolume + capacityVolume + Zeros(supRows);
      assert v[d.dimC + capRows..] == Zeros(supRows);
      Ok(v)
  }

  /** The vector has one entry per row of the matrix: with the same section
      heights, an accepted vector and an accepted matrix have the same
      length. */
  lemma {:induction false} ConstraintsAgree(demand: Matrix, cap: Section, sup: Section, d: Dims, demandVolume: seq<real>, capacityVolume: seq<real>)
    requires ConstraintsMatrix(demand, cap, sup, d).Ok?
    requires ConstraintsVector(demandVolume, capacityVolume, d, cap.rows, sup.rows).Ok?
    ensures |ConstraintsVector(demandVolume, capacityVolume, d, cap.rows, sup.rows).value| == |ConstraintsMatrix(demand, cap, sup, d).value|
  {
  }
}
