/** generate_demand_matrix: one row per (product, customer), asking that the
    shipments of that product to that customer, summed over the product's
    factories, meet the customer's demand. */
module Demand {
  import opened Seqs
  import opened Matrices
  import opened Failures
  import opened Network
  import opened Preprocessing

  /** Product i's outbound demand block: the identity of size customers[i]
      tiled factories[i] times side by side, one copy per factory. */
  function Tiles(cs: seq<nat>, fs: seq<nat>): (ts: seq<Matrix>)
    requires |fs| == |cs|
    ensures |ts| == |cs|
  {
    seq(|cs|, i requires 0 <= i < |cs| => Tile(Identity(cs[i]), fs[i]))
  }

  predicate AllNonZero(ws: seq<nat>)
  {
    forall i :: 0 <= i < |ws| ==> ws[i] > 0
  }

  /** The demand matrix: a zero inbound part of dimF columns, then the block
      diagonal of the tiled identities. Rejected when a size is not positive,
      the product list is empty, a size table does not have one entry per
      product, or the block diagonal does not have dimC rows and dimFC
      columns. */
  function DemandMatrix(pl: seq<Product>, d: Dims): (r: Result<Matrix>)
    ensures r.Ok? <==>
              AllNonZero(d.customerSizes) && AllNonZero(d.factorySizes) && |pl| > 0
              && |d.customerSizes| == |pl| && |d.factorySizes| == |pl|
              && Total(d.customerSizes) == d.dimC
              && Total(Pairwise(d.factorySizes, d.customerSizes)) == d.dimFC
    ensures r.Ok? ==> Shape(r.value, d.dimC, d.dimF + d.dimFC)
    ensures r.Ok? ==> forall i :: 0 <= i < |r.value| ==> NonNeg(r.value[i])
    ensures r.Ok? ==> forall i :: 0 <= i < |r.value| ==> IsZero(r.value[i][..d.dimF])
  {
    var cs, fs := d.customerSizes, d.factorySizes;
    if !AllNonZero(cs) then Err(NonPositiveSize)
    else if !AllNonZero(fs) then Err(NonPositiveSize)
    else if |pl| == 0 then Err(EmptyProductList)
    else if |cs| != |pl| then Err(TableCountMismatch)
    else if |fs| != |pl| then Err(TableCountMismatch)
    else
      var outbound := BlockDiag(Tiles(cs, fs));
      TilesShape(cs, fs);
      assert |outbound| > 0 && |outbound[0]| == Total(Pairwise(fs, cs));
      if !Shape(outbound, d.dimC, d.dimFC) then Err(ShapeMismatch)
      else
        assert |outbound[0]| == d.dimFC;
        DemandRowsNonNeg(cs, fs, d.dimF);
        Ok(DemandRows(cs, fs, d.dimF))
  }

  /** The accepted demand matrix: every row of the block diagonal of the tiled
      identities, behind dimF zero columns. */
  function DemandRows(cs: seq<nat>, fs: seq<nat>, dimF: nat): Matrix
    requires |fs| == |cs|
  {
    HStack(ZeroMatrix(|BlockDiag(Tiles(cs, fs))|, dimF), BlockDiag(Tiles(cs, fs)))
  }

  /** Each tiled block has customers[i] rows of factories[i] * customers[i]
      entries, so the block diagonal has Σ customers rows and Σ factories *
      customers columns. */
  lemma {:induction false} TilesShape(cs: seq<nat>, fs: seq<nat>)
    requires |fs| == |cs| && AllNonZero(cs)
    ensures Lengths(Tiles(cs, fs)) == cs
    ensures Widths(Tiles(cs, fs)) == Pairwise(fs, cs)
    ensures AllRect(Tiles(cs, fs))
    ensures Shape(BlockDiag(Tiles(cs, fs)), Total(cs), Total(Pairwise(fs, cs)))
    ensures |cs| > 0 ==> |BlockDiag(Tiles(cs, fs))| > 0
  {
    var ts := Tiles(cs, fs);
    forall i, q | 0 <= i < |ts| && 0 <= q < |ts[i]|
      ensures |ts[i][q]| == fs[i] * cs[i]
    {
      RepeatLength(Unit(cs[i], q), fs[i]);
    }
    assert Lengths(ts) == cs;
    assert Widths(ts) == Pairwise(fs, cs);
    BlockDiagShape(ts);
    if |cs| > 0 {
      PrefixSumMonotone(cs, 1, |cs|);
    }
  }

  /** Every copy of a unit row holds only zeros and ones. */
  lemma {:induction false} RepeatUnitBinary(c: nat, q: nat, f: nat)
    ensures Binary(Repeat(Unit(c, q), f))
  {
    var xs := seq(f, _ => Unit(c, q));
    ConcatForall(xs, (x: real) => x == 0.0 || x == 1.0);
  }

  /** Every row of the demand matrix is zeros on the inbound columns followed
      by a padded tiled unit row. */
  lemma {:induction false} DemandRowsNonNeg(cs: seq<nat>, fs: seq<nat>, dimF: nat)
    requires |fs| == |cs|
    ensures forall i :: 0 <= i < |BlockDiag(Tiles(cs, fs))| ==>
              Binary(Zeros(dimF) + BlockDiag(Tiles(cs, fs))[i])
  {
    var ts := Tiles(cs, fs);
    forall i | 0 <= i < |BlockDiag(ts)|
      ensures Binary(Zeros(dimF) + BlockDiag(ts)[i])
    {
      var b, q := BlockDiagLocate(ts, i);
      RepeatUnitBinary(cs[b], q, fs[b]);
    }
  }

  /** On acceptance the matrix is the zero inbound part beside the block
      diagonal of the tiled identities. */
  lemma {:induction false} DemandParts(pl: seq<Product>, d: Dims)
    requires DemandMatrix(pl, d).Ok?
    ensures |d.factorySizes| == |d.customerSizes| == |pl| > 0 && AllNonZero(d.customerSizes)
    ensures Total(d.customerSizes) == d.dimC && Total(Pairwise(d.factorySizes, d.customerSizes)) == d.dimFC
    ensures DemandMatrix(pl, d).value == DemandRows(d.customerSizes, d.factorySizes, d.dimF)
  {
  }

  /** Row q of block i of the tiled block diagonal (of `width` columns). */
  lemma {:induction false} TiledRow(cs: seq<nat>, fs: seq<nat>, width: nat, i: nat, q: nat)
    requires |fs| == |cs| && AllNonZero(cs)
    requires width == Total(Pairwise(fs, cs))
    requires i < |cs| && q < cs[i]
    ensures PrefixSum(cs, i) + q < |BlockDiag(Tiles(cs, fs))|
    ensures PrefixSum(Pairwise(fs, cs), i) + fs[i] * cs[i] <= width
    ensures BlockDiag(Tiles(cs, fs))[PrefixSum(cs, i) + q]
         == Zeros(PrefixSum(Pairwise(fs, cs), i))
            + Repeat(Unit(cs[i], q), fs[i])
            + Zeros(width - PrefixSum(Pairwise(fs, cs), i) - fs[i] * cs[i])
  {
    var ts := Tiles(cs, fs);
    TilesShape(cs, fs);
    RepeatLength(Unit(cs[i], q), fs[i]);
    assert ts[i][q] == Repeat(Unit(cs[i], q), fs[i]);
    BlockDiagRowWidth(ts, i, q);
  }

  /** Row q of product i's section: ones exactly at the columns of that
      customer's shipments from each of the product's factories, zeros
      elsewhere (RepeatUnitEntries places the ones at dimF + offset +
      t * customers + q for the t-th factory). The product's section starts
      at row Σ earlier customers and its shipment columns after Σ earlier
      factories * customers. */
  lemma {:induction false} DemandRowLayout(pl: seq<Product>, d: Dims, i: nat, q: nat)
    requires DemandMatrix(pl, d).Ok?
    requires i < |pl| && q < d.customerSizes[i]
    ensures PrefixSum(d.customerSizes, i) + q < d.dimC
    ensures PrefixSum(Pairwise(d.factorySizes, d.customerSizes), i) + d.factorySizes[i] * d.customerSizes[i] <= d.dimFC
    ensures DemandMatrix(pl, d).value[PrefixSum(d.customerSizes, i) + q]
         == Zeros(d.dimF + PrefixSum(Pairwise(d.factorySizes, d.customerSizes), i))
            + Repeat(Unit(d.customerSizes[i], q), d.factorySizes[i])
            + Zeros(d.dimFC - PrefixSum(Pairwise(d.factorySizes, d.customerSizes), i) - d.factorySizes[i] * d.customerSizes[i])
  {
    DemandParts(pl, d);
    DemandRowsRow(d.customerSizes, d.factorySizes, d.dimF, d.dimFC, i, q);
  }

  lemma {:induction false} DemandRowsRow(cs: seq<nat>, fs: seq<nat>, dimF: nat, width: nat, i: nat, q: nat)
    requires |fs| == |cs| && AllNonZero(cs)
    requires width == Total(Pairwise(fs, cs))
    requires i < |cs| && q < cs[i]
    ensures PrefixSum(cs, i) + q < Total(cs) == |DemandRows(cs, fs, dimF)|
    ensures PrefixSum(Pairwise(fs, cs), i) + fs[i] * cs[i] <= width
    ensures DemandRows(cs, fs, dimF)[PrefixSum(cs, i) + q]
         == Zeros(dimF + PrefixSum(Pairwise(fs, cs), i))
            + Repeat(Unit(cs[i], q), fs[i])
            + Zeros(width - PrefixSum(Pairwise(fs, cs), i) - fs[i] * cs[i])
  {
    var k := PrefixSum(cs, i) + q;
    var off := PrefixSum(Pairwise(fs, cs), i);
    TilesShape(cs, fs);
    TiledRow(cs, fs, width, i, q);
    assert DemandRows(cs, fs, dimF)[k] == Zeros(dimF) + BlockDiag(Tiles(cs, fs))[k];
    PadLeft(dimF, off, Repeat(Unit(cs[i], q), fs[i]), width - off - fs[i] * cs[i]);
  }

  /** A copy of unit row q, tiled f times, holds a one at position
      t * c + q for each copy t and nothing else that is non-zero. */
  lemma {:induction false} RepeatUnitEntries(c: nat, q: nat, f: nat)
    requires q < c
    ensures |Repeat(Unit(c, q), f)| == f * c
    ensures forall t :: 0 <= t < f ==> t * c + q < f * c && Repeat(Unit(c, q), f)[t * c + q] == 1.0
    ensures forall k :: 0 <= k < f * c && k % c != q ==> Repeat(Unit(c, q), f)[k] == 0.0
    ensures RowSum(Repeat(Unit(c, q), f)) == f as real
  {
    RepeatLength(Unit(c, q), f);
    forall t | 0 <= t < f
      ensures t * c + q < f * c && Repeat(Unit(c, q), f)[t * c + q] == 1.0
    {
      RepeatLayout(Unit(c, q), f, t, q);
    }
    forall k | 0 <= k < f * c && k % c != q
      ensures Repeat(Unit(c, q), f)[k] == 0.0
    {
      DivSplit(k, c, f);
      RepeatLayout(Unit(c, q), f, k / c, k % c);
    }
    RepeatRowSum(Unit(c, q), f);
    UnitRowSum(c, q);
  }

  /** Zero padding adds nothing to a row's sum. */
  lemma {:induction false} PaddedRowSum(a: nat, x: Row, b: nat)
    ensures RowSum(Zeros(a) + x + Zeros(b)) == RowSum(x)
  {
    RowSumAppend(Zeros(a) + x, Zeros(b));
    RowSumAppend(Zeros(a), x);
    RowSumZero(Zeros(a));
    RowSumZero(Zeros(b));
  }

  lemma {:induction false} UnitRowSum(c: nat, q: nat)
    requires q < c
    ensures RowSum(Unit(c, q)) == 1.0
  {
    var u := Unit(c, q);
    assert u == Zeros(q) + [1.0] + Zeros(c - q - 1);
    RowSumAppend(Zeros(q) + [1.0], Zeros(c - q - 1));
    RowSumAppend(Zeros(q), [1.0]);
    RowSumZero(Zeros(q));
    RowSumZero(Zeros(c - q - 1));
    assert RowSum([1.0]) == RowSum([]) + 1.0 by {
      assert [1.0][..0] == [];
    }
  }

  lemma {:induction false} RepeatRowSum(row: Row, k: nat)
    ensures RowSum(Repeat(row, k)) == k as real * RowSum(row)
  {
    if k > 0 {
      RepeatRowSum(row, k - 1);
      var xs := seq(k, _ => row);
      assert xs[..k - 1] == seq(k - 1, _ => row);
      assert Repeat(row, k) == Repeat(row, k - 1) + row;
      RowSumAppend(Repeat(row, k - 1), row);
    }
  }

  /** A unit row tiled f times between two zero paddings sums to f. */
  lemma {:induction false} PaddedUnitsSum(a: nat, c: nat, q: nat, f: nat, b: nat)
    requires q < c
    ensures RowSum(Zeros(a) + Repeat(Unit(c, q), f) + Zeros(b)) == f as real
  {
    PaddedRowSum(a, Repeat(Unit(c, q), f), b);
    RepeatRowSum(Unit(c, q), f);
    UnitRowSum(c, q);
  }

  /** Every demand row asks for exactly one unit of shipment per factory of
      its product: it sums to the product's factory count. */
  lemma {:induction false} DemandRowSum(pl: seq<Product>, d: Dims, i: nat, q: nat)
    requires DemandMatrix(pl, d).Ok?
    requires i < |pl| && q < d.customerSizes[i]
    ensures PrefixSum(d.customerSizes, i) + q < |DemandMatrix(pl, d).value|
    ensures RowSum(DemandMatrix(pl, d).value[PrefixSum(d.customerSizes, i) + q]) == d.factorySizes[i] as real
  {
    DemandRowLayout(pl, d, i, q);
    var cs, fs := d.customerSizes, d.factorySizes;
    var off := PrefixSum(Pairwise(fs, cs), i);
    PaddedUnitsSum(d.dimF + off, cs[i], q, fs[i], d.dimFC - off - fs[i] * cs[i]);
  }

  /** The dimensions computed by processed_inputs always pass the demand
      builder's checks, provided every product has at least one factory and
      at least one customer. */
  lemma {:induction false} DemandAcceptsProcessedInputs(pl: seq<Product>, names: seq<seq<Factory>>, outbound: seq<CostArray>)
    requires InputsAccepted(pl, names, outbound)
    requires |pl| > 0
    requires forall i :: 0 <= i < |pl| ==> ProcessedInputs(pl, names, outbound).value.customerSizes[i] > 0
    ensures DemandMatrix(pl, ProcessedInputs(pl, names, outbound).value).Ok?
  {
  }

  /** No demand row is all zero: each sums to its product's positive
      factory count. */
  lemma {:induction false} DemandNoZeroRow(pl: seq<Product>, d: Dims)
    requires DemandMatrix(pl, d).Ok?
    ensures NoZeroRow(DemandMatrix(pl, d).value)
  {
    var m := DemandMatrix(pl, d).value;
    forall k | 0 <= k < |m|
      ensures !IsZero(m[k])
    {
      var i, q := PrefixLocate(d.customerSizes, k);
      DemandRowSum(pl, d, i, q);
      if IsZero(m[k]) {
        RowSumZero(m[k]);
      }
    }
  }
}
