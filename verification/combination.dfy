/** generate_combination_matrices: per product, one row per slot of the factory
    list. The inbound matrix carries the negated production efficiency of each
    serving factory in that factory's production column; the outbound matrix
    carries ones over the shipment columns of each serving factory. */
module Combination {
  import opened Seqs
  import opened Matrices
  import opened Failures
  import opened Network
  import opened Preprocessing

  /** One product's inbound pieces and the stream position after them. */
  datatype Draw = Draw(slots: seq<Matrix>, next: nat)

  /** Every product's inbound pieces and the stream position after them. */
  datatype Drawn = Drawn(blocks: seq<seq<Matrix>>, next: nat)

  /** The split result: one slice per product, in product order. */
  datatype Combination = Combination(inbound: seq<Matrix>, outbound: seq<Matrix>)

  /** Factory slot j of a product with factory names `names` whose
      efficiencies start at stream position `off`: a serving slot holds the
      1x1 block of the efficiency at `off` plus the number of serving slots
      before it, any other slot the empty 1x0 block. (On an accepted draw
      the position always lies inside the stream: SlotInStream.) */
  function Slot(fl: seq<Factory>, names: seq<Factory>, stream: seq<real>, off: nat, j: nat): Matrix
    requires j < |fl|
  {
    if fl[j] in names && off + ServedBefore(fl, names, j) < |stream|
    then [[stream[off + ServedBefore(fl, names, j)]]]
    else [[]]
  }

  /** The first n slots of one product. */
  function SlotsUpTo(fl: seq<Factory>, names: seq<Factory>, stream: seq<real>, off: nat, n: nat): (ss: seq<Matrix>)
    requires n <= |fl|
    ensures |ss| == n
  {
    seq(n, j requires 0 <= j < n => Slot(fl, names, stream, off, j))
  }

  /** The slots of the first m products, product i reading the stream
      after the serving slots of the products before it. */
  function InboundBlocks(fl: seq<Factory>, names: seq<seq<Factory>>, stream: seq<real>, m: nat): (bs: seq<seq<Matrix>>)
    requires m <= |names|
    ensures |bs| == m
  {
    seq(m, i requires 0 <= i < m => SlotsUpTo(fl, names[i], stream, PrefixSum(ServedCounts(fl, names), i), |fl|))
  }

  /** The pieces of the first n factory slots of one product, each serving
      slot taking the next value of the efficiency stream. Running out of
      values stops the construction. */
  function InboundSlots(fl: seq<Factory>, names: seq<Factory>, stream: seq<real>, off: nat, n: nat): (r: Result<Draw>)
    requires off <= |stream| && n <= |fl|
    ensures r.Ok? <==> off + ServedBefore(fl, names, n) <= |stream|
    ensures r.Err? ==> r.error == EfficiencyExhausted
    ensures r.Ok? ==> r.value.next == off + ServedBefore(fl, names, n)
    ensures r.Ok? ==> r.value.slots == SlotsUpTo(fl, names, stream, off, n)
  {
    if n == 0 then Ok(Draw([], off))
    else
      var prev := InboundSlots(fl, names, stream, off, n - 1);
      ServedCountBound(fl, names, n - 1);
      if prev.Err? then prev
      else
        var d := prev.value;
        if fl[n - 1] !in names then
          Ok(Draw(d.slots + [[[]]], d.next))
        else if d.next >= |stream| then Err(EfficiencyExhausted)
        else
          Ok(Draw(d.slots + [[[stream[d.next]]]], d.next + 1))
  }

  /** The pieces of the first m products, visited in product order; the
      factory names of each product are looked up before its first slot. */
  function ProductSlots(fl: seq<Factory>, names: seq<seq<Factory>>, stream: seq<real>, m: nat): (r: Result<Drawn>)
    requires |fl| > 0
    ensures r.Ok? <==> m <= |names| && PrefixSum(ServedCounts(fl, names), m) <= |stream|
    ensures r.Err? ==> r.error == MissingKey || r.error == EfficiencyExhausted
    ensures r.Ok? ==> r.value.next == PrefixSum(ServedCounts(fl, names), m)
    ensures r.Ok? ==> |r.value.blocks| == m
    ensures r.Ok? ==> r.value.blocks == InboundBlocks(fl, names, stream, m)
  {
    if m == 0 then Ok(Drawn([], 0))
    else
      var prev := ProductSlots(fl, names, stream, m - 1);
      if prev.Err? then prev
      else if m - 1 >= |names| then Err(MissingKey)
      else
        var d := prev.value;
        var sc := ServedCounts(fl, names);
        assert ServedBefore(fl, names[m - 1], |fl|) == sc[m - 1];
        var cur := InboundSlots(fl, names[m - 1], stream, d.next, |fl|);
        if cur.Err? then Err(cur.error)
        else
          InboundBlocksSnoc(fl, names, stream, m);
          Ok(Drawn(d.blocks + [cur.value.slots], cur.value.next))
  }

  /** The reference slots of m products extend those of m - 1 products by
      product m - 1's slots. */
  lemma {:induction false} InboundBlocksSnoc(fl: seq<Factory>, names: seq<seq<Factory>>, stream: seq<real>, m: nat)
    requires 0 < m <= |names|
    ensures InboundBlocks(fl, names, stream, m)
         == InboundBlocks(fl, names, stream, m - 1)
            + [SlotsUpTo(fl, names[m - 1], stream, PrefixSum(ServedCounts(fl, names), m - 1), |fl|)]
  {
    var a, b := InboundBlocks(fl, names, stream, m), InboundBlocks(fl, names, stream, m - 1);
    var last := SlotsUpTo(fl, names[m - 1], stream, PrefixSum(ServedCounts(fl, names), m - 1), |fl|);
    forall i | 0 <= i < m
      ensures a[i] == (b + [last])[i]
    {
      var sc := ServedCounts(fl, names);
      assert a[i] == SlotsUpTo(fl, names[i], stream, PrefixSum(sc, i), |fl|);
      if i < m - 1 {
        assert b[i] == SlotsUpTo(fl, names[i], stream, PrefixSum(sc, i), |fl|);
        assert (b + [last])[i] == b[i];
      } else {
        assert (b + [last])[i] == last;
      }
    }
  }

  /** A serving slot of an accepted draw reads a position inside the stream. */
  lemma {:induction false} SlotInStream(fl: seq<Factory>, names: seq<Factory>, stream: seq<real>, off: nat, j: nat)
    requires j < |fl| && fl[j] in names
    requires off + ServedCount(fl, names) <= |stream|
    ensures off + ServedBefore(fl, names, j) < |stream|
  {
    ServedCountBound(fl, names, j);
  }

  /** A product's inbound slots are one row each; a serving slot is one
      column wide and any other slot none, so the product's block spans
      exactly its serving factories. */
  lemma {:induction false} SlotsWidths(fl: seq<Factory>, names: seq<Factory>, stream: seq<real>, off: nat)
    requires off + ServedCount(fl, names) <= |stream|
    ensures forall j :: 0 <= j < |fl| ==> |SlotsUpTo(fl, names, stream, off, |fl|)[j]| == 1
    ensures Widths(SlotsUpTo(fl, names, stream, off, |fl|)) == Indicator(fl, names)
    ensures TotalCols(SlotsUpTo(fl, names, stream, off, |fl|)) == ServedCount(fl, names)
  {
    var ss := SlotsUpTo(fl, names, stream, off, |fl|);
    forall j | 0 <= j < |fl|
      ensures Width(ss[j]) == Indicator(fl, names)[j]
    {
      if fl[j] in names {
        SlotInStream(fl, names, stream, off, j);
      }
    }
  }

  /** Every inbound slot is one row, so product i's block diagonal has one
      row per factory slot. */
  lemma {:induction false} InboundShape(fl: seq<Factory>, names: seq<seq<Factory>>, stream: seq<real>, m: nat)
    requires m <= |names|
    ensures OneRowPieces(InboundBlocks(fl, names, stream, m), |fl|)
    ensures forall a :: 0 <= a < m ==> |Outer(InboundBlocks(fl, names, stream, m))[a]| == |fl|
  {
    var blocks := InboundBlocks(fl, names, stream, m);
    forall a | 0 <= a < m
      ensures |Outer(blocks)[a]| == |fl|
    {
      OneRowBlockShape(blocks[a]);
    }
  }

  /** The inbound combination matrix of the first m products: the block
      diagonal of every product's block diagonal of slots, negated. */
  function InboundMatrix(fl: seq<Factory>, names: seq<seq<Factory>>, stream: seq<real>, m: nat): Matrix
    requires m <= |names|
  {
    Neg(BlockDiag(Outer(InboundBlocks(fl, names, stream, m))))
  }

  /** The inbound matrix split into one slice of |fl| rows per product. */
  function InboundSlices(fl: seq<Factory>, names: seq<seq<Factory>>, stream: seq<real>, m: nat): (ss: seq<Matrix>)
    requires m <= |names|
    ensures |ss| == m
    ensures forall i :: 0 <= i < m ==> |ss[i]| == |fl|
  {
    InboundShape(fl, names, stream, m);
    SplitBlockDiag(Outer(InboundBlocks(fl, names, stream, m)), |fl|);
    Chunks(InboundMatrix(fl, names, stream, m), m, |fl|)
  }

  /** Product i's slice is exactly its own block with its padding, negated. */
  lemma {:induction false} InboundSlicesPlaced(fl: seq<Factory>, names: seq<seq<Factory>>, stream: seq<real>, m: nat, i: nat)
    requires i < m <= |names|
    ensures InboundSlices(fl, names, stream, m)[i] == Neg(Placed(Outer(InboundBlocks(fl, names, stream, m)), i))
  {
    InboundShape(fl, names, stream, m);
    SplitBlockDiag(Outer(InboundBlocks(fl, names, stream, m)), |fl|);
  }

  /** Product i's inbound block spans one column per serving slot. */
  lemma {:induction false} InboundBlockWidths(fl: seq<Factory>, names: seq<seq<Factory>>, stream: seq<real>, m: nat, i: nat)
    requires i < m <= |names|
    requires PrefixSum(ServedCounts(fl, names), m) <= |stream|
    ensures Widths(InboundBlocks(fl, names, stream, m)[i]) == Indicator(fl, names[i])
    ensures TotalCols(InboundBlocks(fl, names, stream, m)[i]) == ServedCounts(fl, names)[i]
  {
    var sc := ServedCounts(fl, names);
    PrefixStep(sc, i, m);
    SlotsWidths(fl, names[i], stream, PrefixSum(sc, i));
  }

  /** The column layout of the nested block diagonal of accepted inbound
      pieces: product i's columns start after the serving slots of all
      products before it. */
  lemma {:induction false} InboundColumns(fl: seq<Factory>, names: seq<seq<Factory>>, stream: seq<real>, m: nat)
    requires |fl| > 0 && m <= |names|
    requires PrefixSum(ServedCounts(fl, names), m) <= |stream|
    ensures forall i :: 0 <= i <= m ==> ColOffset(Outer(InboundBlocks(fl, names, stream, m)), i) == PrefixSum(ServedCounts(fl, names), i)
    ensures TotalCols(Outer(InboundBlocks(fl, names, stream, m))) == PrefixSum(ServedCounts(fl, names), m)
  {
    var sc := ServedCounts(fl, names);
    var blocks := InboundBlocks(fl, names, stream, m);
    InboundShape(fl, names, stream, m);
    NestedShape(blocks, |fl|);
    var ws := Widths(Outer(blocks));
    forall i | 0 <= i < m
      ensures ws[i] == sc[i]
    {
      InboundBlockWidths(fl, names, stream, m, i);
    }
    forall i | 0 <= i <= m
      ensures PrefixSum(ws, i) == PrefixSum(sc, i)
    {
      PrefixSumAgree(ws, sc, i);
    }
  }

  /** Slot j of product i in the accepted inbound pieces. */
  lemma {:induction false} InboundPiece(fl: seq<Factory>, names: seq<seq<Factory>>, stream: seq<real>, m: nat, i: nat, j: nat)
    requires m <= |names|
    requires PrefixSum(ServedCounts(fl, names), m) <= |stream|
    requires i < m && j < |fl|
    ensures fl[j] in names[i] ==>
              PrefixSum(ServedCounts(fl, names), i) + ServedBefore(fl, names[i], j) < PrefixSum(ServedCounts(fl, names), m)
              && InboundBlocks(fl, names, stream, m)[i][j]
                 == [[stream[PrefixSum(ServedCounts(fl, names), i) + ServedBefore(fl, names[i], j)]]]
    ensures fl[j] !in names[i] ==> InboundBlocks(fl, names, stream, m)[i][j] == [[]]
  {
    var sc := ServedCounts(fl, names);
    var off := PrefixSum(sc, i);
    assert InboundBlocks(fl, names, stream, m)[i][j] == Slot(fl, names[i], stream, off, j);
    if fl[j] in names[i] {
      var k := off + ServedBefore(fl, names[i], j);
      PrefixStep(sc, i, m);
      ServedCountBound(fl, names[i], j);
      assert k < off + sc[i] <= PrefixSum(sc, m);
      SlotInStream(fl, names[i], stream, off, j);
      assert Slot(fl, names[i], stream, off, j) == [[stream[k]]];
    }
  }

  /** The column of the inbound matrix that belongs to slot (i, j): the
      position of its efficiency in the stream. */
  function InboundColumn(fl: seq<Factory>, names: seq<seq<Factory>>, i: nat, j: nat): nat
    requires i < |names| && j <= |fl|
  {
    PrefixSum(ServedCounts(fl, names), i) + ServedBefore(fl, names[i], j)
  }

  /** Row j of product i's inbound slice is slot (i, j) negated, padded on
      the left by the serving slots before it in stream order. */
  lemma {:induction false} InboundSlotRow(fl: seq<Factory>, names: seq<seq<Factory>>, stream: seq<real>, m: nat, i: nat, j: nat)
      returns (a: nat, x: Row, c: nat)
    requires |fl| > 0 && m <= |names|
    requires PrefixSum(ServedCounts(fl, names), m) <= |stream|
    requires i < m && j < |fl|
    ensures |InboundBlocks(fl, names, stream, m)[i][j]| == 1
    ensures a == PrefixSum(ServedCounts(fl, names), i) + ServedBefore(fl, names[i], j)
    ensures x == InboundBlocks(fl, names, stream, m)[i][j][0]
    ensures |x| == if fl[j] in names[i] then 1 else 0
    ensures a + |x| + c == PrefixSum(ServedCounts(fl, names), m)
    ensures InboundSlices(fl, names, stream, m)[i][j] == NegRow(Zeros(a) + x + Zeros(c))
  {
    var blocks := InboundBlocks(fl, names, stream, m);
    InboundShape(fl, names, stream, m);
    InboundColumns(fl, names, stream, m);
    InboundBlockWidths(fl, names, stream, m, i);
    InboundSlicesPlaced(fl, names, stream, m, i);
    NestedRow(blocks, |fl|, i, j);
    var sc := ServedCounts(fl, names);
    x := blocks[i][j][0];
    a := PrefixSum(sc, i) + ServedBefore(fl, names[i], j);
    assert ColOffset(blocks[i], j) == ServedBefore(fl, names[i], j);
    assert ColOffset(Outer(blocks), i) == PrefixSum(sc, i);
    assert TotalCols(Outer(blocks)) == PrefixSum(sc, m);
    c := PrefixSum(sc, m) - a - |x|;
    var row := Placed(Outer(blocks), i)[j];
    assert row == Zeros(a) + x + Zeros(c);
    assert InboundSlices(fl, names, stream, m)[i][j] == NegRow(row);
  }

  /** Row j of product i's inbound slice when factory slot j serves the
      product: its negated efficiency, in the column numbered by its position
      in the efficiency stream. */
  lemma {:induction false} InboundServedRow(fl: seq<Factory>, names: seq<seq<Factory>>, stream: seq<real>, m: nat, i: nat, j: nat)
    requires |fl| > 0 && m <= |names|
    requires PrefixSum(ServedCounts(fl, names), m) <= |stream|
    requires i < m && j < |fl| && fl[j] in names[i]
    ensures InboundColumn(fl, names, i, j) < PrefixSum(ServedCounts(fl, names), m)
    ensures InboundSlices(fl, names, stream, m)[i][j]
         == NegRow(Spike(PrefixSum(ServedCounts(fl, names), m), InboundColumn(fl, names, i, j), stream[InboundColumn(fl, names, i, j)]))
  {
    var total := PrefixSum(ServedCounts(fl, names), m);
    var a, x, c := InboundSlotRow(fl, names, stream, m, i, j);
    InboundPiece(fl, names, stream, m, i, j);
    NegPaddedSpike(InboundSlices(fl, names, stream, m)[i][j], a, x, c, total, stream[a]);
  }

  /** Row j of product i's inbound slice is all zero when factory slot j does
      not serve the product. */
  lemma {:induction false} InboundIdleRow(fl: seq<Factory>, names: seq<seq<Factory>>, stream: seq<real>, m: nat, i: nat, j: nat)
    requires |fl| > 0 && m <= |names|
    requires PrefixSum(ServedCounts(fl, names), m) <= |stream|
    requires i < m && j < |fl| && fl[j] !in names[i]
    ensures InboundSlices(fl, names, stream, m)[i][j] == Zeros(PrefixSum(ServedCounts(fl, names), m))
  {
    var total := PrefixSum(ServedCounts(fl, names), m);
    var a, x, c := InboundSlotRow(fl, names, stream, m, i, j);
    NegPaddedEmpty(InboundSlices(fl, names, stream, m)[i][j], a, x, c, total);
  }

  /** The inbound matrix has one row per (product, factory slot) and one
      column per serving slot of the first m products. */
  lemma {:induction false} InboundMatrixShape(fl: seq<Factory>, names: seq<seq<Factory>>, stream: seq<real>, m: nat)
    requires |fl| > 0 && m <= |names|
    requires PrefixSum(ServedCounts(fl, names), m) <= |stream|
    ensures |InboundMatrix(fl, names, stream, m)| == m * |fl|
    ensures m > 0 ==> |InboundMatrix(fl, names, stream, m)| > 0
    ensures Rect(InboundMatrix(fl, names, stream, m), PrefixSum(ServedCounts(fl, names), m))
  {
    var blocks := InboundBlocks(fl, names, stream, m);
    var bs := Outer(blocks);
    InboundShape(fl, names, stream, m);
    SplitBlockDiag(bs, |fl|);
    InboundColumns(fl, names, stream, m);
    forall a | 0 <= a < m
      ensures Rect(bs[a], Width(bs[a]))
    {
      OneRowBlockShape(blocks[a]);
    }
    BlockDiagShape(bs);
    NegShape(BlockDiag(bs), |BlockDiag(bs)|, TotalCols(bs));
    if m > 0 {
      PositiveProduct(m, |fl|);
    }
  }

  // ---------------------------------------------------------------------------
  // Outbound side

  /** The number of customers of product i, as the customer-size table
      holds it (only read for a product that has a serving factory). */
  function CustomersOf(cs: seq<nat>, i: nat): nat
  {
    if i < |cs| then cs[i] else 0
  }

  /** Factory slot j of a product with `c` customers: a serving slot holds
      a row of c ones (one per shipment variable), any other slot the empty
      1x0 block. */
  function OutboundSlot(fl: seq<Factory>, names: seq<Factory>, c: nat, j: nat): Matrix
    requires j < |fl|
  {
    if fl[j] in names then [Ones(c)] else [[]]
  }

  function OutboundSlots(fl: seq<Factory>, names: seq<Factory>, c: nat): (ss: seq<Matrix>)
    ensures |ss| == |fl|
  {
    seq(|fl|, j requires 0 <= j < |fl| => OutboundSlot(fl, names, c, j))
  }

  function OutboundBlocks(fl: seq<Factory>, names: seq<seq<Factory>>, cs: seq<nat>, m: nat): (bs: seq<seq<Matrix>>)
    requires m <= |names|
    ensures |bs| == m
  {
    seq(m, i requires 0 <= i < m => OutboundSlots(fl, names[i], CustomersOf(cs, i)))
  }

  /** The outbound columns of each product: one per (serving factory, customer). */
  function OutboundWidths(fl: seq<Factory>, names: seq<seq<Factory>>, cs: seq<nat>): (ws: seq<nat>)
    ensures |ws| == |names|
    ensures forall i :: 0 <= i < |names| ==> ws[i] == ServedCount(fl, names[i]) * CustomersOf(cs, i)
  {
    seq(|names|, i requires 0 <= i < |names| => ServedCount(fl, names[i]) * CustomersOf(cs, i))
  }

  /** The first column of slot (i, j) in the outbound matrix: the columns of
      the products before i, then c columns for each serving slot of
      product i before j. */
  function OutboundColumn(fl: seq<Factory>, names: seq<seq<Factory>>, cs: seq<nat>, i: nat, j: nat): nat
    requires i < |names| && j <= |fl|
  {
    PrefixSum(OutboundWidths(fl, names, cs), i) + ServedBefore(fl, names[i], j) * CustomersOf(cs, i)
  }

  function OutboundMatrix(fl: seq<Factory>, names: seq<seq<Factory>>, cs: seq<nat>, m: nat): Matrix
    requires m <= |names|
  {
    BlockDiag(Outer(OutboundBlocks(fl, names, cs, m)))
  }

  lemma {:induction false} OutboundShape(fl: seq<Factory>, names: seq<seq<Factory>>, cs: seq<nat>, m: nat)
    requires m <= |names|
    ensures OneRowPieces(OutboundBlocks(fl, names, cs, m), |fl|)
    ensures forall a :: 0 <= a < m ==> |Outer(OutboundBlocks(fl, names, cs, m))[a]| == |fl|
  {
    var blocks := OutboundBlocks(fl, names, cs, m);
    forall a | 0 <= a < m
      ensures |Outer(blocks)[a]| == |fl|
    {
      OneRowBlockShape(blocks[a]);
    }
  }

  /** The outbound matrix split into one slice of |fl| rows per product. */
  function OutboundSlices(fl: seq<Factory>, names: seq<seq<Factory>>, cs: seq<nat>, m: nat): (ss: seq<Matrix>)
    requires m <= |names|
    ensures |ss| == m
    ensures forall i :: 0 <= i < m ==> |ss[i]| == |fl|
  {
    OutboundShape(fl, names, cs, m);
    SplitBlockDiag(Outer(OutboundBlocks(fl, names, cs, m)), |fl|);
    Chunks(OutboundMatrix(fl, names, cs, m), m, |fl|)
  }

  lemma {:induction false} OutboundSlicesPlaced(fl: seq<Factory>, names: seq<seq<Factory>>, cs: seq<nat>, m: nat, i: nat)
    requires i < m <= |names|
    ensures OutboundSlices(fl, names, cs, m)[i] == Placed(Outer(OutboundBlocks(fl, names, cs, m)), i)
  {
    OutboundShape(fl, names, cs, m);
    SplitBlockDiag(Outer(OutboundBlocks(fl, names, cs, m)), |fl|);
  }

  /** A product's outbound slots: a serving slot is c columns wide and any
      other none, so slot j starts after c columns per serving slot before it. */
  lemma {:induction false} OutboundSlotsWidths(fl: seq<Factory>, names: seq<Factory>, c: nat)
    ensures forall j :: 0 <= j <= |fl| ==> ColOffset(OutboundSlots(fl, names, c), j) == ServedBefore(fl, names, j) * c
    ensures TotalCols(OutboundSlots(fl, names, c)) == ServedCount(fl, names) * c
  {
    var ss := OutboundSlots(fl, names, c);
    var ind := Indicator(fl, names);
    forall j | 0 <= j < |fl|
      ensures Widths(ss)[j] == ind[j] * c
    {
    }
    forall j | 0 <= j <= |fl|
      ensures ColOffset(ss, j) == ServedBefore(fl, names, j) * c
    {
      PrefixSumScale(ind, Widths(ss), c, j);
    }
    assert TotalCols(ss) == ColOffset(ss, |fl|);
  }

  lemma {:induction false} OutboundColumns(fl: seq<Factory>, names: seq<seq<Factory>>, cs: seq<nat>, m: nat)
    requires |fl| > 0 && m <= |names|
    ensures forall i :: 0 <= i <= m ==> ColOffset(Outer(OutboundBlocks(fl, names, cs, m)), i) == PrefixSum(OutboundWidths(fl, names, cs), i)
    ensures TotalCols(Outer(OutboundBlocks(fl, names, cs, m))) == PrefixSum(OutboundWidths(fl, names, cs), m)
  {
    var blocks := OutboundBlocks(fl, names, cs, m);
    var ow := OutboundWidths(fl, names, cs);
    OutboundShape(fl, names, cs, m);
    var ws := Widths(Outer(blocks));
    forall i | 0 <= i < m
      ensures ws[i] == ow[i]
    {
      OneRowBlockShape(blocks[i]);
      OutboundSlotsWidths(fl, names[i], CustomersOf(cs, i));
    }
    forall i | 0 <= i <= m
      ensures PrefixSum(ws, i) == PrefixSum(ow, i)
    {
      PrefixSumAgree(ws, ow, i);
    }
  }

  /** Row j of product i's outbound slice is slot (i, j) padded on the left
      by the columns of every slot before it. */
  lemma {:induction false} OutboundSlotRow(fl: seq<Factory>, names: seq<seq<Factory>>, cs: seq<nat>, m: nat, i: nat, j: nat)
      returns (a: nat, x: Row, c: nat)
    requires |fl| > 0 && m <= |names|
    requires i < m && j < |fl|
    ensures a == OutboundColumn(fl, names, cs, i, j)
    ensures x == (if fl[j] in names[i] then Ones(CustomersOf(cs, i)) else [])
    ensures a + |x| + c == PrefixSum(OutboundWidths(fl, names, cs), m)
    ensures OutboundSlices(fl, names, cs, m)[i][j] == Zeros(a) + x + Zeros(c)
  {
    var blocks := OutboundBlocks(fl, names, cs, m);
    OutboundShape(fl, names, cs, m);
    OutboundColumns(fl, names, cs, m);
    OutboundSlotsWidths(fl, names[i], CustomersOf(cs, i));
    OutboundSlicesPlaced(fl, names, cs, m, i);
    NestedRow(blocks, |fl|, i, j);
    var ow := OutboundWidths(fl, names, cs);
    x := blocks[i][j][0];
    a := PrefixSum(ow, i) + ServedBefore(fl, names[i], j) * CustomersOf(cs, i);
    assert ColOffset(blocks[i], j) == ServedBefore(fl, names[i], j) * CustomersOf(cs, i);
    assert ColOffset(Outer(blocks), i) == PrefixSum(ow, i);
    assert TotalCols(Outer(blocks)) == PrefixSum(ow, m);
    c := PrefixSum(ow, m) - a - |x|;
    var row := Placed(Outer(blocks), i)[j];
    assert row == Zeros(a) + x + Zeros(c);
  }

  /** Row j of product i's outbound slice when factory slot j serves the
      product: ones over that factory's shipment columns, zeros elsewhere. */
  lemma {:induction false} OutboundServedRow(fl: seq<Factory>, names: seq<seq<Factory>>, cs: seq<nat>, m: nat, i: nat, j: nat)
    requires |fl| > 0 && m <= |names|
    requires i < m && j < |fl| && fl[j] in names[i]
    ensures OutboundColumn(fl, names, cs, i, j) + CustomersOf(cs, i) <= PrefixSum(OutboundWidths(fl, names, cs), m)
    ensures OutboundSlices(fl, names, cs, m)[i][j]
         == Band(PrefixSum(OutboundWidths(fl, names, cs), m), OutboundColumn(fl, names, cs, i, j), CustomersOf(cs, i))
  {
    var a, x, c := OutboundSlotRow(fl, names, cs, m, i, j);
    PaddedBand(OutboundSlices(fl, names, cs, m)[i][j], a, x, c, PrefixSum(OutboundWidths(fl, names, cs), m), CustomersOf(cs, i));
  }

  /** Row j of product i's outbound slice is all zero when factory slot j
      does not serve the product. */
  lemma {:induction false} OutboundIdleRow(fl: seq<Factory>, names: seq<seq<Factory>>, cs: seq<nat>, m: nat, i: nat, j: nat)
    requires |fl| > 0 && m <= |names|
    requires i < m && j < |fl| && fl[j] !in names[i]
    ensures OutboundSlices(fl, names, cs, m)[i][j] == Zeros(PrefixSum(OutboundWidths(fl, names, cs), m))
  {
    var a, x, c := OutboundSlotRow(fl, names, cs, m, i, j);
    PaddedEmpty(OutboundSlices(fl, names, cs, m)[i][j], a, x, c, PrefixSum(OutboundWidths(fl, names, cs), m));
  }

  /** The outbound matrix has one row per (product, factory slot) and one
      column per (serving factory, customer) of the first m products. */
  lemma {:induction false} OutboundMatrixShape(fl: seq<Factory>, names: seq<seq<Factory>>, cs: seq<nat>, m: nat)
    requires |fl| > 0 && m <= |names|
    ensures |OutboundMatrix(fl, names, cs, m)| == m * |fl|
    ensures m > 0 ==> |OutboundMatrix(fl, names, cs, m)| > 0
    ensures Rect(OutboundMatrix(fl, names, cs, m), PrefixSum(OutboundWidths(fl, names, cs), m))
  {
    var blocks := OutboundBlocks(fl, names, cs, m);
    var bs := Outer(blocks);
    OutboundShape(fl, names, cs, m);
    SplitBlockDiag(bs, |fl|);
    OutboundColumns(fl, names, cs, m);
    forall a | 0 <= a < m
      ensures Rect(bs[a], Width(bs[a]))
    {
      OneRowBlockShape(blocks[a]);
    }
    BlockDiagShape(bs);
    if m > 0 {
      PositiveProduct(m, |fl|);
    }
  }

  // ---------------------------------------------------------------------------
  // generate_combination_matrices

  /** No product lists more factory names than the factory list holds. */
  predicate NamesFit(fl: seq<Factory>, names: seq<seq<Factory>>)
  {
    forall k :: 0 <= k < |names| ==> |names[k]| <= |fl|
  }

  /** Every one of the first m products with a serving factory has a
      customer count. */
  predicate CustomersKnown(fl: seq<Factory>, names: seq<seq<Factory>>, cs: seq<nat>, m: nat)
    requires m <= |names|
  {
    forall i :: 0 <= i < m && ServedCount(fl, names[i]) > 0 ==> i < |cs|
  }

  /** The inputs generate_combination_matrices accepts, stated on the inputs:
      non-empty lists, positive efficiencies, no product with too many
      factory names, factory names for every product, customer counts
      where they are read, and dimensions that match the columns the
      matrices get. The efficiencies are one stream, all products' lists
      joined in product order, so only their total is checked: it must
      cover the serving slots of all products together. */
  predicate CombinationAccepted(pl: seq<Product>, fl: seq<Factory>, names: seq<seq<Factory>>, eff: seq<Row>, d: Dims)
  {
    |pl| > 0 && |fl| > 0 && |eff| > 0
    && AllPositive(Concat(eff)) && NamesFit(fl, names)
    && |pl| <= |names|
    && PrefixSum(ServedCounts(fl, names), |pl|) <= |Concat(eff)|
    && CustomersKnown(fl, names, d.customerSizes, |pl|)
    && PrefixSum(ServedCounts(fl, names), |pl|) == d.dimF
    && PrefixSum(OutboundWidths(fl, names, d.customerSizes), |pl|) == d.dimFC
  }

  /** generate_combination_matrices: validates the inputs, builds the
      inbound matrix by drawing the efficiencies in order, builds the
      outbound matrix, checks both shapes against (|fl| * |pl|, dimF) and
      (|fl| * |pl|, dimFC), and splits each into one slice per product. */
  function CombinationMatrices(pl: seq<Product>, fl: seq<Factory>, names: seq<seq<Factory>>, eff: seq<Row>, d: Dims): (r: Result<Combination>)
    ensures r.Ok? <==> CombinationAccepted(pl, fl, names, eff, d)
    ensures |pl| == 0 ==> r == Err(EmptyProductList)
    ensures r.Ok? ==> |r.value.inbound| == |pl| && |r.value.outbound| == |pl|
    ensures r.Ok? ==> forall i :: 0 <= i < |pl| ==> |r.value.inbound[i]| == |fl| && |r.value.outbound[i]| == |fl|
  {
    if |pl| == 0 then Err(EmptyProductList)
    else if |fl| == 0 then Err(EmptyFactoryList)
    else if |eff| == 0 then Err(EmptyConcatenation)
    else
      var stream := Concat(eff);
      if !AllPositive(stream) then Err(NonPositiveEfficiency)
      else if !NamesFit(fl, names) then Err(TooManyFactoryNames)
      else
        var drawn :- ProductSlots(fl, names, stream, |pl|);
        if !CustomersKnown(fl, names, d.customerSizes, |pl|) then Err(MissingKey)
        else
          var inM := Neg(BlockDiag(Outer(drawn.blocks)));
          var outM := OutboundMatrix(fl, names, d.customerSizes, |pl|);
          assert inM == InboundMatrix(fl, names, stream, |pl|);
          InboundMatrixShape(fl, names, stream, |pl|);
          OutboundMatrixShape(fl, names, d.customerSizes, |pl|);
          RectUnique(inM, PrefixSum(ServedCounts(fl, names), |pl|), d.dimF);
          RectUnique(outM, PrefixSum(OutboundWidths(fl, names, d.customerSizes), |pl|), d.dimFC);
          if |inM| != |pl| * |fl| || !Rect(inM, d.dimF) then Err(ShapeMismatch)
          else if |outM| != |pl| * |fl| || !Rect(outM, d.dimFC) then Err(ShapeMismatch)
          else Ok(Combination(Chunks(inM, |pl|, |fl|), Chunks(outM, |pl|, |fl|)))
  }

  /** On acceptance the slices are the reference slices: the efficiency
      stream is the concatenation of every product's efficiencies. */
  lemma {:induction false} CombinationParts(pl: seq<Product>, fl: seq<Factory>, names: seq<seq<Factory>>, eff: seq<Row>, d: Dims)
    requires CombinationAccepted(pl, fl, names, eff, d)
    ensures |pl| <= |names| && |fl| > 0
    ensures CombinationMatrices(pl, fl, names, eff, d).value.inbound == InboundSlices(fl, names, Concat(eff), |pl|)
    ensures CombinationMatrices(pl, fl, names, eff, d).value.outbound == OutboundSlices(fl, names, d.customerSizes, |pl|)
  {
  }

  /** Stacking the slices back in product order gives the unsplit matrices. */
  lemma {:induction false} CombinationRoundTrip(pl: seq<Product>, fl: seq<Factory>, names: seq<seq<Factory>>, eff: seq<Row>, d: Dims)
    requires CombinationAccepted(pl, fl, names, eff, d)
    ensures |pl| <= |names|
    ensures Concat(CombinationMatrices(pl, fl, names, eff, d).value.inbound) == InboundMatrix(fl, names, Concat(eff), |pl|)
    ensures Concat(CombinationMatrices(pl, fl, names, eff, d).value.outbound) == OutboundMatrix(fl, names, d.customerSizes, |pl|)
  {
    CombinationParts(pl, fl, names, eff, d);
    InboundMatrixShape(fl, names, Concat(eff), |pl|);
    OutboundMatrixShape(fl, names, d.customerSizes, |pl|);
    ChunksRoundTrip(InboundMatrix(fl, names, Concat(eff), |pl|), |pl|, |fl|);
    ChunksRoundTrip(OutboundMatrix(fl, names, d.customerSizes, |pl|), |pl|, |fl|);
  }

  /** Row j of product i's inbound matrix: when factory j serves product i,
      minus the efficiency at the slot's stream position, in the production
      column with that number; all zero otherwise. */
  lemma {:induction false} CombinationInboundRow(pl: seq<Product>, fl: seq<Factory>, names: seq<seq<Factory>>, eff: seq<Row>, d: Dims, i: nat, j: nat)
    requires CombinationAccepted(pl, fl, names, eff, d)
    requires i < |pl| && j < |fl|
    ensures i < |names|
    ensures fl[j] in names[i] ==>
              InboundColumn(fl, names, i, j) < d.dimF && InboundColumn(fl, names, i, j) < |Concat(eff)|
              && CombinationMatrices(pl, fl, names, eff, d).value.inbound[i][j]
                 == NegRow(Spike(d.dimF, InboundColumn(fl, names, i, j), Concat(eff)[InboundColumn(fl, names, i, j)]))
    ensures fl[j] !in names[i] ==> CombinationMatrices(pl, fl, names, eff, d).value.inbound[i][j] == Zeros(d.dimF)
  {
    CombinationParts(pl, fl, names, eff, d);
    if fl[j] in names[i] {
      InboundServedRow(fl, names, Concat(eff), |pl|, i, j);
    } else {
      InboundIdleRow(fl, names, Concat(eff), |pl|, i, j);
    }
  }

  /** Row j of product i's outbound matrix: when factory j serves product i,
      ones over that factory's shipment columns (one per customer of the
      product), zeros elsewhere; all zero otherwise. */
  lemma {:induction false} CombinationOutboundRow(pl: seq<Product>, fl: seq<Factory>, names: seq<seq<Factory>>, eff: seq<Row>, d: Dims, i: nat, j: nat)
    requires CombinationAccepted(pl, fl, names, eff, d)
    requires i < |pl| && j < |fl|
    ensures i < |names|
    ensures fl[j] in names[i] ==>
              i < |d.customerSizes|
              && OutboundColumn(fl, names, d.customerSizes, i, j) + d.customerSizes[i] <= d.dimFC
              && CombinationMatrices(pl, fl, names, eff, d).value.outbound[i][j]
                 == Band(d.dimFC, OutboundColumn(fl, names, d.customerSizes, i, j), d.customerSizes[i])
    ensures fl[j] !in names[i] ==> CombinationMatrices(pl, fl, names, eff, d).value.outbound[i][j] == Zeros(d.dimFC)
  {
    CombinationParts(pl, fl, names, eff, d);
    if fl[j] in names[i] {
      ServedCountBound(fl, names[i], j);
      PrefixSumMonotone(Indicator(fl, names[i]), j + 1, |fl|);
      OutboundServedRow(fl, names, d.customerSizes, |pl|, i, j);
    } else {
      OutboundIdleRow(fl, names, d.customerSizes, |pl|, i, j);
    }
  }

  /** When every product's efficiency list has one value per serving factory,
      the value at slot (i, j)'s stream position is product i's efficiency
      for its k-th serving factory, k counting the serving factories before
      slot j in factory-list order. */
  lemma {:induction false} EfficiencyOfSlot(fl: seq<Factory>, names: seq<seq<Factory>>, eff: seq<Row>, i: nat, j: nat)
    requires i < |names| && i < |eff| && j < |fl| && fl[j] in names[i]
    requires forall k :: 0 <= k <= i ==> |eff[k]| == ServedCount(fl, names[k])
    ensures ServedBefore(fl, names[i], j) < |eff[i]|
    ensures InboundColumn(fl, names, i, j) < |Concat(eff)|
    ensures Concat(eff)[InboundColumn(fl, names, i, j)] == eff[i][ServedBefore(fl, names[i], j)]
  {
    ServedCountBound(fl, names[i], j);
    PrefixSumAgree(ServedCounts(fl, names), Lengths(eff), i);
    ConcatIndex(eff, i, ServedBefore(fl, names[i], j));
  }
}
