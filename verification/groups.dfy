/** Product groups, shared by the capacity and supply builders: their
    validation, the element-wise sum of the group members' per-product
    matrices, and the set of factories a group uses. */
module Groups {
  import opened Seqs
  import opened Matrices
  import opened Failures
  import opened Network
  import opened Preprocessing
  import opened Combination
  import opened Sorting

  // ---------------------------------------------------------------------------
  // Validation

  /** Two groups compare equal once sorted, as the program compares them
      (as tuples of the sorted groups). */
  predicate SameProducts(g: seq<Product>, h: seq<Product>)
  {
    Sort(g) == Sort(h)
  }

  /** Some two groups at different positions hold the same products. */
  predicate RepeatsGroup(gs: seq<seq<Product>>)
  {
    exists a, b :: 0 <= a < b < |gs| && SameProducts(gs[a], gs[b])
  }

  predicate HasEmptyGroup(gs: seq<seq<Product>>)
  {
    exists g :: 0 <= g < |gs| && |gs[g]| == 0
  }

  /** Some group names a product twice. */
  predicate RepeatsProduct(gs: seq<seq<Product>>)
  {
    exists g :: 0 <= g < |gs| && !Distinct(gs[g])
  }

  /** Every group names only products of the product list. */
  predicate AllKnown(pl: seq<Product>, gs: seq<seq<Product>>)
  {
    forall g, t :: 0 <= g < |gs| && 0 <= t < |gs[g]| ==> gs[g][t] in pl
  }

  /** The groups a builder accepts. */
  predicate ValidGroups(pl: seq<Product>, gs: seq<seq<Product>>)
  {
    |gs| > 0 && !HasEmptyGroup(gs) && !RepeatsGroup(gs) && !RepeatsProduct(gs) && AllKnown(pl, gs)
  }

  /** The group checks in the program's order: at least one group, no empty
      group, no two groups with the same products, no product twice in one
      group, no product outside the product list. Each error is reported
      exactly when its check is the first to fail. */
  function ValidateGroups(pl: seq<Product>, gs: seq<seq<Product>>): (r: Outcome)
    ensures r.Pass? <==> ValidGroups(pl, gs)
    ensures r == Fail(EmptyGroupList) <==> |gs| == 0
    ensures r == Fail(EmptyGroup) <==> |gs| > 0 && HasEmptyGroup(gs)
    ensures r == Fail(RepeatedGroup) <==> |gs| > 0 && !HasEmptyGroup(gs) && RepeatsGroup(gs)
    ensures r == Fail(RepeatedProduct) <==>
              |gs| > 0 && !HasEmptyGroup(gs) && !RepeatsGroup(gs) && RepeatsProduct(gs)
    ensures r == Fail(UnknownProduct) <==>
              |gs| > 0 && !HasEmptyGroup(gs) && !RepeatsGroup(gs) && !RepeatsProduct(gs) && !AllKnown(pl, gs)
    ensures r.Fail? ==> r.error in {EmptyGroupList, EmptyGroup, RepeatedGroup, RepeatedProduct, UnknownProduct}
  {
    if |gs| == 0 then Fail(EmptyGroupList)
    else if HasEmptyGroup(gs) then Fail(EmptyGroup)
    else if RepeatsGroup(gs) then Fail(RepeatedGroup)
    else if RepeatsProduct(gs) then Fail(RepeatedProduct)
    else if !AllKnown(pl, gs) then Fail(UnknownProduct)
    else Pass
  }

  /** The program's repeated-group test compares sorted groups: two groups
      sort alike exactly when they hold the same products the same number of
      times, so the order within a group never hides or invents a repeat. */
  lemma {:induction false} SameProductsMultiset(g: seq<Product>, h: seq<Product>)
    ensures SameProducts(g, h) <==> multiset(g) == multiset(h)
  {
    SortSame(g, h);
  }

  // ---------------------------------------------------------------------------
  // Group sums

  /** The per-product matrices of a builder: one per product, all of the
      same shape. A numpy array keeps its width even without rows, so the
      width is carried alongside. */
  predicate SliceTable(slices: seq<Matrix>, n: nat, rows: nat, cols: nat)
  {
    |slices| == n && forall p :: 0 <= p < n ==> Shape(slices[p], rows, cols)
  }

  /** A per-product table as the builders receive it: the matrices in
      product order and the shape they share. */
  datatype Table = Table(slices: seq<Matrix>, rows: nat, cols: nat) {

    predicate Valid(n: nat)
    {
      SliceTable(slices, n, rows, cols)
    }
  }

  /** Row r of every group member's matrix, in group order. */
  function MemberRows(pl: seq<Product>, slices: seq<Matrix>, g: seq<Product>, rows: nat, cols: nat, r: nat): (xs: seq<Row>)
    requires SliceTable(slices, |pl|, rows, cols)
    requires forall t :: 0 <= t < |g| ==> g[t] in pl
    requires r < rows
    ensures |xs| == |g|
    ensures forall t :: 0 <= t < |g| ==> xs[t] == slices[IndexOf(pl, g[t])][r] && |xs[t]| == cols
  {
    seq(|g|, t requires 0 <= t < |g| => slices[IndexOf(pl, g[t])][r])
  }

  /** The element-wise sum of the group members' matrices. */
  function GroupSum(pl: seq<Product>, slices: seq<Matrix>, g: seq<Product>, rows: nat, cols: nat): (s: Matrix)
    requires SliceTable(slices, |pl|, rows, cols)
    requires forall t :: 0 <= t < |g| ==> g[t] in pl
    ensures Shape(s, rows, cols)
  {
    seq(rows, r requires 0 <= r < rows => RowsSum(MemberRows(pl, slices, g, rows, cols, r), cols))
  }

  /** Every group's sum, stacked in group order. */
  function GroupSums(pl: seq<Product>, slices: seq<Matrix>, gs: seq<seq<Product>>, rows: nat, cols: nat): (ss: seq<Matrix>)
    requires SliceTable(slices, |pl|, rows, cols)
    requires AllKnown(pl, gs)
    ensures |ss| == |gs|
    ensures forall g :: 0 <= g < |gs| ==> ss[g] == GroupSum(pl, slices, gs[g], rows, cols)
  {
    seq(|gs|, g requires 0 <= g < |gs| => GroupSum(pl, slices, gs[g], rows, cols))
  }

  function Stacked(pl: seq<Product>, slices: seq<Matrix>, gs: seq<seq<Product>>, rows: nat, cols: nat): (m: Matrix)
    requires SliceTable(slices, |pl|, rows, cols)
    requires AllKnown(pl, gs)
    ensures Rect(m, cols)
  {
    ConcatRect(GroupSums(pl, slices, gs, rows, cols), cols);
    Concat(GroupSums(pl, slices, gs, rows, cols))
  }

  /** The rows a builder keeps from one table: the group sums, stacked in
      group order, without all-zero rows. */
  function KeptRows(pl: seq<Product>, t: Table, gs: seq<seq<Product>>): (m: Matrix)
    requires t.Valid(|pl|) && AllKnown(pl, gs)
    ensures Rect(m, t.cols) && NoZeroRow(m)
  {
    StripZeroRows(Stacked(pl, t.slices, gs, t.rows, t.cols))
  }

  /** A group of one product sums to that product's own matrix. */
  lemma {:induction false} SingletonGroupSum(pl: seq<Product>, slices: seq<Matrix>, p: Product, rows: nat, cols: nat)
    requires SliceTable(slices, |pl|, rows, cols) && p in pl
    ensures GroupSum(pl, slices, [p], rows, cols) == slices[IndexOf(pl, p)]
  {
    var m := slices[IndexOf(pl, p)];
    var s := GroupSum(pl, slices, [p], rows, cols);
    forall r | 0 <= r < rows
      ensures s[r] == m[r]
    {
      var xs := MemberRows(pl, slices, [p], rows, cols, r);
      assert [p][0] == p && xs[0] == m[r];
      assert xs[..0] == [];
      assert s[r] == RowsSum(xs, cols) == AddRow(Zeros(cols), m[r]);
      assert AddRow(Zeros(cols), m[r]) == m[r];
    }
  }

  /** The rows kept for a group of one product are that product's matrix
      without its all-zero rows. */
  lemma {:induction false} SingletonKeptRows(pl: seq<Product>, t: Table, p: Product)
    requires t.Valid(|pl|) && p in pl
    ensures KeptRows(pl, t, [[p]]) == StripZeroRows(t.slices[IndexOf(pl, p)])
  {
    var sums := GroupSums(pl, t.slices, [[p]], t.rows, t.cols);
    SingletonGroupSum(pl, t.slices, p, t.rows, t.cols);
    assert [[p]][0] == [p] && sums[..0] == [];
    assert Concat(sums) == Concat(sums[..0]) + sums[0] == t.slices[IndexOf(pl, p)];
  }

  // ---------------------------------------------------------------------------
  // Factories of a group

  /** Every product the groups name has factory names. */
  predicate NamesKnown(pl: seq<Product>, names: seq<seq<Factory>>, gs: seq<seq<Product>>)
    requires AllKnown(pl, gs)
  {
    forall g, t :: 0 <= g < |gs| && 0 <= t < |gs[g]| ==> IndexOf(pl, gs[g][t]) < |names|
  }

  lemma {:induction false} NamesKnownAligned(pl: seq<Product>, names: seq<seq<Factory>>, gs: seq<seq<Product>>)
    requires AllKnown(pl, gs) && |pl| <= |names|
    ensures NamesKnown(pl, names, gs)
  {
  }

  /** The factories serving at least one product of the group. */
  function FactoryUnion(pl: seq<Product>, names: seq<seq<Factory>>, g: seq<Product>): (u: set<Factory>)
    requires forall t :: 0 <= t < |g| ==> g[t] in pl && IndexOf(pl, g[t]) < |names|
    ensures forall f :: f in u <==> exists t :: 0 <= t < |g| && f in names[IndexOf(pl, g[t])]
  {
    set t, f | 0 <= t < |g| && f in names[IndexOf(pl, g[t])] :: f
  }

  /** The number of rows a builder promises: the sizes of the groups'
      factory unions, added over the groups. */
  function UnionRows(pl: seq<Product>, names: seq<seq<Factory>>, gs: seq<seq<Product>>): nat
    requires AllKnown(pl, gs) && NamesKnown(pl, names, gs)
  {
    if |gs| == 0 then 0
    else
      var n := |gs| - 1;
      UnionRows(pl, names, gs[..n]) + |FactoryUnion(pl, names, gs[n])|
  }

  // ---------------------------------------------------------------------------
  // Which rows of a group sum vanish

  /** One product's matrix has one row per factory slot, all on one side of
      zero, and a row is zero exactly when that factory does not serve the
      product. */
  predicate FollowsService(m: Matrix, fl: seq<Factory>, ns: seq<Factory>, up: bool)
  {
    |m| == |fl| && forall r :: 0 <= r < |fl| ==> Signed(m[r], up) && (IsZero(m[r]) <==> fl[r] !in ns)
  }

  /** Every product's matrix follows the service pattern: what the
      combination matrices guarantee. */
  predicate RowsFollowService(pl: seq<Product>, fl: seq<Factory>, names: seq<seq<Factory>>, slices: seq<Matrix>, cols: nat, up: bool)
  {
    |pl| <= |names| && SliceTable(slices, |pl|, |fl|, cols)
    && forall p :: 0 <= p < |pl| ==> FollowsService(slices[p], fl, names[p], up)
  }

  /** Row r of a group sum is non-zero exactly when factory r serves some
      product of the group. */
  lemma {:induction false} GroupSumMask(pl: seq<Product>, fl: seq<Factory>, names: seq<seq<Factory>>, slices: seq<Matrix>, cols: nat, up: bool, g: seq<Product>)
    requires RowsFollowService(pl, fl, names, slices, cols, up)
    requires forall t :: 0 <= t < |g| ==> g[t] in pl
    ensures Mask(GroupSum(pl, slices, g, |fl|, cols)) == seq(|fl|, r requires 0 <= r < |fl| => fl[r] in FactoryUnion(pl, names, g))
  {
    var s := GroupSum(pl, slices, g, |fl|, cols);
    forall r | 0 <= r < |fl|
      ensures !IsZero(s[r]) <==> fl[r] in FactoryUnion(pl, names, g)
    {
      var xs := MemberRows(pl, slices, g, |fl|, cols, r);
      forall t | 0 <= t < |g|
        ensures Signed(xs[t], up) && (IsZero(xs[t]) <==> fl[r] !in names[IndexOf(pl, g[t])])
      {
        var p := IndexOf(pl, g[t]);
        assert FollowsService(slices[p], fl, names[p], up);
      }
      RowsSumZero(xs, cols, up);
      if fl[r] in FactoryUnion(pl, names, g) {
        var t :| 0 <= t < |g| && fl[r] in names[IndexOf(pl, g[t])];
        assert !IsZero(xs[t]);
      }
    }
  }

  /** A group sum keeps one row per factory of the group's union when every
      factory appears once in the factory list and serves only through it. */
  lemma {:induction false} GroupSumRows(pl: seq<Product>, fl: seq<Factory>, names: seq<seq<Factory>>, slices: seq<Matrix>, cols: nat, up: bool, g: seq<Product>)
    requires RowsFollowService(pl, fl, names, slices, cols, up)
    requires forall t :: 0 <= t < |g| ==> g[t] in pl
    requires Distinct(fl)
    requires forall f :: f in FactoryUnion(pl, names, g) ==> f in fl
    ensures |StripZeroRows(GroupSum(pl, slices, g, |fl|, cols))| == |FactoryUnion(pl, names, g)|
  {
    GroupSumMask(pl, fl, names, slices, cols, up, g);
    StripCount(GroupSum(pl, slices, g, |fl|, cols));
    CountMembers(fl, FactoryUnion(pl, names, g));
  }

  /** For a group of one product whose matrix follows the service pattern,
      the kept rows are one per factory serving that product. */
  lemma {:induction false} SingletonServingRows(pl: seq<Product>, fl: seq<Factory>, names: seq<seq<Factory>>, t: Table, up: bool, p: Product)
    requires RowsFollowService(pl, fl, names, t.slices, t.cols, up) && t.rows == |fl|
    requires p in pl && Distinct(fl)
    requires forall f :: f in names[IndexOf(pl, p)] ==> f in fl
    ensures |KeptRows(pl, t, [[p]])| == |set f | f in names[IndexOf(pl, p)]|
  {
    SingletonKeptRows(pl, t, p);
    SingletonGroupSum(pl, t.slices, p, t.rows, t.cols);
    assert [p][0] == p;
    assert FactoryUnion(pl, names, [p]) == set f | f in names[IndexOf(pl, p)];
    GroupSumRows(pl, fl, names, t.slices, t.cols, up, [p]);
  }

  /** Stripping a stack of matrices strips each one in turn. */
  lemma {:induction false} StripConcat(ms: seq<Matrix>)
    ensures StripZeroRows(Concat(ms)) == Concat(seq(|ms|, g requires 0 <= g < |ms| => StripZeroRows(ms[g])))
  {
    var ss := seq(|ms|, g requires 0 <= g < |ms| => StripZeroRows(ms[g]));
    if |ms| > 0 {
      var n := |ms| - 1;
      StripConcat(ms[..n]);
      StripAppend(Concat(ms[..n]), ms[n]);
      assert ss[..n] == seq(n, g requires 0 <= g < n => StripZeroRows(ms[..n][g]));
    }
  }

  /** The rows kept from the stacked group sums number the union sizes added
      over the groups. */
  lemma {:induction false} StackedRows(pl: seq<Product>, fl: seq<Factory>, names: seq<seq<Factory>>, slices: seq<Matrix>, cols: nat, up: bool, gs: seq<seq<Product>>)
    requires RowsFollowService(pl, fl, names, slices, cols, up)
    requires AllKnown(pl, gs)
    requires Distinct(fl)
    requires forall g :: 0 <= g < |gs| ==> forall f :: f in FactoryUnion(pl, names, gs[g]) ==> f in fl
    ensures |StripZeroRows(Stacked(pl, slices, gs, |fl|, cols))| == UnionRows(pl, names, gs)
  {
    if |gs| > 0 {
      var n := |gs| - 1;
      var sums := GroupSums(pl, slices, gs, |fl|, cols);
      assert sums[..n] == GroupSums(pl, slices, gs[..n], |fl|, cols);
      StackedRows(pl, fl, names, slices, cols, up, gs[..n]);
      StripAppend(Concat(sums[..n]), sums[n]);
      GroupSumRows(pl, fl, names, slices, cols, up, gs[n]);
    }
  }

  /** The stacked group sums of two tables that follow the service pattern,
      one on each side of zero, lose exactly the same rows. */
  lemma {:induction false} StackedMasksAgree(pl: seq<Product>, fl: seq<Factory>, names: seq<seq<Factory>>,
                                             a: seq<Matrix>, ca: nat, b: seq<Matrix>, cb: nat, gs: seq<seq<Product>>)
    requires RowsFollowService(pl, fl, names, a, ca, false)
    requires RowsFollowService(pl, fl, names, b, cb, true)
    requires AllKnown(pl, gs)
    ensures |Stacked(pl, a, gs, |fl|, ca)| == |Stacked(pl, b, gs, |fl|, cb)|
    ensures Mask(Stacked(pl, a, gs, |fl|, ca)) == Mask(Stacked(pl, b, gs, |fl|, cb))
  {
    if |gs| > 0 {
      var n := |gs| - 1;
      var sa := GroupSums(pl, a, gs, |fl|, ca);
      var sb := GroupSums(pl, b, gs, |fl|, cb);
      assert sa[..n] == GroupSums(pl, a, gs[..n], |fl|, ca);
      assert sb[..n] == GroupSums(pl, b, gs[..n], |fl|, cb);
      StackedMasksAgree(pl, fl, names, a, ca, b, cb, gs[..n]);
      GroupSumMask(pl, fl, names, a, ca, false, gs[n]);
      GroupSumMask(pl, fl, names, b, cb, true, gs[n]);
      MaskAppend(Concat(sa[..n]), sa[n]);
      MaskAppend(Concat(sb[..n]), sb[n]);
    }
  }

  lemma {:induction false} MaskAppend(x: Matrix, y: Matrix)
    ensures Mask(x + y) == Mask(x) + Mask(y)
  {
  }

  // ---------------------------------------------------------------------------
  // The combination matrices follow the service pattern

  /** Row r of product p's inbound slice: non-positive, of width dimF, and
      zero exactly when factory r does not serve p (the efficiencies are
      positive). */
  lemma {:induction false} InboundRowService(pl: seq<Product>, fl: seq<Factory>, names: seq<seq<Factory>>, eff: seq<Row>, d: Dims, p: nat, r: nat)
    requires CombinationAccepted(pl, fl, names, eff, d)
    requires p < |pl| && r < |fl|
    ensures p < |names|
    ensures var row := CombinationMatrices(pl, fl, names, eff, d).value.inbound[p][r];
            |row| == d.dimF && NonPos(row) && (IsZero(row) <==> fl[r] !in names[p])
  {
    CombinationInboundRow(pl, fl, names, eff, d, p, r);
    if fl[r] in names[p] {
      var col := InboundColumn(fl, names, p, r);
      assert Concat(eff)[col] > 0.0;
      NegSpikeSign(d.dimF, col, Concat(eff)[col]);
    }
  }

  /** Row r of product p's outbound slice: non-negative, of width dimFC,
      and zero exactly when factory r does not serve p, provided every
      customer count is positive. */
  lemma {:induction false} OutboundRowService(pl: seq<Product>, fl: seq<Factory>, names: seq<seq<Factory>>, eff: seq<Row>, d: Dims, p: nat, r: nat)
    requires CombinationAccepted(pl, fl, names, eff, d)
    requires forall i :: 0 <= i < |d.customerSizes| ==> d.customerSizes[i] > 0
    requires p < |pl| && r < |fl|
    ensures p < |names|
    ensures var row := CombinationMatrices(pl, fl, names, eff, d).value.outbound[p][r];
            |row| == d.dimFC && NonNeg(row) && (IsZero(row) <==> fl[r] !in names[p])
  {
    CombinationOutboundRow(pl, fl, names, eff, d, p, r);
    if fl[r] in names[p] {
      BandSign(d.dimFC, OutboundColumn(fl, names, d.customerSizes, p, r), d.customerSizes[p]);
    }
  }

  /** Product p's inbound slice follows the service pattern. */
  lemma {:induction false} InboundProductService(pl: seq<Product>, fl: seq<Factory>, names: seq<seq<Factory>>, eff: seq<Row>, d: Dims, p: nat)
    requires CombinationAccepted(pl, fl, names, eff, d)
    requires p < |pl|
    ensures p < |names|
    ensures var m := CombinationMatrices(pl, fl, names, eff, d).value.inbound[p];
            Shape(m, |fl|, d.dimF) && FollowsService(m, fl, names[p], false)
  {
    var m := CombinationMatrices(pl, fl, names, eff, d).value.inbound[p];
    forall r | 0 <= r < |fl|
      ensures |m[r]| == d.dimF && NonPos(m[r]) && (IsZero(m[r]) <==> fl[r] !in names[p])
    {
      InboundRowService(pl, fl, names, eff, d, p, r);
    }
  }

  /** Product p's outbound slice follows the service pattern when every
      customer count is positive. */
  lemma {:induction false} OutboundProductService(pl: seq<Product>, fl: seq<Factory>, names: seq<seq<Factory>>, eff: seq<Row>, d: Dims, p: nat)
    requires CombinationAccepted(pl, fl, names, eff, d)
    requires forall i :: 0 <= i < |d.customerSizes| ==> d.customerSizes[i] > 0
    requires p < |pl|
    ensures p < |names|
    ensures var m := CombinationMatrices(pl, fl, names, eff, d).value.outbound[p];
            Shape(m, |fl|, d.dimFC) && FollowsService(m, fl, names[p], true)
  {
    var m := CombinationMatrices(pl, fl, names, eff, d).value.outbound[p];
    forall r | 0 <= r < |fl|
      ensures |m[r]| == d.dimFC && NonNeg(m[r]) && (IsZero(m[r]) <==> fl[r] !in names[p])
    {
      OutboundRowService(pl, fl, names, eff, d, p, r);
    }
  }

  /** The inbound slices of an accepted combination follow the service
      pattern, on the non-positive side. */
  lemma {:induction false} InboundFollowsService(pl: seq<Product>, fl: seq<Factory>, names: seq<seq<Factory>>, eff: seq<Row>, d: Dims)
    requires CombinationAccepted(pl, fl, names, eff, d)
    ensures RowsFollowService(pl, fl, names, CombinationMatrices(pl, fl, names, eff, d).value.inbound, d.dimF, false)
  {
    var ins := CombinationMatrices(pl, fl, names, eff, d).value.inbound;
    forall p | 0 <= p < |pl|
      ensures Shape(ins[p], |fl|, d.dimF) && FollowsService(ins[p], fl, names[p], false)
    {
      InboundProductService(pl, fl, names, eff, d, p);
    }
  }

  /** The outbound slices of an accepted combination follow the service
      pattern, on the non-negative side, when every customer count is
      positive. */
  lemma {:induction false} OutboundFollowsService(pl: seq<Product>, fl: seq<Factory>, names: seq<seq<Factory>>, eff: seq<Row>, d: Dims)
    requires CombinationAccepted(pl, fl, names, eff, d)
    requires forall i :: 0 <= i < |d.customerSizes| ==> d.customerSizes[i] > 0
    ensures RowsFollowService(pl, fl, names, CombinationMatrices(pl, fl, names, eff, d).value.outbound, d.dimFC, true)
  {
    var outs := CombinationMatrices(pl, fl, names, eff, d).value.outbound;
    forall p | 0 <= p < |pl|
      ensures Shape(outs[p], |fl|, d.dimFC) && FollowsService(outs[p], fl, names[p], true)
    {
      OutboundProductService(pl, fl, names, eff, d, p);
    }
  }
}
