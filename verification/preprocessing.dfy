/** The dimension computation that follows input ingestion: per-product factory
    and customer counts and the totals dimF, dimC and dimFC that every
    builder's shape checks are stated against. */
module Preprocessing {
  import opened Seqs
  import opened Failures
  import opened Network

  /** Per-product sizes (aligned with the product list) and their totals:
      dimF counts production variables, dimC customers and dimFC shipment
      variables. */
  datatype Dims = Dims(
    factorySizes: seq<nat>,
    customerSizes: seq<nat>,
    dimF: nat,
    dimC: nat,
    dimFC: nat)

  /** Entry-wise products fs[i] * cs[i]: the shipment variables of each product. */
  function Pairwise(fs: seq<nat>, cs: seq<nat>): (ps: seq<nat>)
    requires |fs| == |cs|
    ensures |ps| == |fs|
    ensures forall i :: 0 <= i < |fs| ==> ps[i] == fs[i] * cs[i]
  {
    seq(|fs|, i requires 0 <= i < |fs| => fs[i] * cs[i])
  }

  /** Product i's customer count can be computed: it has an outbound cost
      table and a non-zero factory count. */
  predicate SizeComputable(outbound: seq<CostArray>, fs: seq<nat>, i: nat)
    requires i < |fs|
  {
    i < |outbound| && fs[i] > 0
  }

  /** Product k is the first whose customer count cannot be computed. */
  predicate FirstFailure(outbound: seq<CostArray>, fs: seq<nat>, k: nat)
    requires k < |fs|
  {
    !SizeComputable(outbound, fs, k) && forall i :: 0 <= i < k ==> SizeComputable(outbound, fs, i)
  }

  /** The first k customer counts can all be computed exactly when the first
      k products have tables and non-zero factory counts. */
  lemma {:induction false} ComputablePrefix(outbound: seq<CostArray>, fs: seq<nat>, k: nat)
    requires k <= |fs|
    ensures (forall i :: 0 <= i < k ==> SizeComputable(outbound, fs, i))
            <==> k <= |outbound| && forall i :: 0 <= i < k ==> fs[i] > 0
  {
    if forall i :: 0 <= i < k ==> SizeComputable(outbound, fs, i) {
      if k > 0 {
        assert SizeComputable(outbound, fs, k - 1);
      }
      forall i | 0 <= i < k
        ensures fs[i] > 0
      {
        assert SizeComputable(outbound, fs, i);
      }
    }
  }

  /** The customer counts of the first `n` products: the length of the
      product's outbound cost table, floor-divided by its factory count. The
      products are visited in order and the first one whose table is missing
      or whose factory count is zero stops the computation. */
  function CustomerSizes(outbound: seq<CostArray>, fs: seq<nat>, n: nat): (r: Result<seq<nat>>)
    requires n <= |fs|
    ensures r.Ok? <==> n <= |outbound| && forall i :: 0 <= i < n ==> fs[i] > 0
    ensures r.Ok? ==> |r.value| == n
    ensures r.Ok? ==> forall i :: 0 <= i < n ==> r.value[i] == outbound[i].Len() / fs[i]
    ensures r.Err? ==> r.error == MissingKey || r.error == DivisionByZero
    ensures forall k :: 0 <= k < n && FirstFailure(outbound, fs, k) ==>
              r == Err(if k < |outbound| then DivisionByZero else MissingKey)
  {
    if n == 0 then Ok([])
    else
      ComputablePrefix(outbound, fs, n - 1);
      var prev :- CustomerSizes(outbound, fs, n - 1);
      if n - 1 >= |outbound| then Err(MissingKey)
      else if fs[n - 1] == 0 then Err(DivisionByZero)
      else
        var c := outbound[n - 1].Len() / fs[n - 1];
        Ok(prev + [c])
  }

  /** The inputs processed_inputs accepts: every product has factory names,
      at least one of them, and an outbound cost table. */
  predicate InputsAccepted(pl: seq<Product>, names: seq<seq<Factory>>, outbound: seq<CostArray>)
  {
    |names| >= |pl| && |outbound| >= |pl| && forall i :: 0 <= i < |pl| ==> |names[i]| > 0
  }

  /** processed_inputs: factory counts from the factory names, customer counts
      from the outbound cost tables, then the three totals. */
  function ProcessedInputs(pl: seq<Product>, names: seq<seq<Factory>>, outbound: seq<CostArray>): (r: Result<Dims>)
    ensures r.Ok? <==> InputsAccepted(pl, names, outbound)
    ensures r.Ok? ==> |r.value.factorySizes| == |pl| && |r.value.customerSizes| == |pl|
    ensures r.Ok? ==> forall i :: 0 <= i < |pl| ==> r.value.factorySizes[i] == |names[i]|
    ensures r.Ok? ==> forall i :: 0 <= i < |pl| ==> r.value.customerSizes[i] == outbound[i].Len() / |names[i]|
    ensures r.Ok? ==> r.value.dimF == Total(r.value.factorySizes)
    ensures r.Ok? ==> r.value.dimC == Total(r.value.customerSizes)
    ensures r.Ok? ==> r.value.dimFC == Total(Pairwise(r.value.factorySizes, r.value.customerSizes))
  {
    if |names| < |pl| then Err(MissingKey)
    else
      var fs := seq(|pl|, i requires 0 <= i < |pl| => |names[i]|);
      assert forall i :: 0 <= i < |pl| ==> (fs[i] > 0 <==> |names[i]| > 0);
      var cs :- CustomerSizes(outbound, fs, |pl|);
      Ok(Dims(fs, cs, Total(fs), Total(cs), Total(Pairwise(fs, cs))))
  }

  /** When every product's outbound table length is a multiple of its factory
      count, dimFC is exactly the number of outbound costs: the shipment
      variables are one per outbound cost entry. */
  lemma {:induction false} DimFCCountsOutboundCosts(pl: seq<Product>, names: seq<seq<Factory>>, outbound: seq<CostArray>)
    requires InputsAccepted(pl, names, outbound)
    requires forall i :: 0 <= i < |pl| ==> outbound[i].Vector?
    requires forall i :: 0 <= i < |pl| ==> outbound[i].Len() % |names[i]| == 0
    ensures ProcessedInputs(pl, names, outbound).value.dimFC == Total(Sizes(outbound[..|pl|]))
  {
    var d := ProcessedInputs(pl, names, outbound).value;
    var ps := Pairwise(d.factorySizes, d.customerSizes);
    var ss := Sizes(outbound[..|pl|]);
    forall i | 0 <= i < |pl|
      ensures ps[i] == ss[i]
    {
      var f := |names[i]|;
      var len := outbound[i].Len();
      var c := d.customerSizes[i];
      assert c == len / f;
      assert len == c * f by {
        assert len == (len / f) * f + len % f;
      }
      assert ps[i] == f * c;
      assert outbound[..|pl|][i] == outbound[i];
    }
    PrefixSumAgree(ps, ss, |pl|);
  }

  /** Every product with at least one factory and at least as many outbound
      costs as factories gives positive totals, which the builders demand. */
  lemma {:induction false} DimensionsPositive(pl: seq<Product>, names: seq<seq<Factory>>, outbound: seq<CostArray>)
    requires InputsAccepted(pl, names, outbound)
    requires |pl| > 0
    requires forall i :: 0 <= i < |pl| ==> outbound[i].Len() >= |names[i]|
    ensures ProcessedInputs(pl, names, outbound).value.dimF > 0
    ensures ProcessedInputs(pl, names, outbound).value.dimC > 0
    ensures ProcessedInputs(pl, names, outbound).value.dimFC > 0
  {
    var d := ProcessedInputs(pl, names, outbound).value;
    var n := |pl|;
    assert d.customerSizes[0] >= 1 by {
      var len, f := outbound[0].Len(), |names[0]|;
      assert len == (len / f) * f + len % f && len % f < f;
    }
    PrefixSumMonotone(d.factorySizes, 1, n);
    PrefixSumMonotone(d.customerSizes, 1, n);
    PrefixSumMonotone(Pairwise(d.factorySizes, d.customerSizes), 1, n);
  }
}
