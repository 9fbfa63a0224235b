/** The identities of the distribution network and the per-product tables
    that describe it. Products and factories are identified by name.

    A per-product table (a dictionary keyed by product in the program) is the
    sequence of its values in insertion order; every such table is built by
    iterating the product list, so entry `i` belongs to `productList[i]`. */
module Network {
  import opened Seqs
  import opened Matrices

  type Product = string
  type Factory = string

  /** The position of `p` in the product list, i.e. of its entry in every
      per-product table. */
  function IndexOf(pl: seq<Product>, p: Product): (i: nat)
    requires p in pl
    ensures i < |pl| && pl[i] == p
    ensures forall j :: 0 <= j < i ==> pl[j] != p
  {
    if pl[0] == p then 0 else 1 + IndexOf(pl[1..], p)
  }

  /** One weight per slot of the factory list: 1 when that factory serves the
      product whose factory names are `names`, 0 otherwise. */
  function Indicator(fl: seq<Factory>, names: seq<Factory>): (ws: seq<nat>)
    ensures |ws| == |fl|
    ensures forall j :: 0 <= j < |fl| ==> ws[j] == if fl[j] in names then 1 else 0
  {
    seq(|fl|, j requires 0 <= j < |fl| => if fl[j] in names then 1 else 0)
  }

  /** How many of the first `j` slots of the factory list serve the product:
      a serving slot `j` is that product's `ServedBefore(j)`-th serving factory. */
  function ServedBefore(fl: seq<Factory>, names: seq<Factory>, j: nat): nat
    requires j <= |fl|
  {
    PrefixSum(Indicator(fl, names), j)
  }

  /** How many slots of the factory list serve the product. */
  function ServedCount(fl: seq<Factory>, names: seq<Factory>): nat
  {
    Total(Indicator(fl, names))
  }

  function ServedCounts(fl: seq<Factory>, names: seq<seq<Factory>>): (cs: seq<nat>)
    ensures |cs| == |names|
    ensures forall k :: 0 <= k < |names| ==> cs[k] == ServedCount(fl, names[k])
  {
    seq(|names|, k requires 0 <= k < |names| => ServedCount(fl, names[k]))
  }

  lemma {:induction false} ServedCountBound(fl: seq<Factory>, names: seq<Factory>, j: nat)
    requires j < |fl|
    ensures ServedBefore(fl, names, j + 1) == ServedBefore(fl, names, j) + (if fl[j] in names then 1 else 0)
    ensures ServedBefore(fl, names, j + 1) <= ServedCount(fl, names)
  {
    PrefixSumMonotone(Indicator(fl, names), j + 1, |fl|);
  }

  /** An outbound cost table as numpy holds it: a flat vector, or a grid with
      one row per customer and one column per factory. */
  datatype CostArray = Vector(entries: seq<real>) | Grid(cells: Matrix) {

    predicate WellShaped()
    {
      Grid? ==> Rect(cells, Width(cells))
    }

    /** Python's len: the vector length, or the number of grid rows. */
    function Len(): nat
    {
      match this
      case Vector(v) => |v|
      case Grid(g) => |g|
    }

    /** Every cost in the table is positive. */
    predicate Positive()
    {
      match this
      case Vector(v) => AllPositive(v)
      case Grid(g) => forall c, f :: 0 <= c < |g| && 0 <= f < |g[c]| ==> g[c][f] > 0.0
    }

    function Size(): nat
    {
      match this
      case Vector(v) => |v|
      case Grid(g) => |g| * Width(g)
    }

    /** numpy's flatten in column-major order: the identity on a vector; on a
        grid, column after column, i.e. factory-major and customer-minor. */
    function FlattenF(): (v: seq<real>)
      requires WellShaped()
      ensures |v| == Size()
    {
      match this
      case Vector(v) => v
      case Grid(g) =>
        var cols := seq(Width(g), f requires 0 <= f < Width(g) =>
                       seq(|g|, c requires 0 <= c < |g| => g[c][f]));
        ConcatLength(cols);
        PrefixSumConstant(Lengths(cols), |g|, Width(g));
        Concat(cols)
    }
  }

  /** Grid cell (customer c, factory f) lands at position f * customers + c of
      the flattened table. */
  lemma {:induction false} FlattenLayout(g: Matrix, c: nat, f: nat)
    requires Grid(g).WellShaped()
    requires c < |g| && f < Width(g)
    ensures f * |g| + c < |Grid(g).FlattenF()|
    ensures Grid(g).FlattenF()[f * |g| + c] == g[c][f]
  {
    var cols := seq(Width(g), f' requires 0 <= f' < Width(g) =>
                   seq(|g|, c' requires 0 <= c' < |g| => g[c'][f']));
    PrefixSumConstant(Lengths(cols), |g|, f);
    ConcatIndex(cols, f, c);
    assert Grid(g).FlattenF() == Concat(cols);
  }

  function Sizes(ts: seq<CostArray>): (ws: seq<nat>)
    ensures |ws| == |ts|
    ensures forall i :: 0 <= i < |ts| ==> ws[i] == ts[i].Size()
  {
    seq(|ts|, i requires 0 <= i < |ts| => ts[i].Size())
  }

  /** Flattening keeps exactly the table's entries, so it is positive exactly
      when the table is. */
  lemma {:induction false} FlattenPositive(t: CostArray)
    requires t.WellShaped()
    ensures AllPositive(t.FlattenF()) <==> t.Positive()
  {
    if t.Grid? {
      var g := t.cells;
      var cols := seq(Width(g), f requires 0 <= f < Width(g) =>
                     seq(|g|, c requires 0 <= c < |g| => g[c][f]));
      assert t.FlattenF() == Concat(cols);
      if t.Positive() {
        forall f, c | 0 <= f < |cols| && 0 <= c < |cols[f]|
          ensures cols[f][c] > 0.0
        {
          assert cols[f][c] == g[c][f];
        }
        ConcatForall(cols, (x: real) => x > 0.0);
      }
      if AllPositive(t.FlattenF()) {
        forall c, f | 0 <= c < |g| && 0 <= f < |g[c]|
          ensures g[c][f] > 0.0
        {
          FlattenLayout(g, c, f);
        }
      }
    }
  }

  /** Each table flattened in column-major order. */
  function Flats(ts: seq<CostArray>): (fs: seq<seq<real>>)
    requires forall i :: 0 <= i < |ts| ==> ts[i].WellShaped()
    ensures |fs| == |ts|
    ensures forall i :: 0 <= i < |ts| ==> fs[i] == ts[i].FlattenF()
  {
    seq(|ts|, i requires 0 <= i < |ts| => ts[i].FlattenF())
  }

  lemma {:induction false} FlatsLength(ts: seq<CostArray>)
    requires forall i :: 0 <= i < |ts| ==> ts[i].WellShaped()
    ensures |Concat(Flats(ts))| == Total(Sizes(ts))
  {
    ConcatLength(Flats(ts));
    assert Lengths(Flats(ts)) == Sizes(ts);
  }
}
