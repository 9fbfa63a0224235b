/** Sequence facts the matrix builders rest on: prefix sums of block sizes,
    concatenation of a list of sequences and its inverse, splitting into
    equal chunks, and counting. */
module Seqs {

  /** Sum of the first `b` entries of `ws`: the offset at which block `b` starts. */
  function PrefixSum(ws: seq<nat>, b: nat): nat
    requires b <= |ws|
  {
    if b == 0 then 0 else PrefixSum(ws, b - 1) + ws[b - 1]
  }

  /** Sum of the entries of `ws` from position `b` on. */
  function SuffixSum(ws: seq<nat>, b: nat): nat
    requires b <= |ws|
    decreases |ws| - b
  {
    if b == |ws| then 0 else ws[b] + SuffixSum(ws, b + 1)
  }

  function Total(ws: seq<nat>): nat
  {
    PrefixSum(ws, |ws|)
  }

  lemma {:induction false} PrefixSuffix(ws: seq<nat>, b: nat)
    requires b <= |ws|
    ensures PrefixSum(ws, b) + SuffixSum(ws, b) == Total(ws)
    decreases |ws| - b
  {
    if b < |ws| {
      PrefixSuffix(ws, b + 1);
    }
  }

  lemma {:induction false} PrefixSumOfPrefix(ws: seq<nat>, m: nat, b: nat)
    requires b <= m <= |ws|
    ensures PrefixSum(ws[..m], b) == PrefixSum(ws, b)
  {
    if b > 0 {
      PrefixSumOfPrefix(ws, m, b - 1);
    }
  }

  lemma {:induction false} PrefixSumMonotone(ws: seq<nat>, a: nat, b: nat)
    requires a <= b <= |ws|
    ensures PrefixSum(ws, a) <= PrefixSum(ws, b)
    decreases b
  {
    if a < b {
      PrefixSumMonotone(ws, a, b - 1);
    }
  }

  /** Block i ends no later than the first m blocks do. */
  lemma {:induction false} PrefixStep(ws: seq<nat>, i: nat, m: nat)
    requires i < m <= |ws|
    ensures PrefixSum(ws, i) + ws[i] <= PrefixSum(ws, m)
  {
    PrefixSumMonotone(ws, i + 1, m);
  }

  /** Every position below the total lies in exactly one block. */
  lemma {:induction false} PrefixLocate(ws: seq<nat>, k: nat) returns (b: nat, j: nat)
    requires k < Total(ws)
    ensures b < |ws| && j < ws[b]
    ensures k == PrefixSum(ws, b) + j
    decreases |ws|
  {
    var n := |ws| - 1;
    PrefixSumOfPrefix(ws, n, n);
    if k < PrefixSum(ws, n) {
      b, j := PrefixLocate(ws[..n], k);
      PrefixSumOfPrefix(ws, n, b);
    } else {
      b, j := n, k - PrefixSum(ws, n);
    }
  }

  lemma {:induction false} PrefixSumConstant(ws: seq<nat>, k: nat, b: nat)
    requires b <= |ws|
    requires forall i :: 0 <= i < |ws| ==> ws[i] == k
    ensures PrefixSum(ws, b) == b * k
  {
    if b > 0 {
      PrefixSumConstant(ws, k, b - 1);
    }
  }

  /** Two weight sequences that agree on their first `b` entries have the same prefix sum there. */
  lemma {:induction false} PrefixSumAgree(ws: seq<nat>, vs: seq<nat>, b: nat)
    requires b <= |ws| && b <= |vs|
    requires forall i :: 0 <= i < b ==> ws[i] == vs[i]
    ensures PrefixSum(ws, b) == PrefixSum(vs, b)
  {
    if b > 0 {
      PrefixSumAgree(ws, vs, b - 1);
    }
  }

  function Lengths<T>(xs: seq<seq<T>>): (ws: seq<nat>)
    ensures |ws| == |xs|
    ensures forall i :: 0 <= i < |xs| ==> ws[i] == |xs[i]|
  {
    seq(|xs|, i requires 0 <= i < |xs| => |xs[i]|)
  }

  /** The concatenation of a list of sequences, left to right. */
  function Concat<T>(xs: seq<seq<T>>): seq<T>
  {
    if |xs| == 0 then [] else Concat(xs[..|xs| - 1]) + xs[|xs| - 1]
  }

  lemma {:induction false} ConcatLength<T>(xs: seq<seq<T>>)
    ensures |Concat(xs)| == Total(Lengths(xs))
  {
    if |xs| > 0 {
      var n := |xs| - 1;
      ConcatLength(xs[..n]);
      assert Lengths(xs[..n]) == Lengths(xs)[..n];
      PrefixSumOfPrefix(Lengths(xs), n, n);
    }
  }

  /** Element `k` of piece `b` sits at the piece's offset plus `k` in the concatenation. */
  lemma {:induction false} ConcatIndex<T>(xs: seq<seq<T>>, b: nat, k: nat)
    requires b < |xs| && k < |xs[b]|
    ensures PrefixSum(Lengths(xs), b) + k < |Concat(xs)|
    ensures Concat(xs)[PrefixSum(Lengths(xs), b) + k] == xs[b][k]
    decreases |xs|
  {
    var n := |xs| - 1;
    ConcatLength(xs[..n]);
    assert Lengths(xs[..n]) == Lengths(xs)[..n];
    PrefixSumOfPrefix(Lengths(xs), n, n);
    if b < n {
      ConcatIndex(xs[..n], b, k);
      PrefixSumOfPrefix(Lengths(xs), n, b);
    }
  }

  /** Every position of a concatenation lies in exactly one piece. */
  lemma {:induction false} ConcatLocate<T>(xs: seq<seq<T>>, k: nat) returns (b: nat, j: nat)
    requires k < |Concat(xs)|
    ensures b < |xs| && j < |xs[b]|
    ensures k == PrefixSum(Lengths(xs), b) + j
    decreases |xs|
  {
    var n := |xs| - 1;
    ConcatLength(xs[..n]);
    assert Lengths(xs[..n]) == Lengths(xs)[..n];
    PrefixSumOfPrefix(Lengths(xs), n, n);
    if k < |Concat(xs[..n])| {
      b, j := ConcatLocate(xs[..n], k);
      PrefixSumOfPrefix(Lengths(xs), n, b);
    } else {
      b, j := n, k - |Concat(xs[..n])|;
    }
  }

  lemma {:induction false} ConcatForall<T>(xs: seq<seq<T>>, P: T -> bool)
    requires forall b, k :: 0 <= b < |xs| && 0 <= k < |xs[b]| ==> P(xs[b][k])
    ensures forall k :: 0 <= k < |Concat(xs)| ==> P(Concat(xs)[k])
  {
    forall k | 0 <= k < |Concat(xs)|
      ensures P(Concat(xs)[k])
    {
      var b, j := ConcatLocate(xs, k);
      ConcatIndex(xs, b, j);
    }
  }

  lemma {:induction false} AppendIndex<T>(a: seq<T>, b: seq<T>, j: nat)
    requires j < |b|
    ensures (a + b)[|a| + j] == b[j]
  {
  }

  /** Entry j of the second part of v == a + b, reached through the first
      part's length n. */
  lemma {:induction false} SecondPart<T>(v: seq<T>, a: seq<T>, b: seq<T>, n: nat, j: nat)
    requires v == a + b && |a| == n && j < |b|
    ensures n + j < |v| && v[n + j] == b[j]
  {
  }

  lemma {:induction false} ConcatAppend<T>(xs: seq<seq<T>>, ys: seq<seq<T>>)
    ensures Concat(xs + ys) == Concat(xs) + Concat(ys)
    decreases |ys|
  {
    if |ys| == 0 {
      assert xs + ys == xs;
    } else {
      var n := |ys| - 1;
      assert (xs + ys)[..|xs + ys| - 1] == xs + ys[..n];
      ConcatAppend(xs, ys[..n]);
    }
  }

  lemma {:induction false} PositiveProduct(a: nat, b: nat)
    requires a > 0 && b > 0
    ensures a * b > 0
  {
  }

  /** An index below f * c lies in copy k / c, at offset k % c. */
  lemma {:induction false} DivSplit(k: nat, c: nat, f: nat)
    requires 0 < c && k < f * c
    ensures k / c < f && k == (k / c) * c + k % c && k % c < c
  {
  }

  /** Scaling every entry scales every prefix sum. */
  lemma {:induction false} PrefixSumScale(ws: seq<nat>, vs: seq<nat>, c: nat, b: nat)
    requires b <= |ws| && b <= |vs|
    requires forall i :: 0 <= i < b ==> vs[i] == ws[i] * c
    ensures PrefixSum(vs, b) == PrefixSum(ws, b) * c
  {
    if b > 0 {
      PrefixSumScale(ws, vs, c, b - 1);
      assert (PrefixSum(ws, b - 1) + ws[b - 1]) * c == PrefixSum(ws, b - 1) * c + ws[b - 1] * c;
    }
  }

  /** The split of `s` into `n` consecutive chunks of `k` elements each,
      as numpy's equal split along the first axis does. */
  function Chunks<T>(s: seq<T>, n: nat, k: nat): (cs: seq<seq<T>>)
    requires |s| == n * k
    ensures |cs| == n
    ensures forall i :: 0 <= i < n ==> |cs[i]| == k
  {
    if n == 0 then []
    else
      assert |s| - k == (n - 1) * k;
      [s[..k]] + Chunks(s[k..], n - 1, k)
  }

  /** Concatenating the chunks in order gives back the split sequence. */
  lemma {:induction false} ChunksRoundTrip<T>(s: seq<T>, n: nat, k: nat)
    requires |s| == n * k
    ensures Concat(Chunks(s, n, k)) == s
  {
    if n > 0 {
      assert |s| - k == (n - 1) * k;
      ChunksRoundTrip(s[k..], n - 1, k);
      ConcatAppend([s[..k]], Chunks(s[k..], n - 1, k));
      assert Concat([s[..k]]) == s[..k] by {
        assert [s[..k]][..0] == [];
      }
      assert s[..k] + s[k..] == s;
    }
  }

  /** Splitting a concatenation of equally long pieces gives the pieces back. */
  lemma {:induction false} ChunksOfConcat<T>(xs: seq<seq<T>>, k: nat)
    requires forall b :: 0 <= b < |xs| ==> |xs[b]| == k
    ensures |Concat(xs)| == |xs| * k
    ensures Chunks(Concat(xs), |xs|, k) == xs
  {
    ConcatLength(xs);
    PrefixSumConstant(Lengths(xs), k, |xs|);
    if |xs| > 0 {
      var s := Concat(xs);
      var rest := xs[1..];
      assert [xs[0]] + rest == xs;
      ConcatAppend([xs[0]], rest);
      assert Concat([xs[0]]) == xs[0] by {
        assert [xs[0]][..0] == [];
      }
      ChunksOfConcat(rest, k);
      assert s == xs[0] + Concat(rest);
      assert s[..k] == xs[0];
      assert s[k..] == Concat(rest);
    }
  }

  predicate Distinct<T(==)>(s: seq<T>)
  {
    forall i, j :: 0 <= i < j < |s| ==> s[i] != s[j]
  }

  /** Number of `true` entries. */
  function CountTrue(bs: seq<bool>): nat
  {
    if |bs| == 0 then 0 else CountTrue(bs[..|bs| - 1]) + (if bs[|bs| - 1] then 1 else 0)
  }

  lemma {:induction false} CountTrueAppend(xs: seq<bool>, ys: seq<bool>)
    ensures CountTrue(xs + ys) == CountTrue(xs) + CountTrue(ys)
    decreases |ys|
  {
    if |ys| == 0 {
      assert xs + ys == xs;
    } else {
      var n := |ys| - 1;
      assert (xs + ys)[..|xs + ys| - 1] == xs + ys[..n];
      CountTrueAppend(xs, ys[..n]);
    }
  }

  /** In a duplicate-free list, the positions holding a member of `u` number
      exactly |u| when every member of `u` occurs in the list. */
  lemma {:induction false} CountMembers<T>(xs: seq<T>, u: set<T>)
    requires Distinct(xs)
    requires forall x :: x in u ==> x in xs
    ensures CountTrue(seq(|xs|, j requires 0 <= j < |xs| => xs[j] in u)) == |u|
    decreases |xs|
  {
    var mask := seq(|xs|, j requires 0 <= j < |xs| => xs[j] in u);
    if |xs| == 0 {
      assert forall x :: x !in u;
      assert u == {};
    } else {
      var n := |xs| - 1;
      var last := xs[n];
      var u' := u - {last};
      forall x | x in u'
        ensures x in xs[..n]
      {
        var i :| 0 <= i < |xs| && xs[i] == x;
        assert i != n;
      }
      CountMembers(xs[..n], u');
      var mask' := seq(n, j requires 0 <= j < n => xs[..n][j] in u');
      assert mask[..n] == mask' by {
        forall j | 0 <= j < n
          ensures mask[..n][j] == mask'[j]
        {
          assert xs[j] != last;
        }
      }
      if last in u {
        assert |u| == |u'| + 1;
      } else {
        assert u' == u;
      }
    }
  }
}
