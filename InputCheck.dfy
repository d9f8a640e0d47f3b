/** The input-dimension validator of the radius benchmark (testInputVector).
    A data set is usable only when every vector has the same, positive
    number of coordinates. Each vector is modelled by its dimension alone. */
module InputCheck {

  const INT_MIN: int := -0x8000_0000
  const INT_MAX: int := 0x7FFF_FFFF

  /** A C++ `int`: the dimension field and the two accumulators. */
  newtype Int32 = x: int | -0x8000_0000 <= x <= 0x7FFF_FFFF

  /** A general n-space vector, seen only through its dimension. */
  datatype VecN = VecN(dim: Int32)

  function Max(a: Int32, b: Int32): Int32 { if a < b then b else a }
  function Min(a: Int32, b: Int32): Int32 { if a > b then b else a }

  /** The running maximum of the dimensions, starting from INT_MIN. */
  function MaxDim(s: seq<VecN>): (r: Int32)
    ensures forall i :: 0 <= i < |s| ==> s[i].dim <= r
    ensures s == [] ==> r as int == INT_MIN
    ensures s != [] ==> exists i :: 0 <= i < |s| && s[i].dim == r
  {
    if s == [] then INT_MIN as Int32 else Max(MaxDim(s[..|s| - 1]), s[|s| - 1].dim)
  }

  /** The running minimum of the dimensions, starting from INT_MAX. */
  function MinDim(s: seq<VecN>): (r: Int32)
    ensures forall i :: 0 <= i < |s| ==> r <= s[i].dim
    ensures s == [] ==> r as int == INT_MAX
    ensures s != [] ==> exists i :: 0 <= i < |s| && s[i].dim == r
  {
    if s == [] then INT_MAX as Int32 else Min(MinDim(s[..|s| - 1]), s[|s| - 1].dim)
  }

  /** What the validator is meant to accept: a non-empty set of vectors
      that all share the first vector's dimension, and that is positive. */
  predicate Consistent(v: seq<VecN>)
  {
    |v| > 0 && (forall i :: 0 <= i < |v| ==> v[i].dim == v[0].dim) && v[0].dim > 0
  }

  /** The validator: one pass keeping the largest and smallest dimension
      seen so far, then a comparison of the two. The input is only read. */
  method TestInputVector(v: seq<VecN>) returns (ok: bool)
    ensures ok == (MaxDim(v) == MinDim(v) && MaxDim(v) > 0)
    ensures ok == Consistent(v)
  {
    var maxDim: Int32 := INT_MIN as Int32;
    var minDim: Int32 := INT_MAX as Int32;
    var i := 0;
    while i < |v|
      invariant 0 <= i <= |v|
      invariant maxDim == MaxDim(v[..i])
      invariant minDim == MinDim(v[..i])
    {
      assert v[..i + 1][..i] == v[..i];
      var vi := v[i];
      if maxDim < vi.dim { maxDim := vi.dim; }
      if minDim > vi.dim { minDim := vi.dim; }
      i := i + 1;
    }
    assert v[..i] == v;
    ok := maxDim == minDim && maxDim > 0;
    AcceptsIffConsistent(v);
  }

  /** The sentinels can never make the final comparison succeed on their own:
      equal extremes with a positive value mean exactly a consistent input. */
  lemma AcceptsIffConsistent(v: seq<VecN>)
    ensures (MaxDim(v) == MinDim(v) && MaxDim(v) > 0) <==> Consistent(v)
  {
    if MaxDim(v) == MinDim(v) && MaxDim(v) > 0 {
      assert v != [];
      forall i | 0 <= i < |v| ensures v[i].dim == v[0].dim {
        assert MinDim(v) <= v[i].dim <= MaxDim(v);
        assert MinDim(v) <= v[0].dim <= MaxDim(v);
      }
    }
    if Consistent(v) {
      var j :| 0 <= j < |v| && v[j].dim == MaxDim(v);
      var k :| 0 <= k < |v| && v[k].dim == MinDim(v);
    }
  }

  /** An empty data set is rejected: INT_MIN and INT_MAX never meet. */
  lemma EmptyRejected()
    ensures MaxDim([]) != MinDim([])
  {
  }

  /** A single vector is accepted exactly when its dimension is positive. */
  lemma SingleAcceptedIffPositive(x: VecN)
    ensures (MaxDim([x]) == MinDim([x]) && MaxDim([x]) > 0) <==> x.dim > 0
  {
    AcceptsIffConsistent([x]);
  }

  /** The verdict does not depend on the order of the vectors. */
  lemma {:induction false} PermutationInvariant(a: seq<VecN>, b: seq<VecN>)
    requires multiset(a) == multiset(b)
    ensures Consistent(a) == Consistent(b)
  {
    if Consistent(a) { ConsistentTransfer(a, b); }
    if Consistent(b) { ConsistentTransfer(b, a); }
  }

  lemma ConsistentTransfer(a: seq<VecN>, b: seq<VecN>)
    requires multiset(a) == multiset(b)
    requires Consistent(a)
    ensures Consistent(b)
  {
    assert |b| == |multiset(b)| == |multiset(a)| == |a|;
    forall i | 0 <= i < |b| ensures b[i].dim == a[0].dim {
      assert b[i] in multiset(a);
      var j :| 0 <= j < |a| && a[j] == b[i];
    }
  }
}
