/** Real vectors: inner products, unit length, and cluster assignment by maximum inner product. */
module Vectors {
  import opened Wrappers

  type Vec = seq<real>

  function Min(a: nat, b: nat): nat {
    if a < b then a else b
  }

  function DotUpTo(a: Vec, b: Vec, n: nat): real
    requires n <= |a| && n <= |b|
  {
    if n == 0 then 0.0 else DotUpTo(a, b, n - 1) + a[n - 1] * b[n - 1]
  }

  /** The inner product over the common length. */
  function Dot(a: Vec, b: Vec): real {
    DotUpTo(a, b, Min(|a|, |b|))
  }

  function SumSq(v: Vec): real {
    DotUpTo(v, v, |v|)
  }

  function Scale(v: Vec, k: real): Vec {
    seq(|v|, i requires 0 <= i < |v| => v[i] * k)
  }

  // ---- normalization ----

  ghost predicate IsRoot(root: real, x: real) {
    root >= 0.0 && root * root == x
  }

  /** The unit vector in the direction of `vec`, given the square root of its squared length;
      a zero vector is unchanged. */
  function Normalized(vec: Vec, root: real): Vec {
    if root == 0.0 then vec else Scale(vec, 1.0 / root)
  }

  lemma Positive(x: real, y: real, p: real)
    requires x > 0.0 && y > 0.0 && x * y == p
    ensures p > 0.0
  {
  }

  lemma RootOfZero(root: real)
    requires IsRoot(root, 0.0)
    ensures root == 0.0
  {
    if root > 0.0 {
      Positive(root, root, 0.0);
    }
  }

  /** `root` is the library's square root of the squared length. */
  method L2Normalize(vec: Vec, root: real) returns (out: Vec)
    requires IsRoot(root, SumSq(vec))
    ensures out == Normalized(vec, root)
    ensures |out| == |vec|
    ensures if SumSq(vec) == 0.0 then out == vec else forall i :: 0 <= i < |vec| ==> out[i] == vec[i] * (1.0 / root)
  {
    var sum := 0.0;
    for i := 0 to |vec|
      invariant sum == DotUpTo(vec, vec, i)
    {
      sum := sum + vec[i] * vec[i];
    }
    if sum == 0.0 {
      assert root == 0.0 by { RootOfZero(root); }
      return vec;
    }
    assert root != 0.0;
    var inv := 1.0 / root;
    out := [];
    for i := 0 to |vec|
      invariant |out| == i && forall k :: 0 <= k < i ==> out[k] == Scale(vec, inv)[k]
    {
      out := out + [vec[i] * inv];
    }
    assert out == Scale(vec, inv);
  }

  lemma Distribute(k: real, s: real, x: real, y: real)
    ensures k * (s + x * y) == k * s + x * (y * k)
  {
  }

  lemma {:induction false} DotScale(c: Vec, v: Vec, k: real, n: nat)
    requires n <= |c| && n <= |v|
    ensures DotUpTo(c, Scale(v, k), n) == k * DotUpTo(c, v, n)
  {
    if n > 0 {
      DotScale(c, v, k, n - 1);
      Distribute(k, DotUpTo(c, v, n - 1), c[n - 1], v[n - 1]);
    }
  }

  lemma {:induction false} DotSymmetric(a: Vec, b: Vec, n: nat)
    requires n <= |a| && n <= |b|
    ensures DotUpTo(a, b, n) == DotUpTo(b, a, n)
  {
    if n > 0 {
      DotSymmetric(a, b, n - 1);
    }
  }

  /** Normalizing a non-zero vector gives squared length one, so a self-match scores one. */
  lemma UnitLength(vec: Vec, root: real)
    requires IsRoot(root, SumSq(vec)) && SumSq(vec) != 0.0
    ensures SumSq(Normalized(vec, root)) == 1.0
    ensures Dot(Normalized(vec, root), Normalized(vec, root)) == 1.0
  {
    var k := 1.0 / root;
    var u := Scale(vec, k);
    var n := |vec|;
    DotScale(u, vec, k, n);
    DotSymmetric(u, vec, n);
    DotScale(vec, vec, k, n);
    assert SumSq(u) == k * (k * (root * root));
    assert k * root == 1.0;
    assert k * (k * (root * root)) == (k * root) * (k * root);
  }

  lemma Square(x: real)
    ensures x * x >= 0.0
  {
    if x > 0.0 {
      Positive(x, x, x * x);
    } else if x < 0.0 {
      Positive(-x, -x, (-x) * (-x));
      assert (-x) * (-x) == x * x;
    }
  }

  lemma Squares(x: real, y: real)
    ensures 2.0 * (x * y) <= x * x + y * y
    ensures -2.0 * (x * y) <= x * x + y * y
  {
    Square(x - y);
    Square(x + y);
    assert (x - y) * (x - y) == x * x - 2.0 * (x * y) + y * y;
    assert (x + y) * (x + y) == x * x + 2.0 * (x * y) + y * y;
  }

  lemma {:induction false} PolarBound(a: Vec, b: Vec, n: nat)
    requires n <= |a| && n <= |b|
    ensures 2.0 * DotUpTo(a, b, n) <= DotUpTo(a, a, n) + DotUpTo(b, b, n)
    ensures -2.0 * DotUpTo(a, b, n) <= DotUpTo(a, a, n) + DotUpTo(b, b, n)
  {
    if n > 0 {
      PolarBound(a, b, n - 1);
      Squares(a[n - 1], b[n - 1]);
    }
  }

  lemma {:induction false} SumSqGrows(v: Vec, m: nat, n: nat)
    requires m <= n <= |v|
    ensures 0.0 <= DotUpTo(v, v, m) <= DotUpTo(v, v, n)
  {
    if m < n {
      SumSqGrows(v, m, n - 1);
      Square(v[n - 1]);
    } else if m > 0 {
      SumSqGrows(v, m - 1, m - 1);
      Square(v[m - 1]);
    }
  }

  /** Scores of unit vectors are cosines: they lie between -1 and 1 (the Cauchy-Schwarz inequality). */
  lemma CosineRange(a: Vec, b: Vec)
    requires SumSq(a) == 1.0 && SumSq(b) == 1.0
    ensures -1.0 <= Dot(a, b) <= 1.0
  {
    var n := Min(|a|, |b|);
    PolarBound(a, b, n);
    SumSqGrows(a, n, |a|);
    SumSqGrows(b, n, |b|);
  }

  // ---- assignment ----

  /** `k` has the largest inner product with `vec`, and the lowest index among equals. */
  ghost predicate IsLowestArgmax(vectors: seq<Vec>, vec: Vec, k: nat) {
    && k < |vectors|
    && (forall i :: 0 <= i < |vectors| ==> Dot(vectors[i], vec) <= Dot(vectors[k], vec))
    && (forall i :: 0 <= i < k ==> Dot(vectors[i], vec) < Dot(vectors[k], vec))
  }

  /** The index the scan over the first `n` centroids ends with. */
  function Best(vectors: seq<Vec>, vec: Vec, n: nat): (k: nat)
    requires n <= |vectors|
    ensures n > 0 ==> k < n
  {
    if n == 0 then 0
    else
      var k := Best(vectors, vec, n - 1);
      if n == 1 || Dot(vectors[n - 1], vec) > Dot(vectors[k], vec) then n - 1 else k
  }

  function Assigned(vectors: seq<Vec>, vec: Vec): nat {
    Best(vectors, vec, |vectors|)
  }

  /** The scan keeps -infinity as its first best score, so the first centroid always replaces it. */
  method Assign(vectors: seq<Vec>, vec: Vec) returns (id: UInt32)
    ensures id == ToUInt32(Assigned(vectors, vec))
  {
    var bestID: nat := 0;
    var best := None;
    for i := 0 to |vectors|
      invariant bestID == Best(vectors, vec, i)
      invariant best == if i == 0 then None else Some(Dot(vectors[bestID], vec))
    {
      var c := vectors[i];
      var s := 0.0;
      var j := 0;
      while j < |c| && j < |vec|
        invariant j <= |c| && j <= |vec|
        invariant s == DotUpTo(c, vec, j)
      {
        s := s + c[j] * vec[j];
        j := j + 1;
      }
      if best.None? || s > best.value {
        best, bestID := Some(s), i;
      }
    }
    id := ToUInt32(bestID);
  }

  lemma {:induction false} BestIsLowest(vectors: seq<Vec>, vec: Vec, n: nat)
    requires 0 < n <= |vectors|
    ensures forall i :: 0 <= i < n ==> Dot(vectors[i], vec) <= Dot(vectors[Best(vectors, vec, n)], vec)
    ensures forall i :: 0 <= i < Best(vectors, vec, n) ==>
      Dot(vectors[i], vec) < Dot(vectors[Best(vectors, vec, n)], vec)
  {
    if n > 1 {
      BestIsLowest(vectors, vec, n - 1);
    }
  }

  /** The assignment is the lowest-index argmax, and the only index that is. */
  lemma AssignedIsLowestArgmax(vectors: seq<Vec>, vec: Vec, k: nat)
    requires vectors != []
    ensures IsLowestArgmax(vectors, vec, k) <==> k == Assigned(vectors, vec)
  {
    BestIsLowest(vectors, vec, |vectors|);
  }

  lemma OrderKept(k: real, x: real, y: real)
    requires k > 0.0
    ensures x <= y ==> k * x <= k * y
    ensures x < y ==> k * x < k * y
  {
  }

  lemma ScoresScaled(c: Vec, d: Vec, vec: Vec, inv: real)
    requires inv > 0.0
    ensures Dot(c, vec) <= Dot(d, vec) ==> Dot(c, Scale(vec, inv)) <= Dot(d, Scale(vec, inv))
    ensures Dot(c, vec) < Dot(d, vec) ==> Dot(c, Scale(vec, inv)) < Dot(d, Scale(vec, inv))
  {
    DotScale(c, vec, inv, Min(|c|, |vec|));
    DotScale(d, vec, inv, Min(|d|, |vec|));
    OrderKept(inv, Dot(c, vec), Dot(d, vec));
  }

  /** A vector and its unit vector are assigned to the same cluster. */
  lemma AssignedAfterNormalizing(vectors: seq<Vec>, vec: Vec, root: real)
    requires vectors != [] && IsRoot(root, SumSq(vec))
    ensures Assigned(vectors, Normalized(vec, root)) == Assigned(vectors, vec)
  {
    hide Dot, SumSq, Assigned, Scale;
    if root != 0.0 {
      var inv := 1.0 / root;
      var k := Assigned(vectors, vec);
      AssignedIsLowestArgmax(vectors, vec, k);
      forall i | 0 <= i < |vectors|
        ensures Dot(vectors[i], Scale(vec, inv)) <= Dot(vectors[k], Scale(vec, inv))
        ensures i < k ==> Dot(vectors[i], Scale(vec, inv)) < Dot(vectors[k], Scale(vec, inv))
      {
        ScoresScaled(vectors[i], vectors[k], vec, inv);
      }
      AssignedIsLowestArgmax(vectors, Scale(vec, inv), k);
    }
  }
}
