/** What the device computes: the effect of each cuBLAS routine and named
    kernel the vector operations launch, stated over the buffer contents as
    sequences of numbers.  Element values are reals; float32 rounding is not
    part of this model. */
module DeviceMath {

  function Abs(x: real): real { if x < 0.0 then -x else x }

  /** The contents of a buffer that `cuda.ClearBuffer` zeroed, and the
      meaning of a vector that has no buffer at all. */
  function Zeros(n: nat): (z: seq<real>)
    ensures |z| == n
  {
    seq(n, _ => 0.0)
  }

  function Ones(n: nat): (o: seq<real>)
    ensures |o| == n
  {
    seq(n, _ => 1.0)
  }

  /** `Sscal`: every element multiplied by `s`. */
  function Scaled(s: real, x: seq<real>): (r: seq<real>)
    ensures |r| == |x|
  {
    seq(|x|, i requires 0 <= i < |x| => s * x[i])
  }

  /** The `addScaler` kernel: `s` added to every element. */
  function Shifted(s: real, x: seq<real>): (r: seq<real>)
    ensures |r| == |x|
  {
    seq(|x|, i requires 0 <= i < |x| => x[i] + s)
  }

  /** `Saxpy`: `y + s*x`. */
  function Axpy(s: real, x: seq<real>, y: seq<real>): (r: seq<real>)
    requires |x| == |y|
    ensures |r| == |y|
  {
    seq(|y|, i requires 0 <= i < |y| => y[i] + s * x[i])
  }

  /** `Sdgmm` with the operand as the diagonal on the left: elementwise product. */
  function Hadamard(x: seq<real>, y: seq<real>): (r: seq<real>)
    requires |x| == |y|
    ensures |r| == |x|
  {
    seq(|x|, i requires 0 <= i < |x| => x[i] * y[i])
  }

  /** A per-element kernel applied to every element. */
  function Pointwise(f: real -> real, x: seq<real>): (r: seq<real>)
    ensures |r| == |x|
  {
    seq(|x|, i requires 0 <= i < |x| => f(x[i]))
  }

  /** `Sdot`: the sum of elementwise products. */
  function InnerProduct(x: seq<real>, y: seq<real>): real
    requires |x| == |y|
    decreases |x|
  {
    if |x| == 0 then 0.0
    else InnerProduct(x[..|x| - 1], y[..|y| - 1]) + x[|x| - 1] * y[|y| - 1]
  }

  function SumOf(x: seq<real>): real
    decreases |x|
  {
    if |x| == 0 then 0.0 else SumOf(x[..|x| - 1]) + x[|x| - 1]
  }

  /** `Sasum`: the sum of absolute values, never negative. */
  function SumOfAbs(x: seq<real>): (r: real)
    ensures r >= 0.0
    decreases |x|
  {
    if |x| == 0 then 0.0 else SumOfAbs(x[..|x| - 1]) + Abs(x[|x| - 1])
  }

  /** `Isamax`: the 1-based index of the first element of largest magnitude. */
  function Isamax(x: seq<real>): (idx: nat)
    requires |x| > 0
    ensures 1 <= idx <= |x|
    ensures forall j :: 0 <= j < |x| ==> Abs(x[j]) <= Abs(x[idx - 1])
    ensures forall j :: 0 <= j < idx - 1 ==> Abs(x[j]) < Abs(x[idx - 1])
    decreases |x|
  {
    if |x| == 1 then 1
    else
      var p := Isamax(x[..|x| - 1]);
      assert x[p - 1] == x[..|x| - 1][p - 1];
      if Abs(x[|x| - 1]) > Abs(x[p - 1]) then |x| else p
  }

  /** A vector of zeros is left unchanged by any scaling: why `Scale` may
      skip an unmaterialized vector. */
  lemma ScaledZeros(s: real, n: nat)
    ensures Scaled(s, Zeros(n)) == Zeros(n)
  {
  }

  /** Scaling by one is the identity: why the copy fast path of `axpy` may
      skip the final `Sscal` when the factor is one. */
  lemma ScaledByOne(x: seq<real>)
    ensures Scaled(1.0, x) == x
  {
  }

  /** Adding `s*x` onto zeros gives `s*x`: the copy-then-scale fast path of
      `axpy` agrees with the general path. */
  lemma AxpyOntoZeros(s: real, x: seq<real>)
    ensures Axpy(s, x, Zeros(|x|)) == Scaled(s, x)
  {
  }

  lemma {:induction false} InnerProductComm(x: seq<real>, y: seq<real>)
    requires |x| == |y|
    ensures InnerProduct(x, y) == InnerProduct(y, x)
    decreases |x|
  {
    if |x| > 0 {
      InnerProductComm(x[..|x| - 1], y[..|y| - 1]);
    }
  }

  lemma {:induction false} InnerProductScaled(c: real, x: seq<real>, y: seq<real>)
    requires |x| == |y|
    ensures InnerProduct(Scaled(c, x), y) == c * InnerProduct(x, y)
    decreases |x|
  {
    if |x| > 0 {
      var xs, ys := x[..|x| - 1], y[..|y| - 1];
      ScaledLast(c, x, y);
      InnerProductScaled(c, xs, ys);
      ScaleLastTerm(c, InnerProduct(Scaled(c, x), y), InnerProduct(Scaled(c, xs), ys),
                    InnerProduct(xs, ys), InnerProduct(x, y), x[|x| - 1], y[|y| - 1]);
    }
  }

  /** One step of the scaled product: the scaled prefix plus the scaled last
      term. */
  lemma ScaledLast(c: real, x: seq<real>, y: seq<real>)
    requires |x| == |y| > 0
    ensures InnerProduct(Scaled(c, x), y)
         == InnerProduct(Scaled(c, x[..|x| - 1]), y[..|y| - 1]) + (c * x[|x| - 1]) * y[|y| - 1]
  {
    var n := |x| - 1;
    forall i | 0 <= i < n ensures Scaled(c, x)[..n][i] == Scaled(c, x[..n])[i] {
      assert x[..n][i] == x[i];
    }
    assert Scaled(c, x)[..n] == Scaled(c, x[..n]);
  }

  /** The arithmetic step of `InnerProductScaled`: if the scaled prefix is
      `c` times the prefix, adding the scaled last term gives `c` times the
      whole product. */
  lemma ScaleLastTerm(c: real, scaled: real, scaledRest: real, rest: real, whole: real, a: real, b: real)
    ensures (scaled == scaledRest + (c * a) * b && scaledRest == c * rest && whole == rest + a * b)
            ==> scaled == c * whole
  {
  }

  /** The product with an all-zero operand is zero. */
  lemma {:induction false} InnerProductZeros(x: seq<real>)
    ensures InnerProduct(x, Zeros(|x|)) == 0.0
    decreases |x|
  {
    if |x| > 0 {
      assert Zeros(|x|)[..|x| - 1] == Zeros(|x| - 1);
      InnerProductZeros(x[..|x| - 1]);
    }
  }

  /** The product with an all-ones operand is the plain sum. */
  lemma {:induction false} InnerProductOnes(x: seq<real>)
    ensures InnerProduct(x, Ones(|x|)) == SumOf(x)
    decreases |x|
  {
    if |x| > 0 {
      assert Ones(|x|)[..|x| - 1] == Ones(|x| - 1);
      InnerProductOnes(x[..|x| - 1]);
    }
  }

  /** If `s` is `p` with `v` added at `k`, the product with `s` is the
      product with `p` plus `x[k]*v`. */
  lemma {:induction false} InnerProductBump(x: seq<real>, s: seq<real>, p: seq<real>, k: int, v: real)
    requires |x| == |s| == |p| && 0 <= k < |p|
    requires forall i :: 0 <= i < |p| ==> s[i] == p[i] + (if i == k then v else 0.0)
    ensures InnerProduct(x, s) == InnerProduct(x, p) + x[k] * v
    decreases |x|
  {
    if k < |x| - 1 {
      InnerProductBump(x[..|x| - 1], s[..|s| - 1], p[..|p| - 1], k, v);
      assert s[|s| - 1] == p[|p| - 1];
    } else {
      assert s[..|s| - 1] == p[..|p| - 1];
      BumpLastTerm(x[|x| - 1], p[|p| - 1], v);
    }
  }

  /** The arithmetic step of `InnerProductBump`. */
  lemma BumpLastTerm(a: real, b: real, v: real)
    ensures a * (b + v) == a * b + a * v
  {
  }

  /** An absolute sum over zeros is zero: why `AbsSum` may answer 0 for an
      unmaterialized vector. */
  lemma {:induction false} SumOfAbsZeros(n: nat)
    ensures SumOfAbs(Zeros(n)) == 0.0
  {
    if n > 0 {
      assert Zeros(n)[..n - 1] == Zeros(n - 1);
      SumOfAbsZeros(n - 1);
    }
  }
}
