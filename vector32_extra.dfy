/** The remaining vector operations (vector32_extra.go): elementwise and
    comparison kernels, broadcast operations over chunks and repeated
    patterns, reductions, and the power-of-two test that picks a kernel
    variant.  Each is a method over `Vector32.Vector`. */
module Vector32Extra {
  import opened Outcomes
  import opened DeviceMath
  import opened Vector32

  /** How a broadcast operand is combined into the receiver. */
  datatype Combine = Add | Mul

  function Combined(c: Combine, a: real, b: real): real {
    match c
    case Add => a + b
    case Mul => a * b
  }

  /** The comparison kernels, each writing 1 where the test holds and 0
      where it does not. */
  datatype Comparison = LessThan | GreaterThan | EqualTo

  function Mask(c: Comparison, x: real, alpha: real): real {
    var holds := match c
      case LessThan => x < alpha
      case GreaterThan => x > alpha
      case EqualTo => x == alpha;
    if holds then 1.0 else 0.0
  }

  /** A kernel launch as the command queue receives it: the kernel's name,
      its geometry, and the final integer argument. */
  datatype Launch = Launch(kernel: string, geometry: Geometry, indexArg: int)

  // ---------------------------------------------------------------------
  // Chunks and repeated patterns

  lemma MulMonotone(a: nat, b: nat, r: nat)
    requires a <= b
    ensures a * r <= b * r
  {
  }

  lemma ChunkBound(i: nat, n: nat, count: nat)
    requires count > 0 && n % count == 0 && i < n
    ensures n / count > 0 && i / (n / count) < count
  {
    var rows := n / count;
    assert n == rows * count;
    if i / rows >= count {
      MulMonotone(count, i / rows, rows);
    }
  }

  /** Which of `count` equal contiguous chunks of `[0, n)` holds `i`. */
  function ChunkOf(i: nat, n: nat, count: nat): (j: nat)
    requires count > 0 && n % count == 0 && i < n
    ensures j < count
    ensures j * (n / count) <= i < (j + 1) * (n / count)
  {
    ChunkBound(i, n, count);
    i / (n / count)
  }

  /** The element at offset `k` of chunk `j` belongs to chunk `j`. */
  lemma ChunkOfAt(j: nat, k: nat, n: nat, count: nat)
    requires count > 0 && n % count == 0 && j < count && k < n / count
    ensures j * (n / count) + k < n
    ensures ChunkOf(j * (n / count) + k, n, count) == j
  {
    var rows := n / count;
    assert n == rows * count;
    MulMonotone(j + 1, count, rows);
    var c := ChunkOf(j * rows + k, n, count);
    if c < j {
      MulMonotone(c + 1, j, rows);
    } else if c > j {
      MulMonotone(j + 1, c, rows);
    }
  }

  /** The receiver split into `|w|` contiguous chunks, chunk `j` combined
      with `w[j]`: `ScaleChunks` and the `addChunks` kernel. */
  function Chunked(c: Combine, x: seq<real>, w: seq<real>): (r: seq<real>)
    requires |w| > 0 && |x| % |w| == 0
    ensures |r| == |x|
  {
    seq(|x|, i requires 0 <= i < |x| => Combined(c, x[i], w[ChunkOf(i, |x|, |w|)]))
  }

  /** Every element of chunk `[j*rows, (j+1)*rows)` is combined with `w[j]`. */
  lemma ChunkedAt(c: Combine, x: seq<real>, w: seq<real>, j: nat, k: nat)
    requires |w| > 0 && |x| % |w| == 0 && j < |w| && k < |x| / |w|
    ensures j * (|x| / |w|) + k < |x|
    ensures Chunked(c, x, w)[j * (|x| / |w|) + k] == Combined(c, x[j * (|x| / |w|) + k], w[j])
  {
    ChunkOfAt(j, k, |x|, |w|);
  }

  /** `w` repeated end to end over the receiver, element `i` combined with
      `w[i % |w|]`: the `addRepeated` and `scaleRepeated` kernels. */
  function Tiled(c: Combine, x: seq<real>, w: seq<real>): (r: seq<real>)
    requires |w| > 0
    ensures |r| == |x|
  {
    seq(|x|, i requires 0 <= i < |x| => Combined(c, x[i], w[i % |w|]))
  }

  /** Tiling a pattern over a receiver twice its length adds the pattern to
      each half. */
  lemma TiledTwice(x: seq<real>, w: seq<real>)
    requires |w| > 0 && |x| == 2 * |w|
    ensures Tiled(Add, x, w) == DeviceMath.Axpy(1.0, w + w, x)
  {
    var n := |w|;
    forall i | 0 <= i < |x| ensures Tiled(Add, x, w)[i] == DeviceMath.Axpy(1.0, w + w, x)[i] {
      var k := if i < n then i else i - n;
      SecondLap(i, n);
      assert i % n == k && (w + w)[i] == w[k];
    }
  }

  /** Within the first two laps of a pattern of length `n`, the position in
      the pattern is `i` or `i - n`. */
  lemma SecondLap(i: int, n: int)
    requires 0 <= i < 2 * n
    ensures i % n == if i < n then i else i - n
  {
  }

  /** The guard shared by `ScaleChunks` and `AddChunks`.  A zero-length
      operand reaches the `%` and panics in the Go runtime. */
  function ChunkCheck(v: Vector, v1: Vector): (st: Status)
    ensures st.Panic? <==> v == v1 || v1.size == 0 || v.size % v1.size != 0
    ensures v == v1 ==> st.msg == INPUTS_OVERLAP
    ensures v != v1 && v1.size == 0 ==> st.msg == INTEGER_DIVIDE_BY_ZERO
    ensures v != v1 && v1.size > 0 && v.size % v1.size != 0 ==> st.msg == SCALER_COUNT_MUST_DIVIDE
  {
    if v == v1 then Panic(INPUTS_OVERLAP)
    else if v1.size == 0 then Panic(INTEGER_DIVIDE_BY_ZERO)
    else if v.size % v1.size != 0 then Panic(SCALER_COUNT_MUST_DIVIDE)
    else Ok
  }

  /** `ScaleChunks`: chunk `j` of the receiver is multiplied by `v1[j]`;
      both vectors are materialized zero-filled. */
  method ScaleChunks(v: Vector, v1: Vector) returns (st: Status)
    requires v.Valid() && v1.Valid()
    modifies v, v1
    ensures v.Valid() && v1.Valid()
    ensures st == ChunkCheck(v, v1)
    ensures st.Panic? ==> v.buffer == old(v.buffer) && v1.buffer == old(v1.buffer)
    ensures st.Ok? ==>
      && v.buffer.Materialized? && v1.buffer.Materialized?
      && v1.Contents() == old(v1.Contents())
      && v.Contents() == Chunked(Mul, old(v.Contents()), v1.Contents())
  {
    st := ChunkCheck(v, v1);
    if st.Panic? {
      return;
    }
    LazyInitAll(true, [v, v1]);
    v.buffer := Materialized(Chunked(Mul, v.buffer.cells, v1.buffer.cells));
  }

  /** `AddChunks`: `v1[j]` is added to every element of chunk `j`; both
      vectors are materialized zero-filled. */
  method AddChunks(v: Vector, v1: Vector) returns (st: Status)
    requires v.Valid() && v1.Valid()
    modifies v, v1
    ensures v.Valid() && v1.Valid()
    ensures st == ChunkCheck(v, v1)
    ensures st.Panic? ==> v.buffer == old(v.buffer) && v1.buffer == old(v1.buffer)
    ensures st.Ok? ==>
      && v.buffer.Materialized? && v1.buffer.Materialized?
      && v1.Contents() == old(v1.Contents())
      && v.Contents() == Chunked(Add, old(v.Contents()), v1.Contents())
  {
    st := ChunkCheck(v, v1);
    if st.Panic? {
      return;
    }
    LazyInitAll(true, [v, v1]);
    v.buffer := Materialized(Chunked(Add, v.buffer.cells, v1.buffer.cells));
  }

  function RepeatedKernel(c: Combine): string {
    match c
    case Add => "addRepeated"
    case Mul => "scaleRepeated"
  }

  /** `repeatedOp` (behind `AddRepeated` and `ScaleRepeated`): the operand
      is tiled over the receiver.  A power-of-two operand length selects the
      "Pow2" kernel, which is passed the mask `n - 1` instead of `n`.
      Whether `n` divides the receiver's length is not checked. */
  method RepeatedOp(v: Vector, c: Combine, v1: Vector) returns (r: Result<Launch>)
    requires v.Valid() && v1.Valid()
    modifies v, v1
    ensures v.Valid() && v1.Valid()
    ensures r.Panicked? <==> v == v1 || v1.size == 0
    ensures v == v1 ==> r == Panicked(INPUTS_OVERLAP)
    ensures v != v1 && v1.size == 0 ==> r == Panicked(REPEATED_VECTOR_EMPTY)
    ensures r.Panicked? ==> v.buffer == old(v.buffer) && v1.buffer == old(v1.buffer)
    ensures r.Returned? ==>
      && v.buffer.Materialized? && v1.buffer.Materialized?
      && v1.Contents() == old(v1.Contents())
      && v.Contents() == Tiled(c, old(v.Contents()), v1.Contents())
      && r.value.geometry == v.KernelSizes()
      && (IsPow2(v1.size) ==> r.value.kernel == RepeatedKernel(c) + "Pow2" && r.value.indexArg == v1.size - 1)
      && (!IsPow2(v1.size) ==> r.value.kernel == RepeatedKernel(c) && r.value.indexArg == v1.size)
  {
    if v == v1 {
      return Panicked(INPUTS_OVERLAP);
    } else if v1.size == 0 {
      return Panicked(REPEATED_VECTOR_EMPTY);
    }
    LazyInitAll(true, [v, v1]);
    var kernel := RepeatedKernel(c);
    var grid := v.KernelSizes();
    v.buffer := Materialized(Tiled(c, v.buffer.cells, v1.buffer.cells));
    var pow2 := IsPowerOf2(v1.size);
    if pow2 {
      kernel := kernel + "Pow2";
      return Returned(Launch(kernel, grid, v1.size - 1));
    } else {
      return Returned(Launch(kernel, grid, v1.size));
    }
  }

  // ---------------------------------------------------------------------
  // Elementwise and comparison kernels

  /** `unaryOp` (behind `Exp`, `Log`, `Tanh`, `Sin`, `Sigmoid`, `ClipPos`):
      always materializes zero-filled, then applies the kernel's element
      function `f` to all `size` elements. */
  method UnaryOp(v: Vector, f: real -> real)
    requires v.Valid()
    modifies v
    ensures v.Valid() && v.buffer.Materialized?
    ensures v.Contents() == Pointwise(f, old(v.Contents()))
  {
    v.LazyInit(true);
    v.buffer := Materialized(Pointwise(f, v.buffer.cells));
  }

  /** `compare` (behind `LessThan`, `GreaterThan`, `EqualTo`): always
      materializes zero-filled, then replaces every element by its mask. */
  method Compare(v: Vector, c: Comparison, alpha: real)
    requires v.Valid()
    modifies v
    ensures v.Valid() && v.buffer.Materialized?
    ensures |v.Contents()| == |old(v.Contents())|
    ensures forall i :: 0 <= i < v.size ==> v.Contents()[i] == Mask(c, old(v.Contents())[i], alpha)
  {
    v.LazyInit(true);
    v.buffer := Materialized(Pointwise(x => Mask(c, x, alpha), v.buffer.cells));
  }

  // ---------------------------------------------------------------------
  // Reductions

  /** `Sum`: the dot product with a fresh all-ones vector; like `Dot` it
      leaves the receiver materialized with unchanged contents. */
  method Sum(v: Vector) returns (r: real)
    requires v.Valid()
    modifies v
    ensures v.Valid() && v.buffer.Materialized? && v.Contents() == old(v.Contents())
    ensures r == SumOf(v.Contents())
  {
    var ones := new Vector(v.size);
    ones.AddScaler(1.0);
    assert ones.Contents() == Ones(v.size);
    var d := v.Dot(ones);
    InnerProductOnes(v.Contents());
    r := d.value;
  }

  /** `norm`: a lazy vector reduces to 0 without being materialized;
      otherwise the cuBLAS reduction `f` runs over the buffer. */
  method NormOf(v: Vector, f: seq<real> -> real) returns (r: real)
    requires v.Valid()
    ensures v.buffer.Lazy? ==> r == 0.0
    ensures v.buffer.Materialized? ==> r == f(v.buffer.cells)
  {
    r := 0.0;
    if v.buffer.Materialized? {
      r := f(v.buffer.cells);
    }
  }

  /** `AbsSum`: the sum of magnitudes of what the vector denotes, lazy or
      not, and never negative. */
  method AbsSum(v: Vector) returns (r: real)
    requires v.Valid()
    ensures r == SumOfAbs(v.Contents())
    ensures r >= 0.0
  {
    r := NormOf(v, SumOfAbs);
    if v.buffer.Lazy? {
      SumOfAbsZeros(v.size);
    }
  }

  /** `AbsMax`: the largest magnitude in the vector, 0 when it is lazy or
      empty.  The element is read back at the 1-based index `Isamax`
      reports, and its sign is dropped. */
  method AbsMax(v: Vector) returns (r: real)
    requires v.Valid()
    ensures r >= 0.0
    ensures forall j :: 0 <= j < v.size ==> Abs(v.Contents()[j]) <= r
    ensures v.size > 0 ==> exists j :: 0 <= j < v.size && r == Abs(v.Contents()[j])
    ensures v.buffer.Lazy? || v.size == 0 ==> r == 0.0
    ensures v.buffer.Materialized? && v.size > 0 ==>
      r == Abs(v.buffer.cells[Isamax(v.buffer.cells) - 1])
  {
    r := 0.0;
    if v.buffer.Lazy? || v.size == 0 {
      assert v.size > 0 ==> r == Abs(v.Contents()[0]);
      return;
    }
    var idx := Isamax(v.buffer.cells);
    r := v.buffer.cells[idx - 1];
    if r < 0.0 {
      r := -r;
    }
    assert r == Abs(v.Contents()[idx - 1]);
  }

  // ---------------------------------------------------------------------
  // Powers of two

  function Pow2(k: nat): (p: nat)
    ensures p >= 1
  {
    if k == 0 then 1 else 2 * Pow2(k - 1)
  }

  ghost predicate IsPow2(n: int) {
    exists k: nat :: Pow2(k) == n
  }

  lemma {:induction false} Pow2Monotone(a: nat, b: nat)
    requires a < b
    ensures 2 * Pow2(a) <= Pow2(b)
    decreases b
  {
    if a + 1 < b {
      Pow2Monotone(a, b - 1);
    }
  }

  /** One step of the halving loop keeps `n` between `p*m` and `p*(m+1)`. */
  lemma HalvingStep(n: int, m: int, p: nat)
    requires m >= 2 && p * m <= n < p * (m + 1)
    ensures 2 * p * (m / 2) <= n < 2 * p * (m / 2 + 1)
  {
    var q, r := m / 2, m % 2;
    assert m == 2 * q + r;
    assert p * m == 2 * p * q + p * r;
    assert p * (m + 1) == 2 * p * q + p * r + p;
    assert 2 * p * (q + 1) == 2 * p * q + 2 * p;
  }

  /** `isPowerOf2`: halve until at most one, counting the halvings, then
      shift back.  For `n >= 1` this holds exactly for powers of two; every
      `n <= 0` passes as well. */
  method IsPowerOf2(n: int) returns (b: bool)
    ensures n <= 0 ==> b
    ensures n >= 1 ==> (b <==> IsPow2(n))
  {
    var log: nat := 0;
    var newNum := n;
    while newNum > 1
      invariant n >= 1 ==> newNum >= 1 && Pow2(log) * newNum <= n < Pow2(log) * (newNum + 1)
      invariant n < 1 ==> newNum == n && log == 0
      decreases newNum
    {
      HalvingStep(n, newNum, Pow2(log));
      newNum := newNum / 2;
      log := log + 1;
    }
    // The shift `newNum << log` multiplies by 2^log; it cannot overflow
    // because the result never exceeds n.
    b := newNum * Pow2(log) == n;
    if n >= 1 && !b && IsPow2(n) {
      var k: nat :| Pow2(k) == n;
      if k < log {
        Pow2Monotone(k, log);
      } else if k > log {
        Pow2Monotone(log, k);
      }
    }
  }
}
