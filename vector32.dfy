/** The float32 CUDA vector (`vector32` in vector32.go): a length and a
    device buffer that may be absent.  An absent buffer means the vector is
    exactly `size` zeros; the buffer is allocated by `LazyInit`, the one
    transition from lazy to materialized.  Every device call is modelled by
    its effect on the buffer contents, applied immediately and in order. */
module Vector32 {
  import opened Outcomes
  import opened DeviceMath

  /** The `buffer` field: nil, or a device allocation of `size` elements. */
  datatype Buffer = Lazy | Materialized(cells: seq<real>)

  /** Launch geometry of a one-dimensional kernel: blocks in the grid and
      threads per block. */
  datatype Geometry = Geometry(grid: nat, block: nat)

  /** The widest thread block `kernelSizes` uses. */
  const MAX_BLOCK: nat := 128

  /** `src` placed over `dst` starting at `start` (which may be negative, in
      which case the leading part of `src` falls off the front); every other
      position keeps its value. */
  function Splice(dst: seq<real>, start: int, src: seq<real>): (r: seq<real>)
    requires start + |src| <= |dst|
    ensures |r| == |dst|
  {
    seq(|dst|, i requires 0 <= i < |dst| =>
      if start <= i < start + |src| then src[i - start] else dst[i])
  }

  /** The clipped copy `SetSlice` performs is the splice: positions
      `[max(start, 0), start + |src|)` receive `src[max(-start, 0)..]` and the
      positions before and after are untouched. */
  lemma SpliceClipped(dst: seq<real>, start: int, src: seq<real>)
    requires start + |src| <= |dst| && start + |src| > 0
    ensures var lo := if start < 0 then 0 else start;
            var from := if start < 0 then -start else 0;
            Splice(dst, start, src) == dst[..lo] + src[from..] + dst[start + |src|..]
  {
    var lo := if start < 0 then 0 else start;
    var from := if start < 0 then -start else 0;
    var r := dst[..lo] + src[from..] + dst[start + |src|..];
    assert |r| == |dst|;
    forall i | 0 <= i < |dst| ensures Splice(dst, start, src)[i] == r[i] {
      if i < lo {
        assert r[i] == dst[i];
      } else if i < start + |src| {
        assert r[i] == src[from..][i - lo];
      } else {
        assert r[i] == dst[start + |src|..][i - start - |src|];
      }
    }
  }

  /** The copy `SetSlice` issues (`copyCount` elements of `src` from
      `srcStart`, written at `dstStart`) performs the splice. */
  lemma ClippedCopy(dst: seq<real>, start: int, src: seq<real>, dstStart: int, srcStart: int, copyCount: int)
    requires 0 < start + |src| <= |dst|
    requires dstStart == (if start < 0 then 0 else start)
    requires srcStart == (if start < 0 then -start else 0)
    requires copyCount == (if |dst| - dstStart < |src| - srcStart then |dst| - dstStart else |src| - srcStart)
    ensures 0 <= dstStart <= dstStart + copyCount <= |dst|
    ensures 0 <= srcStart <= srcStart + copyCount == |src|
    ensures src == Zeros(|src|) ==> src[srcStart..srcStart + copyCount] == Zeros(copyCount)
    ensures dst[..dstStart] + src[srcStart..srcStart + copyCount] + dst[dstStart + copyCount..]
         == Splice(dst, start, src)
  {
    SpliceClipped(dst, start, src);
    assert src[srcStart..srcStart + copyCount] == src[srcStart..];
  }

  /** Splicing the zeros of an absent operand over zeros leaves zeros. */
  lemma SpliceZeros(n: nat, start: int, m: nat)
    requires start + m <= n
    ensures Splice(Zeros(n), start, Zeros(m)) == Zeros(n)
  {
  }

  class Vector {
    /** `Len()`: fixed for the life of the vector. */
    const size: nat
    /** The device buffer, or `Lazy` while none has been allocated. */
    var buffer: Buffer

    predicate Valid()
      reads this
    {
      buffer.Materialized? ==> |buffer.cells| == size
    }

    /** What the vector denotes: the buffer, or `size` zeros while lazy. */
    function Contents(): (s: seq<real>)
      reads this
      requires Valid()
      ensures |s| == size
    {
      if buffer.Lazy? then Zeros(size) else buffer.cells
    }

    /** A fresh lazy vector, as `Creator32.MakeVector` documents. */
    constructor (n: nat)
      ensures Valid() && size == n && buffer == Lazy
    {
      size := n;
      buffer := Lazy;
    }

    /** `Data`: a lazy vector reads back as zeros without being
        materialized (the method changes nothing); otherwise the buffer. */
    method Data() returns (d: seq<real>)
      requires Valid()
      ensures |d| == size
      ensures buffer.Lazy? ==> forall i :: 0 <= i < size ==> d[i] == 0.0
      ensures buffer.Materialized? ==> d == buffer.cells
    {
      d := Zeros(size);
      if buffer.Materialized? {
        d := buffer.cells;
      }
    }

    /** `SetData`: the first `|d|` elements become `d`, the rest keep their
        value; a lazy receiver is zero-filled first when `d` is shorter. */
    method SetData(d: seq<real>) returns (st: Status)
      requires Valid()
      modifies this
      ensures Valid()
      ensures st == if |d| > size then Panic(INDEX_OUT_OF_RANGE) else Ok
      ensures st.Panic? ==> buffer == old(buffer)
      ensures st.Ok? ==> buffer.Materialized? && Contents() == d + old(Contents())[|d|..]
    {
      if |d| > size {
        return Panic(INDEX_OUT_OF_RANGE);
      }
      LazyInit(|d| < size);
      buffer := Materialized(d + buffer.cells[|d|..]);
      return Ok;
    }

    /** `Set`: copy `v1` in.  From a lazy source a materialized receiver is
        cleared and a lazy one stays lazy. */
    method Set(v1: Vector) returns (st: Status)
      requires Valid() && v1.Valid()
      modifies this
      ensures Valid()
      ensures st == AssertCompat(v1, false)
      ensures st.Panic? ==> buffer == old(buffer)
      ensures st.Ok? ==> Contents() == v1.Contents()
      ensures st.Ok? ==> (buffer.Materialized? <==> old(buffer).Materialized? || v1.buffer.Materialized?)
    {
      st := AssertCompat(v1, false);
      if st.Panic? {
        return;
      }
      if v1.buffer.Lazy? {
        if buffer.Materialized? {
          buffer := Materialized(Zeros(size));
        }
        return;
      }
      LazyInit(false);
      buffer := v1.buffer;
    }

    /** `Copy`: a new vector of the same length, then `Set`. */
    method Copy() returns (r: Vector)
      requires Valid()
      ensures fresh(r) && r.Valid() && r.size == size
      ensures r.Contents() == Contents()
      ensures r.buffer.Materialized? <==> buffer.Materialized?
    {
      r := new Vector(size);
      var st := r.Set(this);
    }

    /** `Slice`: an eager copy of `[start, end)` into a fresh buffer (no
        view is shared); a lazy source gives a lazy result. */
    method Slice(start: int, end: int) returns (r: Result<Vector>)
      requires Valid()
      ensures r.Panicked? <==> !(0 <= start <= end <= size)
      ensures r.Panicked? ==> r.msg == INDEX_OUT_OF_RANGE
      ensures r.Returned? ==>
        && 0 <= start <= end <= size
        && fresh(r.value) && r.value.Valid() && r.value.size == end - start
        && r.value.Contents() == Contents()[start..end]
        && (r.value.buffer.Lazy? <==> buffer.Lazy?)
    {
      if start < 0 || start > end || end > size {
        return Panicked(INDEX_OUT_OF_RANGE);
      }
      var res := new Vector(end - start);
      if buffer.Materialized? {
        res.buffer := Materialized(buffer.cells[start..end]);
      }
      return Returned(res);
    }

    /** `SetSlice`: `v1` is written at `start`, clipped at the front when
        `start` is negative.  There is no alias check: the model reads `v1`
        before writing. */
    method SetSlice(start: int, v1: Vector) returns (st: Status)
      requires Valid() && v1.Valid()
      modifies this
      ensures Valid()
      ensures st == if v1.size > size - start then Panic(INDEX_OUT_OF_RANGE) else Ok
      ensures st.Panic? || start + v1.size <= 0 ==> buffer == old(buffer)
      ensures st.Ok? ==> Contents() == Splice(old(Contents()), start, old(v1.Contents()))
      ensures st.Ok? ==>
        (buffer.Materialized? <==>
          old(buffer).Materialized? || (old(v1.buffer).Materialized? && start + v1.size > 0))
    {
      if v1.size > size - start {
        return Panic(INDEX_OUT_OF_RANGE);
      } else if start + v1.size <= 0 {
        return Ok;
      }
      if buffer.Lazy? && v1.buffer.Lazy? {
        SpliceZeros(size, start, v1.size);
        return Ok;
      }
      var dstStart, srcStart := start, 0;
      if start < 0 {
        dstStart, srcStart := 0, -start;
      }
      var copyCount := v1.size - srcStart;
      if size - dstStart < copyCount {
        copyCount := size - dstStart;
      }
      ghost var was, from := Contents(), v1.Contents();
      ClippedCopy(was, start, from, dstStart, srcStart, copyCount);
      var src := if v1.buffer.Lazy? then Zeros(copyCount)
                 else v1.buffer.cells[srcStart..srcStart + copyCount];
      LazyInit(true);
      var cells := buffer.cells;
      buffer := Materialized(cells[..dstStart] + src + cells[dstStart + copyCount..]);
      return Ok;
    }

    /** `Scale`: every element multiplied by `s`; a lazy vector stays lazy
        (zeros scale to zeros). */
    method Scale(s: real)
      requires Valid()
      modifies this
      ensures Valid()
      ensures buffer.Lazy? <==> old(buffer).Lazy?
      ensures Contents() == Scaled(s, old(Contents()))
    {
      if buffer.Lazy? {
        ScaledZeros(s, size);
        return;
      }
      buffer := Materialized(Scaled(s, buffer.cells));
    }

    /** `AddScaler`: always materializes, then adds `s` to every element. */
    method AddScaler(s: real)
      requires Valid()
      modifies this
      ensures Valid() && buffer.Materialized?
      ensures Contents() == Shifted(s, old(Contents()))
    {
      LazyInit(true);
      buffer := Materialized(Shifted(s, buffer.cells));
    }

    /** `Dot`: self-products are allowed; both operands end up materialized
        with their contents unchanged. */
    method Dot(v1: Vector) returns (r: Result<real>)
      requires Valid() && v1.Valid()
      modifies this, v1
      ensures Valid() && v1.Valid()
      ensures r.Panicked? <==> AssertCompat(v1, true).Panic?
      ensures r.Panicked? ==> r.msg == LENGTH_MISMATCH && buffer == old(buffer) && v1.buffer == old(v1.buffer)
      ensures r.Returned? ==>
        && buffer.Materialized? && v1.buffer.Materialized?
        && Contents() == old(Contents()) && v1.Contents() == old(v1.Contents())
        && r.value == InnerProduct(Contents(), v1.Contents())
    {
      var st := AssertCompat(v1, true);
      if st.Panic? {
        return Panicked(st.msg);
      }
      LazyInitAll(true, [this, v1]);
      return Returned(InnerProduct(buffer.cells, v1.buffer.cells));
    }

    method Add(v1: Vector) returns (st: Status)
      requires Valid() && v1.Valid()
      modifies this
      ensures Valid()
      ensures st == AssertCompat(v1, false)
      ensures st.Panic? || v1.buffer.Lazy? ==> buffer == old(buffer)
      ensures st.Ok? && v1.buffer.Materialized? ==> buffer.Materialized?
      ensures st.Ok? ==> Contents() == DeviceMath.Axpy(1.0, v1.Contents(), old(Contents()))
    {
      st := Axpy(1.0, v1);
    }

    method Sub(v1: Vector) returns (st: Status)
      requires Valid() && v1.Valid()
      modifies this
      ensures Valid()
      ensures st == AssertCompat(v1, false)
      ensures st.Panic? || v1.buffer.Lazy? ==> buffer == old(buffer)
      ensures st.Ok? && v1.buffer.Materialized? ==> buffer.Materialized?
      ensures st.Ok? ==> Contents() == DeviceMath.Axpy(-1.0, v1.Contents(), old(Contents()))
    {
      st := Axpy(-1.0, v1);
    }

    /** `axpy`: the receiver becomes `this + s*v1`.  A lazy operand changes
        nothing at all; a lazy receiver takes a copy of the operand, scaled
        only when `s` is not one. */
    method Axpy(s: real, v1: Vector) returns (st: Status)
      requires Valid() && v1.Valid()
      modifies this
      ensures Valid()
      ensures st == AssertCompat(v1, false)
      ensures st.Panic? || v1.buffer.Lazy? ==> buffer == old(buffer)
      ensures st.Ok? && v1.buffer.Materialized? ==> buffer.Materialized?
      ensures st.Ok? ==> Contents() == DeviceMath.Axpy(s, v1.Contents(), old(Contents()))
    {
      st := AssertCompat(v1, false);
      if st.Panic? {
        return;
      }
      ghost var was := Contents();
      if v1.buffer.Lazy? {
        AxpyOfZeros(s, was);
        return;
      } else if buffer.Lazy? {
        LazyInit(false);
        buffer := v1.buffer;
        AxpyOntoZeros(s, v1.buffer.cells);
        if s == 1.0 {
          ScaledByOne(v1.buffer.cells);
          return;
        }
        buffer := Materialized(Scaled(s, buffer.cells));
        return;
      }
      buffer := Materialized(DeviceMath.Axpy(s, v1.buffer.cells, buffer.cells));
    }

    /** `Mul`: both operands are materialized zero-filled, then the receiver
        is multiplied elementwise by `v1`. */
    method Mul(v1: Vector) returns (st: Status)
      requires Valid() && v1.Valid()
      modifies this, v1
      ensures Valid() && v1.Valid()
      ensures st == AssertCompat(v1, false)
      ensures st.Panic? ==> buffer == old(buffer) && v1.buffer == old(v1.buffer)
      ensures st.Ok? ==>
        && buffer.Materialized? && v1.buffer.Materialized?
        && v1.Contents() == old(v1.Contents())
        && Contents() == Hadamard(old(Contents()), v1.Contents())
    {
      st := AssertCompat(v1, false);
      if st.Panic? {
        return;
      }
      LazyInitAll(true, [this, v1]);
      buffer := Materialized(Hadamard(buffer.cells, v1.buffer.cells));
    }

    /** `Div`: as `Mul`, dividing by `v1`.  Where an element of `v1` is zero
        the float32 result (an infinity or NaN) is not a real number, and
        the model leaves it unspecified. */
    method Div(v1: Vector) returns (st: Status)
      requires Valid() && v1.Valid()
      modifies this, v1
      ensures Valid() && v1.Valid()
      ensures st == AssertCompat(v1, false)
      ensures st.Panic? ==> buffer == old(buffer) && v1.buffer == old(v1.buffer)
      ensures st.Ok? ==>
        && buffer.Materialized? && v1.buffer.Materialized?
        && v1.Contents() == old(v1.Contents())
        && forall i :: 0 <= i < size && v1.Contents()[i] != 0.0 ==>
             Contents()[i] == old(Contents())[i] / v1.Contents()[i]
    {
      st := AssertCompat(v1, false);
      if st.Panic? {
        return;
      }
      LazyInitAll(true, [this, v1]);
      var x, y := buffer.cells, v1.buffer.cells;
      var undefined: seq<real> :| |undefined| == size;
      buffer := Materialized(seq(size, i requires 0 <= i < size =>
        if y[i] != 0.0 then x[i] / y[i] else undefined[i]));
    }

    /** `Gemm`: only the identity guard and the materialization of all three
        vectors are modelled; the product itself is not, so the receiver's
        new contents are only known to have the right length. */
    method Gemm(a: Vector, b: Vector) returns (st: Status)
      requires Valid() && a.Valid() && b.Valid()
      modifies this, a, b
      ensures Valid() && a.Valid() && b.Valid()
      ensures st == if a == b || a == this || b == this then Panic(VECTORS_CANNOT_BE_EQUAL) else Ok
      ensures st.Panic? ==> buffer == old(buffer) && a.buffer == old(a.buffer) && b.buffer == old(b.buffer)
      ensures st.Ok? ==>
        && buffer.Materialized? && a.buffer.Materialized? && b.buffer.Materialized?
        && a.Contents() == old(a.Contents()) && b.Contents() == old(b.Contents())
    {
      if a == b || a == this || b == this {
        return Panic(VECTORS_CANNOT_BE_EQUAL);
      }
      LazyInitAll(true, [this, a, b]);
      var product: seq<real> :| |product| == size;
      buffer := Materialized(product);
      return Ok;
    }

    /** `lazyInit`: allocate when lazy, zero-filled when `clear`; without
        `clear` the new buffer holds whatever the allocator left there. */
    method LazyInit(clear: bool)
      requires Valid()
      modifies this
      ensures Valid() && buffer.Materialized?
      ensures old(buffer).Materialized? ==> buffer == old(buffer)
      ensures clear ==> Contents() == old(Contents())
    {
      if buffer.Materialized? {
        return;
      }
      assert |Zeros(size)| == size;
      var uninitialized: seq<real> :| |uninitialized| == size;
      buffer := Materialized(uninitialized);
      if clear {
        buffer := Materialized(Zeros(size));
      }
    }

    /** `assertCompat`: identity is refused only for a writing call; the
        lengths must agree. */
    function AssertCompat(v1: Vector, readOnly: bool): (st: Status)
      ensures st.Panic? <==> (!readOnly && this == v1) || size != v1.size
      ensures !readOnly && this == v1 ==> st.msg == VECTORS_CANNOT_BE_EQUAL
      ensures (readOnly || this != v1) && size != v1.size ==> st.msg == LENGTH_MISMATCH
    {
      if !readOnly && this == v1 then Panic(VECTORS_CANNOT_BE_EQUAL)
      else if size != v1.size then Panic(LENGTH_MISMATCH)
      else Ok
    }

    /** `kernelSizes`: one block of `size` threads for a short vector,
        otherwise blocks of 128 threads, as few as cover every element. */
    function KernelSizes(): (g: Geometry)
      ensures size < MAX_BLOCK ==> g.grid == 1 && g.block == size
      ensures size >= MAX_BLOCK ==>
        g.block == MAX_BLOCK && (g.grid - 1) * g.block < size <= g.grid * g.block
    {
      if size < MAX_BLOCK then Geometry(1, size)
      else
        var grid := size / MAX_BLOCK;
        Geometry(if size % MAX_BLOCK != 0 then grid + 1 else grid, MAX_BLOCK)
    }
  }

  /** `axpy` with an all-zero operand is the identity. */
  lemma AxpyOfZeros(s: real, y: seq<real>)
    ensures DeviceMath.Axpy(s, Zeros(|y|), y) == y
  {
  }

  /** `lazyInitAll`: materialize each vector in turn.  A vector listed twice
      is materialized once; with `clear` no vector changes what it denotes. */
  method LazyInitAll(clear: bool, vs: seq<Vector>)
    requires forall x :: x in vs ==> x.Valid()
    modifies set x | x in vs
    ensures forall x :: x in vs ==> x.Valid() && x.buffer.Materialized?
    ensures forall x :: x in vs && old(x.buffer).Materialized? ==> x.buffer == old(x.buffer)
    ensures clear ==> forall x :: x in vs ==> x.Contents() == old(x.Contents())
  {
    var i := 0;
    while i < |vs|
      invariant 0 <= i <= |vs|
      invariant forall x :: x in vs ==> x.Valid()
      invariant forall x :: x in vs[..i] ==> x.buffer.Materialized?
      invariant forall x :: x in vs && old(x.buffer).Materialized? ==> x.buffer == old(x.buffer)
      invariant clear ==> forall x :: x in vs ==> x.Contents() == old(x.Contents())
    {
      vs[i].LazyInit(clear);
      i := i + 1;
    }
  }
}
