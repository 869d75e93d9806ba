/** The float32 index mapper (`mapper32` in mapper32.go): a table of
    `outSize` indices into an input of `inSize` elements, applied forwards
    as a gather and backwards as a scatter-add. */
module Mapper32 {
  import opened Outcomes
  import opened DeviceMath
  import opened Vector32

  /** A Go `int` that survives the round trip through `int32`. */
  predicate FitsInt32(x: int) {
    -0x8000_0000 <= x < 0x8000_0000
  }

  /** Every entry of `table` indexes a sequence of length `n`. */
  predicate InRange(table: seq<int>, n: int) {
    forall i :: 0 <= i < |table| ==> 0 <= table[i] < n
  }

  /** The `mapForward` kernel: `out[i] = in[table[i]]`. */
  function Gather(src: seq<real>, table: seq<int>): (r: seq<real>)
    requires InRange(table, |src|)
    ensures |r| == |table|
  {
    seq(|table|, i requires 0 <= i < |table| => src[table[i]])
  }

  /** The sum of the `vals[i]` whose table entry is `j`. */
  function SumWhere(vals: seq<real>, table: seq<int>, j: int): real
    requires |vals| == |table|
    decreases |table|
  {
    if |table| == 0 then 0.0
    else SumWhere(vals[..|vals| - 1], table[..|table| - 1], j)
         + (if table[|table| - 1] == j then vals[|vals| - 1] else 0.0)
  }

  /** The `mapBackward` kernel: every `vals[i]` is added into
      `acc[table[i]]`.  Position `j` ends up holding `acc[j]` plus the sum of
      the values mapped to it; the threads may add in any order. */
  function ScatterAdd(acc: seq<real>, vals: seq<real>, table: seq<int>): (r: seq<real>)
    requires |vals| == |table|
    ensures |r| == |acc|
  {
    seq(|acc|, j requires 0 <= j < |acc| => acc[j] + SumWhere(vals, table, j))
  }

  /** The same accumulation done one value at a time, in index order. */
  function ScatterInOrder(acc: seq<real>, vals: seq<real>, table: seq<int>): (r: seq<real>)
    requires |vals| == |table| && InRange(table, |acc|)
    ensures |r| == |acc|
    decreases |table|
  {
    if |table| == 0 then acc
    else
      var n := |table| - 1;
      var p := ScatterInOrder(acc, vals[..n], table[..n]);
      p[table[n] := p[table[n]] + vals[n]]
  }

  lemma {:induction false} ScatterInOrderAt(acc: seq<real>, vals: seq<real>, table: seq<int>, j: nat)
    requires |vals| == |table| && InRange(table, |acc|) && j < |acc|
    ensures ScatterInOrder(acc, vals, table)[j] == acc[j] + SumWhere(vals, table, j)
    decreases |table|
  {
    if |table| > 0 {
      var n := |table| - 1;
      ScatterInOrderAt(acc, vals[..n], table[..n], j);
    }
  }

  /** Adding the values one at a time, in index order, gives the kernel's
      result: duplicate table entries add up instead of overwriting each
      other, and the order of the additions does not matter. */
  lemma ScatterInOrderAgrees(acc: seq<real>, vals: seq<real>, table: seq<int>)
    requires |vals| == |table| && InRange(table, |acc|)
    ensures ScatterInOrder(acc, vals, table) == ScatterAdd(acc, vals, table)
  {
    forall j | 0 <= j < |acc| ensures ScatterInOrder(acc, vals, table)[j] == ScatterAdd(acc, vals, table)[j] {
      ScatterInOrderAt(acc, vals, table, j);
    }
  }

  /** The last value lands on top of the scatter of the others. */
  lemma ScatterAddStep(acc: seq<real>, vals: seq<real>, table: seq<int>)
    requires |vals| == |table| > 0
    ensures forall i :: 0 <= i < |acc| ==>
      ScatterAdd(acc, vals, table)[i]
        == ScatterAdd(acc, vals[..|vals| - 1], table[..|table| - 1])[i]
           + (if i == table[|table| - 1] then vals[|vals| - 1] else 0.0)
  {
  }

  /** An absent input gathers to zeros. */
  lemma GatherZeros(n: nat, table: seq<int>)
    requires InRange(table, n)
    ensures Gather(Zeros(n), table) == Zeros(|table|)
  {
  }

  /** The scatter-add is the transpose of the gather:
      `<Gather(x), y> == <x, ScatterAdd(0, y)>` for every `x` and `y`. */
  lemma {:induction false} MapAdjoint(x: seq<real>, y: seq<real>, table: seq<int>)
    requires InRange(table, |x|) && |y| == |table|
    ensures InnerProduct(Gather(x, table), y) == InnerProduct(x, ScatterAdd(Zeros(|x|), y, table))
    decreases |table|
  {
    if |table| > 0 {
      GatherLast(x, y, table);
      ScatterLast(x, Zeros(|x|), y, table);
      MapAdjoint(x, y[..|y| - 1], table[..|table| - 1]);
    } else {
      assert ScatterAdd(Zeros(|x|), y, table) == Zeros(|x|);
      InnerProductZeros(x);
    }
  }

  /** One step of the gathered product: the gather of the table's prefix,
      plus the last gathered element times the last weight. */
  lemma GatherLast(x: seq<real>, y: seq<real>, table: seq<int>)
    requires InRange(table, |x|) && |y| == |table| > 0
    ensures InRange(table[..|table| - 1], |x|)
    ensures InnerProduct(Gather(x, table), y)
         == InnerProduct(Gather(x, table[..|table| - 1]), y[..|y| - 1]) + x[table[|table| - 1]] * y[|y| - 1]
  {
    var n := |table| - 1;
    assert InRange(table[..n], |x|);
    assert Gather(x, table)[..n] == Gather(x, table[..n]);
  }

  /** One step of the scattered product: the scatter of the table's prefix,
      plus the last value times the element it lands on. */
  lemma ScatterLast(x: seq<real>, acc: seq<real>, y: seq<real>, table: seq<int>)
    requires |acc| == |x| && InRange(table, |x|) && |y| == |table| > 0
    ensures InnerProduct(x, ScatterAdd(acc, y, table))
         == InnerProduct(x, ScatterAdd(acc, y[..|y| - 1], table[..|table| - 1]))
            + x[table[|table| - 1]] * y[|y| - 1]
  {
    ScatterAddStep(acc, y, table);
    InnerProductBump(x, ScatterAdd(acc, y, table), ScatterAdd(acc, y[..|y| - 1], table[..|table| - 1]),
                     table[|table| - 1], y[|y| - 1]);
  }

  /** Number of int32 entries of the table buffer as `newMapper32`
      allocates it: `inSize * 4` bytes. */
  function TableCapacityAsWritten(inSize: int, table: seq<int>): int {
    inSize
  }

  /** A valid table longer than its input overflows the buffer allocated
      for it. */
  lemma TableOverflowAsWritten()
    ensures InRange([0, 0], 1) && FitsInt32(1) && FitsInt32(2)
    ensures TableCapacityAsWritten(1, [0, 0]) < |[0, 0]|
  {
  }

  /** Number of int32 entries the table buffer needs: one per entry. */
  function TableCapacity(table: seq<int>): nat {
    |table|
  }

  class Mapper {
    const inSize: int
    const outSize: nat
    /** The table as written to the device. */
    const table: seq<int>
    /** Number of int32 entries the table's device buffer holds. */
    const capacity: nat

    /** The table has one in-range entry per output and fits its buffer. */
    predicate Valid() {
      |table| == outSize && |table| <= capacity && InRange(table, inSize)
    }

    constructor (inSize: int, table: seq<int>, capacity: nat)
      ensures this.inSize == inSize && this.outSize == |table|
      ensures this.table == table && this.capacity == capacity
    {
      this.inSize := inSize;
      this.outSize := |table|;
      this.table := table;
      this.capacity := capacity;
    }

    /** The input length: every table entry indexes an input this long. */
    function InSize(): (n: int)
      requires Valid()
      ensures InRange(table, n)
    {
      inSize
    }

    /** The output length: one output per table entry. */
    function OutSize(): (n: nat)
      requires Valid()
      ensures n == |table|
    {
      outSize
    }

    /** `Map`: `dst[i] = src[table[i]]`.  A lazy input clears a materialized
        output and leaves a lazy one lazy; `src` itself is never touched. */
    method Map(src: Vector, dst: Vector) returns (st: Status)
      requires Valid() && src.Valid() && dst.Valid()
      modifies dst
      ensures dst.Valid()
      ensures st.Panic? <==> src.size != inSize || dst.size != outSize || src == dst
      ensures src.size != inSize ==> st.msg == BAD_INPUT_SIZE
      ensures src.size == inSize && dst.size != outSize ==> st.msg == BAD_OUT_SIZE
      ensures src.size == inSize && dst.size == outSize && src == dst ==> st.msg == INPUTS_OVERLAP
      ensures st.Panic? ==> dst.buffer == old(dst.buffer)
      ensures st.Ok? ==> src.size == inSize && dst.Contents() == Gather(src.Contents(), table)
      ensures st.Ok? && src.buffer.Lazy? ==> (dst.buffer.Lazy? <==> old(dst.buffer).Lazy?)
      ensures st.Ok? && src.buffer.Materialized? ==> dst.buffer.Materialized?
    {
      if src.size != inSize {
        return Panic(BAD_INPUT_SIZE);
      } else if dst.size != outSize {
        return Panic(BAD_OUT_SIZE);
      } else if src == dst {
        return Panic(INPUTS_OVERLAP);
      }
      if src.buffer.Lazy? {
        GatherZeros(src.size, table);
        if dst.buffer.Materialized? {
          dst.buffer := Materialized(Zeros(dst.size));
        }
        return Ok;
      }
      dst.LazyInit(false);
      dst.buffer := Materialized(Gather(src.buffer.cells, table));
      return Ok;
    }

    /** `MapTranspose`: both vectors are materialized zero-filled, then
        `src[i]` is added into `dst[table[i]]` for every `i`. */
    method MapTranspose(src: Vector, dst: Vector) returns (st: Status)
      requires Valid() && src.Valid() && dst.Valid()
      modifies src, dst
      ensures src.Valid() && dst.Valid()
      ensures st.Panic? <==> src.size != outSize || dst.size != inSize || src == dst
      ensures src.size != outSize ==> st.msg == BAD_INPUT_SIZE
      ensures src.size == outSize && dst.size != inSize ==> st.msg == BAD_OUT_SIZE
      ensures src.size == outSize && dst.size == inSize && src == dst ==> st.msg == INPUTS_OVERLAP
      ensures st.Panic? ==> src.buffer == old(src.buffer) && dst.buffer == old(dst.buffer)
      ensures st.Ok? ==>
        && src.buffer.Materialized? && dst.buffer.Materialized?
        && src.Contents() == old(src.Contents())
        && dst.size == inSize
        && dst.Contents() == ScatterAdd(old(dst.Contents()), src.Contents(), table)
    {
      if src.size != outSize {
        return Panic(BAD_INPUT_SIZE);
      } else if dst.size != inSize {
        return Panic(BAD_OUT_SIZE);
      } else if src == dst {
        return Panic(INPUTS_OVERLAP);
      }
      LazyInitAll(true, [src, dst]);
      dst.buffer := Materialized(ScatterAdd(dst.buffer.cells, src.buffer.cells, table));
      return Ok;
    }
  }

  /** `newMapper32`: both sizes must fit in an int32 and every entry must
      index the input; the entries are copied into an int32 array and then
      to a device buffer sized for the table. */
  method NewMapper32(inSize: int, table: seq<int>) returns (r: Result<Mapper>)
    ensures r.Panicked? <==> !FitsInt32(inSize) || !FitsInt32(|table|) || !InRange(table, inSize)
    ensures !FitsInt32(inSize) || !FitsInt32(|table|) ==> r == Panicked(MAPPER_TOO_BIG)
    ensures FitsInt32(inSize) && FitsInt32(|table|) && !InRange(table, inSize) ==>
      r == Panicked(INDEX_OUT_OF_RANGE)
    ensures r.Returned? ==>
      && r.value.Valid()
      && r.value.InSize() == inSize && r.value.OutSize() == |table|
      && r.value.table == table
  {
    if !FitsInt32(inSize) || !FitsInt32(|table|) {
      return Panicked(MAPPER_TOO_BIG);
    }
    var ints32 := new int[|table|];
    var i := 0;
    while i < |table|
      invariant 0 <= i <= |table|
      invariant ints32[..i] == table[..i]
      invariant InRange(table[..i], inSize)
    {
      var x := table[i];
      if x >= inSize || x < 0 {
        return Panicked(INDEX_OUT_OF_RANGE);
      }
      ints32[i] := x;
      i := i + 1;
    }
    assert ints32[..] == table;
    var m := new Mapper(inSize, ints32[..], TableCapacity(table));
    return Returned(m);
  }
}
