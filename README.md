# cudavec: lazy float32 CUDA vectors and index mappers, in Dafny

This project models the core of `cudavec`, a Go package that implements
`anyvec` vectors on a CUDA device. A `vector32` has a length and a device
buffer. The buffer may be nil, and then the vector is exactly `Len()` zeros.
`lazyInit` allocates the buffer, optionally zero-filled. It is the only
transition from lazy to materialized. Each operation either keeps a lazy
vector lazy (`Scale`, `norm`, `AbsMax`, `axpy` with a lazy operand) or
materializes it first (`AddScaler`, `Dot`, `Mul`, `Div`, the elementwise,
comparison, chunk and repeated kernels). A `mapper32` holds a validated table
of indices. It gathers forwards (`Map`) and scatter-adds backwards
(`MapTranspose`).

Layout, one module per source file plus two support modules:

- `outcomes.dfy` (`Outcomes`): the `Status`/`Result` values. A Go `panic` at
  the call boundary becomes `Panic(msg)` carrying the source's own message,
  and the state is left unchanged.
- `device_math.dfy` (`DeviceMath`): what each cuBLAS routine and named kernel
  computes, stated over sequences of reals, with lemmas about these
  functions.
- `vector32.dfy` (`Vector32`): `class Vector` has a constant `size` and a
  `buffer: Buffer` (`Lazy | Materialized(cells)`). `Contents()` is what the
  vector denotes. The methods of vector32.go, plus `LazyInitAll`.
- `vector32_extra.dfy` (`Vector32Extra`): the operations of
  vector32_extra.go, as methods over a `Vector`.
- `mapper32.dfy` (`Mapper32`): `class Mapper`, `NewMapper32`, the gather and
  scatter functions, and the adjoint lemma.
- `scenarios.dfy` (`Scenarios`): clients that rely on the contracts alone,
  for example `[1,2,3,4]` scaled by 2, shifted by 1, sums to 24.

Each device call is replaced by its effect on the buffer contents. The
effects happen immediately and in submission order. These choices follow the
code:

- `Slice` makes an eager copy into a fresh buffer. It does not return a view.
- Every alias check compares object identity (`v == v1`). None of them
  compares overlapping ranges.
- `SetSlice` has no alias check.
- `repeatedOp` does not check that the operand's length divides the
  receiver's length.
- `isPowerOf2` accepts every `n <= 0`.
- A zero-length operand of `ScaleChunks`/`AddChunks` reaches `v.Len() %
  v1.Len()`. That is Go's runtime divide-by-zero panic, and the model returns
  it as a panic. The operand length is not a precondition.

## Model

| member | source | states |
|---|---|---|
| `Vector32.Vector.constructor` | creator32.go:25-28 | a new vector of length `n` is lazy and denotes `n` zeros |
| `Vector32.Vector.Data` | vector32.go:25-34 | returns `Len()` zeros for a lazy vector without materializing it (the method changes nothing); otherwise exactly the buffer |
| `Vector32.Vector.SetData` | vector32.go:36-47 | panics with "index out of range" iff `len(d) > Len()`, and then nothing changes; otherwise the vector is materialized and its contents are `d` followed by the old contents beyond `len(d)` (zeros for a lazy receiver) |
| `Vector32.Vector.Set` | vector32.go:49-65 | panics iff the source is the receiver or the lengths differ, and then nothing changes; otherwise the contents equal the source's; the receiver is materialized afterwards iff it or the source was |
| `Vector32.Vector.Copy` | vector32.go:67-71 | returns a fresh vector of the same length and contents, lazy iff the original is lazy |
| `Vector32.Vector.Slice` | vector32.go:73-91 | panics iff not `0 <= start <= end <= Len()`; otherwise returns a fresh vector of length `end-start` whose contents are the source's `[start, end)`, lazy iff the source is lazy; the source is unchanged |
| `Vector32.Vector.SetSlice` | vector32.go:93-127 | panics iff `o.Len() > Len()-start`; is a no-op when `start <= -o.Len()`; otherwise the contents become `Splice(old, start, o)`; the receiver ends up materialized iff it was, or `o` was and `start + o.Len() > 0` |
| `Vector32.SpliceClipped` | vector32.go:105-125 | the splice equals the clipped copy: positions `[max(start,0), start+o.Len())` receive `o[max(-start,0)..]`, and the positions before and after keep their values |
| `Vector32.ClippedCopy` | vector32.go:105-125 | the clipped offsets `dstStart`, `srcStart` and `copyCount` stay inside both buffers, the clip to the receiver's end never shortens the copy once the length check has passed, a lazy `o` copies zeros, and the three-part write equals `Splice(old, start, o)` |
| `Vector32.SpliceZeros` | vector32.go:102-104 | when both vectors are lazy, skipping the copy is exact: zeros spliced over zeros are zeros |
| `Vector32.Vector.Scale` | vector32.go:129-137 | the contents become `s` times the old contents; the vector is lazy afterwards iff it was lazy before |
| `DeviceMath.ScaledZeros` | vector32.go:132-134 | scaling zeros gives zeros, which is why `Scale` may skip a lazy vector |
| `Vector32.Vector.AddScaler` | vector32.go:139-149 | always materializes; every element gains `s`, including the zeros of a lazy vector |
| `Vector32.Vector.Dot` | vector32.go:151-162 | panics only on a length mismatch (`v.Dot(v)` is allowed); otherwise both operands are materialized with unchanged contents and the result is the inner product of the contents |
| `DeviceMath.InnerProductComm` | vector32.go:151-162 | `Dot(u, v) == Dot(v, u)` |
| `DeviceMath.InnerProductScaled` | vector32.go:151-162 | `Dot(Scale(u, c), v) == c * Dot(u, v)` |
| `DeviceMath.InnerProductZeros` | vector32.go:156-159 | the product with the zeros of a lazy operand is zero |
| `Vector32.Vector.Add` | vector32.go:164-166 | the contents become `v + v1`; a lazy operand leaves the receiver completely unchanged, including its buffer, and a materialized operand leaves the receiver materialized |
| `Vector32.Vector.Sub` | vector32.go:168-170 | the contents become `v - v1`, with the same guards and laziness as `Add` |
| `Vector32.Vector.Axpy` | vector32.go:225-245 | panics iff `assertCompat(v1, false)` does; a lazy operand changes nothing; otherwise the contents are `v + s*v1` and the receiver is materialized, on the copy fast path as well as the general path |
| `DeviceMath.AxpyOntoZeros` | vector32.go:230-241 | the copy-then-scale fast path for a lazy receiver gives the same contents as `Saxpy` onto zeros |
| `DeviceMath.ScaledByOne` | vector32.go:237-239 | skipping `Sscal` when the factor is 1 is exact |
| `Vector32.AxpyOfZeros` | vector32.go:228-229 | returning early for a lazy operand is exact: adding `s` times zeros changes nothing |
| `Vector32.Vector.Mul` | vector32.go:172-182 | panics on identity or a length mismatch; otherwise both are materialized, the operand is unchanged, and the receiver becomes the elementwise product |
| `Vector32.Vector.Div` | vector32.go:184-195 | same guards and materialization as `Mul`; every element whose divisor is nonzero becomes the old element divided by the divisor |
| `Vector32.Vector.Gemm` | vector32.go:197-223 | panics with "vectors cannot be equal" iff two of `a`, `b` and the receiver are the same object; otherwise all three are materialized and `a`, `b` keep their contents |
| `Vector32.Vector.LazyInit` | vector32.go:255-268 | afterwards the vector is materialized; an already materialized vector is unchanged (idempotence); with `clear`, a lazy vector becomes `Len()` zeros, so its contents do not change |
| `Vector32.LazyInitAll` | vector32.go:292-299 | every listed vector ends up materialized; those already materialized are unchanged; with `clear` none changes its contents, even when one is listed twice |
| `Vector32.Vector.AssertCompat` | vector32.go:270-276 | panics iff (the call writes and `v1` is the receiver) or the lengths differ; the identity message takes precedence |
| `Vector32.Vector.KernelSizes` | vector32.go:278-290 | for `Len() < 128`, one block of `Len()` threads; otherwise blocks of 128 with `(grid-1)*128 < Len() <= grid*128` |
| `Vector32Extra.UnaryOp` | vector32_extra.go:33-42 | always materializes zero-filled, then applies the kernel's element function to exactly `Len()` elements |
| `Vector32Extra.Compare` | vector32_extra.go:176-185 | always materializes zero-filled; each of the `Len()` elements becomes 1 where the comparison with `alpha` holds and 0 where it does not |
| `Vector32Extra.Sum` | vector32_extra.go:44-48 | equals the sum of the contents; like `Dot`, it leaves the vector materialized with its contents unchanged |
| `DeviceMath.InnerProductOnes` | vector32_extra.go:44-48 | `Dot` with an all-ones vector of the same length is the sum |
| `Vector32Extra.ChunkCheck` | vector32_extra.go:52-56 | panics iff the operand is the receiver, has length 0 (Go runtime `%` by zero), or its length does not divide the receiver's, with each case's message |
| `Vector32Extra.ScaleChunks` | vector32_extra.go:50-66 | panics exactly as `ChunkCheck` says, changing nothing; otherwise both are materialized zero-filled, the operand is unchanged, and chunk `j` is multiplied by `v1[j]` |
| `Vector32Extra.AddChunks` | vector32_extra.go:68-83 | same guards and materialization; `v1[j]` is added to every element of chunk `j` |
| `Vector32Extra.ChunkOf` | vector32_extra.go:61-64 | with `rows = Len/v1.Len`, element `i` lies in chunk `j` with `j*rows <= i < (j+1)*rows` and `j < v1.Len` |
| `Vector32Extra.ChunkedAt` | vector32_extra.go:61-64 | every element of the contiguous chunk `[j*rows, (j+1)*rows)` is combined with `v1[j]` |
| `Vector32Extra.RepeatedOp` | vector32_extra.go:98-118 | panics iff the operand is the receiver or is empty; otherwise both are materialized, the operand is tiled over the receiver, and the launch is `kernel+"Pow2"` with mask `n-1` when `n` is a power of two, else the plain kernel with `n` |
| `Vector32Extra.TiledTwice` | vector32_extra.go:90-92 | `AddRepeated` of a pattern over a receiver twice its length adds the pattern to each half |
| `Vector32Extra.NormOf` | vector32_extra.go:153-162 | a lazy vector gives 0 without being materialized; otherwise the reduction runs over the buffer |
| `Vector32Extra.AbsSum` | vector32_extra.go:120-122 | the sum of magnitudes of the contents, lazy or not; never negative; never materializes |
| `DeviceMath.SumOfAbsZeros` | vector32_extra.go:156-158 | the absolute sum over zeros is 0, which is why `norm` may answer 0 for a lazy vector |
| `DeviceMath.SumOfAbs` | vector32_extra.go:120-122 | `Sasum` is never negative |
| `DeviceMath.Isamax` | vector32_extra.go:130-137 | the 1-based index of the first element of largest magnitude |
| `Vector32Extra.AbsMax` | vector32_extra.go:124-147 | never negative; 0 for a lazy or empty vector; otherwise the magnitude of the element at offset `idx-1`, which bounds every element's magnitude and is attained |
| `Vector32Extra.IsPowerOf2` | vector32_extra.go:243-251 | for `n >= 1`, true iff `n = 2^k` for some `k`; true for every `n <= 0` |
| `Vector32Extra.Pow2Monotone` | vector32_extra.go:246-250 | `2^a < 2^b` for `a < b`, so at most one `k` satisfies `2^k <= n < 2^(k+1)` |
| `Mapper32.NewMapper32` | mapper32.go:15-36 | panics with "mapper size is too big" iff `inSize` or `len(table)` does not survive `int32`, else with "index out of range" iff some entry is `< 0` or `>= inSize`; otherwise `InSize() == inSize`, `OutSize() == len(table)`, the stored table equals the input, and the table fits its buffer |
| `Mapper32.Mapper.constructor` | mapper32.go:26 | records `inSize`, `outSize = len(table)` and the table |
| `Mapper32.Mapper.InSize` | mapper32.go:42-44 | every table entry is a valid index into an input of this length |
| `Mapper32.Mapper.OutSize` | mapper32.go:46-48 | there is one output per table entry |
| `Mapper32.Mapper.Map` | mapper32.go:50-74 | panics unless `in.Len() == InSize()`, `out.Len() == OutSize()` and `in != out`; then `out[i] = in[table[i]]` for every `i < OutSize()`; a lazy `in` clears a materialized `out` and leaves a lazy one lazy; `in` is never touched |
| `Mapper32.GatherZeros` | mapper32.go:60-66 | the lazy-input path is exact: gathering from zeros gives zeros |
| `Mapper32.Mapper.MapTranspose` | mapper32.go:76-93 | panics unless `in.Len() == OutSize()`, `out.Len() == InSize()` and `in != out`; then both are materialized zero-filled, `in` keeps its contents, and `out` becomes the scatter-add of `in` into its old contents: `out[j]` gains every `in[i]` with `table[i] == j` |
| `Mapper32.ScatterInOrderAgrees` | mapper32.go:86-93 | adding the values one at a time in index order gives the scatter-add, in which position `j` gains the sum of every `in[i]` with `table[i] == j`: duplicate targets add up instead of overwriting each other |
| `Mapper32.ScatterAddStep` | mapper32.go:86-93 | the last input value lands only on its own target: dropping it changes position `table[last]` by exactly `in[last]` and no other position |
| `DeviceMath.InnerProductBump` | vector32.go:151-162 | adding `v` at one position `k` of an operand changes the dot product by exactly `x[k]*v` |
| `Mapper32.MapAdjoint` | mapper32.go:50-93 | `MapTranspose` is the transpose of `Map`: `<Map(x), y> == <x, MapTranspose(y)>` for every `x` and `y` |
| `Mapper32.TableOverflowAsWritten` | mapper32.go:28-33 | the table `[0, 0]` with `inSize = 1` is accepted, yet the buffer allocated for it holds fewer entries than are written |

## Left out

- The command queue (`run`, `runSync`) and its completion channels. Every operation takes effect at once, in call order.
- Device errors: failed allocations, failed cuBLAS calls and failed kernel launches. Every device call is assumed to succeed.
- Float32 arithmetic. Elements are reals, so there is no rounding, no overflow, no NaN and no infinity.
- Byte offsets (`uintptr(x)*4`). Offsets are counted in elements.
- `Creator32`, `Handle` and the device, context, cuRAND and cuBLAS set-up in cudavec.go; `MakeNumeric` and `MakeNumericList` (float64 to float32 casts).
- `MakeVector` is a "nyi" stub in creator32.go, and `Copy` and `Sum` call it. The model uses the `Vector` constructor, which follows `MakeVector`'s doc comment: a new vector is lazy zeros.
- `MakeVectorData`, `Concat` and `MakeMapper` are "nyi" stubs. The commented-out `Rand`, `AddLogs`, `ElemMax`, `LogSoftmax`, `Pow` and `MapMax` have no code to model.
- The bodies of the named kernels are not available. For `Exp`, `Log`, `Tanh`, `Sin`, `Sigmoid` and `ClipPos`, the kernel's element function is a parameter of `UnaryOp`; the six one-line wrappers are `UnaryOp` with that kernel.
- `LessThan`, `GreaterThan` and `EqualTo` are `Compare`; the 1/0 mask follows the kernels' names. `AddRepeated` and `ScaleRepeated` are `RepeatedOp` with `Add` and `Mul`.
- Vector32Extra.RepeatedOp: the Pow2 kernels take a mask instead of a length. The model gives them the same tiled effect (`i % n`) as the plain kernels, and records only which kernel is launched and with which argument.
- Vector32.Vector.Gemm: the matrix product is not modelled. This covers the column-major swap of `a` and `b`, the transposes, the leading dimensions, `alpha` and `beta`. The receiver's contents afterwards are only known to have length `Len()`.
- Vector32.Vector.Div: an element divided by zero is left unspecified. Float32 would give an infinity or NaN, which is not a real number.
- Vector32Extra.NormOf: `Norm` (cuBLAS `Snrm2`) needs a square root, which the model does not define. Only `norm`'s lazy path and `AbsSum` are modelled concretely.
- Vector32.Vector.SetSlice: when `o` is the receiver, the device copies between overlapping ranges. The model reads `o` completely before it writes.
- Vector32.Vector.LazyInit: without `clear`, the new buffer holds arbitrary values of the right length. Every caller overwrites them all.
- Go `int` is 64 bits wide. Lengths are unbounded naturals, and only the `int32` range checks of `newMapper32` are modelled.

## Findings

| source | as written | input that shows it | evidently intended | confidence | as-written member | corrected member |
|---|---|---|---|---|---|---|
| mapper32.go:28-33 | allocates the table's device buffer with `inSize*4` bytes but writes `len(table)` int32 entries into it | `inSize = 1`, `table = [0, 0]`: a valid table of 2 entries written into room for 1 | allocate `len(table)*4` bytes, one int32 per table entry | not executed; high | `Mapper32.TableOverflowAsWritten` | `Mapper32.NewMapper32` |
