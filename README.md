# QMX compression glue, in Dafny

This project models the Rust glue in `src/lib.rs` of a postings-list compressor built on
the QMX integer codec. It covers two functions.

- `encode` turns an ascending list of 32-bit document ids into d-gaps. The first gap is
  the first id. Every later gap is an id minus the one before it. The function then
  allocates a zeroed scratch buffer of `8 * n + 512 + 1024 * 1024` bytes and hands the gaps
  and the buffer to the foreign QMX encoder. It returns the first `bytes` bytes of the
  buffer, where `bytes` is the count the encoder reports.
- `decode` is meant to have the foreign QMX decoder write `count` gaps into the caller's
  buffer. Then `cumulative_sum_256` turns them back into ids with an in-place running sum.
  The call as written does not match the C++ definition (see "## Left out"); the model
  states the intended call.

The QMX encoder and decoder are C++ code that is not part of this model. Here they are
function-typed parameters, described only by what they produce:

- `Encoder` maps (gaps, buffer length) to the bytes written at the front of the buffer
  and the length returned.
- `Decoder` maps (compressed bytes, count, slot) to the value stored in that slot.

The model makes no assumption about the wire format. The round-trip lemma
`EncodeDecodeRoundTrip` requires a nondecreasing list on which `encode` succeeds, and
besides that one hypothesis: this decoder gives back the gaps this encoder was given.

Files:

- `words.dfy` (module `Words`): the `u32` and `u8` machine types, with wrapping 32-bit
  addition and subtraction written out.
- `delta_coding.dfy` (module `DeltaCoding`): the specification functions.
  - `DGaps` gives the gaps. `RunningSum` is its inverse. `FirstDescent` gives the index
    where the checked subtraction panics.
  - The lemmas prove both directions of the bijection between nondecreasing lists and
    gap sequences whose sum fits in 32 bits.
  - They also prove that no running sum wraps, and the strictly-ascending case.
  - Release builds subtract with wrap-around (see below). The lemmas cover that case too.
- `qmx_glue.dfy` (module `QmxGlue`): the imperative model of `src/lib.rs`.
  - `ToDGaps` is the d-gap loop over a freshly allocated array.
  - `Capacity` is the buffer size.
  - `Encode` and `Decode` are the two entry points.
  - `QmxEncode` and `QmxDecode` perform the foreign calls on the arrays.
  - `CumulativeSum` is the scalar equivalent of `cumulative_sum_256`: a left-to-right
    in-place running sum over 32-bit lanes.

Arithmetic. Rust's `docs[curr] - prev` on `u32` panics in a debug build when it would
underflow. `ToDGaps` and `Encode` model that. They return `Err(Underflow(k))`, where `k`
is the first index at which the list goes down. A release build wraps around instead. That
behaviour is `WrappingDGaps`, with its own lemmas. The SIMD running sum adds 32-bit lanes
with wrap-around, so `RunningSum` uses `WrappingAdd`. `DGapsPartialSums` and
`RunningSumExact` show that this wrap never happens on the gaps of a valid list.

The slice `compressed[..bytes]` panics when the encoder reports more bytes than the buffer
holds. That case is `Err(SliceOutOfRange(bytes, len))`.

What the code does at its edges:

- It accepts any nondecreasing list. Repeated ids give zero gaps.
- Out-of-order input panics, and no error value is returned.
- An oversized `bytes` panics on the slice.
- `encode` returns only the bytes.
- `decode` writes into any buffer it is handed.

## Model

| member | source | states |
|---|---|---|
| Words.WrappingAdd | src/lib.rs:8 | the lane addition of the running sum: the sum modulo 2^32, and the exact sum when that fits in 32 bits |
| Words.WrappingSub | src/lib.rs:16 | release-build `u32` subtraction: adding the subtrahend back with `WrappingAdd` restores the minuend; it is exact when there is no underflow |
| DeltaCoding.RunningSum | src/lib.rs:49 | a running sum keeps the length of its input and starts with the first element |
| DeltaCoding.FirstDescent | src/lib.rs:15-16 | on a list that is not nondecreasing: an index `d > 0` with `docs[d] < docs[d-1]` and everything before `d` in order, i.e. where the checked subtraction panics |
| DeltaCoding.FirstDescentUnique | src/lib.rs:15-16 | any descent with an ordered prefix before it is the first descent, and the list is then not nondecreasing |
| DeltaCoding.DGaps | src/lib.rs:12-18 | the gaps of a nondecreasing list (`docs[i] - prev`, with `prev` 0 at the start): as long as the list, and the first gap is `docs[0]` |
| DeltaCoding.WrappingDGaps | src/lib.rs:15-18 | the gaps a release build computes with wrapping subtraction, for any list: as long as the list, and the first gap is `docs[0]` |
| DeltaCoding.DGapsPointwise | src/lib.rs:15-18 | a sequence that has the length of `docs` and holds `docs[i] - prev` at every `i`, with `prev` 0 at the start, is `DGaps(docs)` |
| DeltaCoding.DGapsPrefix | src/lib.rs:15-18 | the gaps of a prefix are the prefix of the gaps, so the loop's partial result is final |
| DeltaCoding.DGapsRoundTrip | src/lib.rs:48-49 | the running sum of the d-gaps of any nondecreasing list is that list: decode's reconstruction inverts encode's transform |
| DeltaCoding.DGapsTotal | src/lib.rs:15-18 | the gaps of a nondecreasing list add up exactly to its last element (0 for the empty list) |
| DeltaCoding.DGapsPartialSums | src/lib.rs:49 | the exact sum of the first `i+1` gaps is `docs[i]`, so no intermediate sum of the reconstruction leaves the `u32` range |
| DeltaCoding.RunningSumExact | src/lib.rs:49 | when the gaps' exact total fits in 32 bits, every running sum equals the exact prefix sum (no lane wraps) |
| DeltaCoding.RunningSumStep | src/lib.rs:49 | without wrap-around, each running sum is the previous one plus exactly one gap |
| DeltaCoding.RunningSumOrdered | src/lib.rs:49 | without wrap-around, the running sums form a nondecreasing list |
| DeltaCoding.RunningSumRoundTrip | src/lib.rs:12-18 | the other direction of the bijection: the running sum of gaps whose total fits in 32 bits is nondecreasing, and its d-gaps are those gaps |
| DeltaCoding.StrictGapsPositive | src/lib.rs:16 | a nondecreasing list is strictly ascending if and only if every gap after the first is positive |
| DeltaCoding.WrappingDGapsRoundTrip | src/lib.rs:16 | with release-build wrapping subtraction, the running sum rebuilds every input list, in order or not |
| DeltaCoding.WrappingDGapsAgree | src/lib.rs:16 | on every input the debug build accepts, the release build computes the same gaps |
| QmxGlue.Capacity | src/lib.rs:22 | the scratch buffer holds at least 8 bytes per integer plus a fixed margin of exactly 1049088 bytes |
| QmxGlue.CapacityMonotone | src/lib.rs:22 | the buffer size is monotone in the list length and grows by exactly 8 bytes per element |
| QmxGlue.EncodeResult | src/lib.rs:11-36 | what `encode` returns: it panics with `Underflow` exactly when the list is not nondecreasing, and a successful result is never longer than the scratch buffer |
| QmxGlue.DecodeResult | src/lib.rs:38-52 | what `decode` leaves in `output_buf[0..count)`: exactly `count` ids, the first being the first decoded gap |
| QmxGlue.ToDGaps | src/lib.rs:12-18 | the d-gap loop: on a nondecreasing list it returns exactly `DGaps(docs)` (same length, first gap `docs[0]`, later gaps differences); otherwise it panics at the first descent |
| QmxGlue.QmxEncode | src/lib.rs:30 | the foreign encoder call changes only the bytes inside the buffer it is handed, and its result is the length the encoder reports |
| QmxGlue.Encode | src/lib.rs:11-36 | `encode` returns `EncodeResult`. It succeeds exactly when the list is nondecreasing and the reported `bytes` fit the buffer; on success the output has exactly `bytes <= Capacity(n)` bytes |
| QmxGlue.EncodeResultPrefix | src/lib.rs:30-31 | on success the output is exactly the buffer prefix `compressed[0..bytes)`: the encoder's bytes, then the zeros of the fresh buffer |
| QmxGlue.QmxDecode | src/lib.rs:47 | the foreign decoder call fills slots `0..count` with its gaps and leaves every later slot unchanged |
| QmxGlue.CumulativeSum | src/lib.rs:49 | the in-place running sum: the first `length` slots become `RunningSum` of their old contents; later slots are unchanged |
| QmxGlue.Decode | src/lib.rs:38-52 | `decode` leaves `RunningSum` of the decoded gaps in `output_buf[0..count)` and touches nothing beyond `count` |
| QmxGlue.EncodeDecodeRoundTrip | src/lib.rs:11-52 | if the decoder gives back the gaps the encoder was given, then decoding `encode`'s output with `count = n` rebuilds the original list exactly |
| QmxGlue.DecodeNothing | src/lib.rs:43-49 | `decode` with `count = 0` leaves every slot of the output buffer as it was |

## Left out

- The QMX bit-packing: selectors, per-group widths and the exception layout. It lives in
  `compress_integer_qmx_improved.cpp`. That file is not part of this model; the encoder
  and decoder are parameters, so no wire format is invented.
- The AVX2 internals of `cumulative_sum_256`. Only its scalar running-sum behaviour is
  modelled, in `CumulativeSum`.
- `qmx_construct` / `qmx_destruct`, the raw-pointer casts and the C-ABI wrappers in
  `src/jass.cpp`. `qmx_construct`, `qmx_encode` and `qmx_decode` there forward to the
  unseen C++ class; they hold no logic of their own.
- QmxDecode: models the intended decoder call, not the call as written. `src/lib.rs:7`
  declares `qmx_decode(to, destination_integers, source, len)` with four parameters, but
  `src/jass.cpp:15` defines it with five, the codec object first, and `decode` never calls
  `qmx_construct`. Taken literally, the call passes `output_buf` as the codec object and
  `count` as the destination pointer, which is undefined behaviour. `Decode` likewise
  assumes the decoder fills `output_buf[0..count)`.
- `pain.cpp` and `main.rs`. They are a demo that sets a field and prints it. `build.rs`
  is build configuration.
- Concurrency. Every call runs on one thread over buffers the caller owns.
- Capacity: does not model `usize` overflow of `8 * n + 512 + 1024 * 1024`. Only an `n`
  near 2^61 would overflow, and no list that long can be allocated.
- QmxEncode: assumes the foreign encoder honours the buffer length it is given. Writes
  past the end are clipped rather than modelled as memory corruption.
- Decode: requires `count <= output_buf.len()`. The Rust code does not check this. A
  larger `count` would make the foreign decoder write out of bounds, which is undefined
  behaviour rather than an error value.
- Decode: the length of `data` passed to the decoder is part of the `data` sequence. The
  decoder's behaviour on truncated or corrupt input is whatever the `Decoder` parameter
  returns.
- ToDGaps: models the debug-build panic on underflow. The release-build wrap-around is
  covered by `WrappingDGaps` and its lemmas, not by a second loop.
