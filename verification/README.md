# gamvis: a Dafny model of the Constant-Q analyser and its label overlay

gamvis is a real-time audio visualiser. It captures PCM frames, runs a
Constant-Q transform (CQT) over them, draws one bar per frequency bin and
writes note labels for a chromatic, pelog or slendro scale under the bars.
This project models the parts of it that are logic rather than device or
drawing plumbing:

- `RustInt` (`rust_int.dfy`) holds the Rust value semantics the analyser
  depends on:
  - the `Result` it returns;
  - the saturating float-to-`u16` cast;
  - the two's-complement `as i16` cast and wrapping `i16` increment;
  - signed division, which rounds toward zero.
- `Cqt` (`cqt.dfy`) models the transform itself.
  - `InitTimeDomainKernel` builds the kernel bank. Per bin it clamps the
    support length, centres the support by a parity-dependent rule, fills
    the open support interval of a zeroed buffer and steps the signed
    offset `s`.
  - `CalcCqt` correlates one frame against every kernel.
  - Both are imperative methods proved against the specification functions
    `Bank` and `Spectrum`. The lemmas about those functions state the
    layout and the transform's properties.
- `Overlay` (`overlay.dfy`) covers `other_scale` and the three label loops
  of the main render loop. Each loop is a method that returns the labels it
  would draw. The Chromatic loop is proved equal to a closed form per
  label; the Pelog and Slendro loops are proved equal to `GamelanLabels`, a
  recursive bin-by-bin description, whose properties are then proved.
- `Pipes` (`pipes.dfy`) holds `get_highest_output_index`, an argmax with
  `max_by` tie-breaking.

Single-precision floats are `real` here, and the transcendental functions
are parameters:

- `Trig` supplies pi, cosine and sine;
- `sqrt` is the square root;
- the bin's normalised centre frequency f_k / fs and its ideal support
  length ceil(Q * fs / f_k) are per-bin functions.

The kernel construction is stated over any `Sampler`, that is, any function
of (bin, support length, absolute index, offset). `Cqt.SourceSampler` is the
Hamming-windowed complex exponential that `src/cqt.rs` lines 65-71 compute.
A textbook Hamming window is indexed relative to its window; `src/cqt.rs:66`
passes the absolute buffer index `i`, and the model follows it.

## Model

| member | source | states |
|---|---|---|
| RustInt.SaturatingU16 | src/cqt.rs:42 | the float-to-`u16` cast is the identity on 0..65535, gives 0 below and 65535 above |
| RustInt.AsI16 | src/cqt.rs:56 | `as i16` gives the unique value in -32768..32767 congruent to the input modulo 65536 |
| RustInt.AsI16InRange | src/cqt.rs:56 | the `i16` cast leaves a value already in range unchanged |
| RustInt.AsI16OfU16 | src/cqt.rs:56 | a `u16` cast to `i16` keeps values up to 32767 and subtracts 65536 from larger ones |
| RustInt.AsI16Succ | src/cqt.rs:72 | a wrapping `+= 1` on a wrapped value equals the wrap of the exact successor |
| RustInt.TruncHalf | src/cqt.rs:56 | signed `/ 2` rounds toward zero: the remainder is 0 or 1 for a non-negative dividend and 0 or -1 for a negative one |
| Cqt.HammingWindow | src/cqt.rs:23-27 | with a cosine bounded by 1 the weight lies in [-0.08, 1], and it is -0.08 wherever the cosine is 1 |
| Cqt.Scaled | src/cqt.rs:69-70 | a window weight and a trigonometric value in [-1, 1], divided by `len`, land within 1/len of zero |
| Cqt.KernelSample | src/cqt.rs:65-71 | the sample at absolute index i with offset s is the Hamming weight at i times cos and sin of 2 pi s f_k/fs, divided by len; with a real cosine and sine both parts are at most 1/len in magnitude |
| Cqt.SourceBankBounded | src/cqt.rs:65-71 | in a bank built from `SourceSampler`, the sampler of lines 65-71, every entry of a non-empty kernel has both parts within 1/len, and an empty kernel is all zero |
| Cqt.KernelLen | src/cqt.rs:42-47 | the support length is min(ideal length, fft_size), so it never exceeds fft_size |
| Cqt.CeilHalf | src/cqt.rs:51-53 | the least integer not below d/2, as `ceil` gives for the centring expression |
| Cqt.KernelStart | src/cqt.rs:50-58 | the support always fits (start + len <= fft_size); an even support is centred with the left margin equal to the right or one more; an odd narrower support leaves the right margin one or two samples wider; a full-width support starts at 0, the -1 saturating in the `u16` cast |
| Cqt.FirstOffset | src/cqt.rs:56 | the first offset is an `i16`, equal to -(len/2) for len <= 32767 and (65536 - len)/2, which is non-negative, once the `i16` cast wraps |
| Cqt.OffsetStep | src/cqt.rs:72 | one wrapping `s += 1` moves from the j-th written sample's offset to the (j+1)-th |
| Cqt.Offset | src/cqt.rs:56-72 | the offset at the j-th written sample is an `i16` congruent modulo 65536 to the first offset plus j, the result of j wrapping increments |
| Cqt.OffsetExact | src/cqt.rs:56-72 | for supports shorter than 32768 no step wraps: the j-th written sample has s = -(len/2) + j |
| Cqt.KernelEntry | src/cqt.rs:60-71 | a buffer entry is zero outside the open support; inside, it is the sample at its index for the offset of its rank i - start - 1, which is -(len/2) + rank for supports shorter than 32768 |
| Cqt.Kernel | src/cqt.rs:33-76 | each kernel has fft_size samples and len = min(ideal, fft_size); start is `KernelStart(fft_size, len)`, the parity centring rule; start + len <= fft_size; every index outside the open support (start, start + len) is zero |
| Cqt.Bank | src/cqt.rs:33-37 | the bank holds exactly n_bins kernels, each with fft_size samples and a support that fits |
| Cqt.InteriorCard | src/cqt.rs:60-63 | the open interval (start, start + len) holds len - 1 indices, none for an empty support |
| Cqt.KernelWrites | src/cqt.rs:60-71 | a kernel's construction writes exactly len - 1 entries (none when len is 0), all inside the buffer; `signal[start]` and every index outside the open interval keep the default zero |
| Cqt.KernelOffsets | src/cqt.rs:56-72 | the entry at the j-th written index start + 1 + j is in bounds and is the sample for offset -(len/2) + j |
| Cqt.FillSupport | src/cqt.rs:56-73 | the per-bin loop leaves every buffer entry equal to the kernel entry: samples strictly inside the support with the wrapped offset of their rank, zero elsewhere |
| Cqt.InitTimeDomainKernel | src/cqt.rs:29-79 | always returns `Ok` with exactly the bank of per-bin kernels, in bin order |
| Cqt.Power | src/cqt.rs:97 | the argument of the square root is never negative |
| Cqt.BinMagnitude | src/cqt.rs:97 | a bin's magnitude, the square root of the power of its correlation, is non-negative whenever the square root is non-negative on non-negative arguments |
| Cqt.Spectrum | src/cqt.rs:83-99 | the spectrum has exactly n_bins values |
| Cqt.CalcCqt | src/cqt.rs:82-100 | always returns `Ok` with the spectrum: for each bin, the root of the power of the correlation over [start, start + len), the imaginary part accumulated negated; every read is in bounds |
| Cqt.BankIsUsable | src/cqt.rs:87-96 | a bank built by the construction can be correlated against any frame of at least fft_size samples without an out-of-bounds read or `u16` overflow |
| Cqt.SilentCorrelation | src/cqt.rs:89-96 | the correlation of an all-zero frame is zero |
| Cqt.SilenceGivesZeros | src/cqt.rs:89-97 | an all-zero frame gives an all-zero spectrum when sqrt(0) = 0 |
| Cqt.MagnitudesNonNegative | src/cqt.rs:97 | every spectrum value is non-negative when the square root is |
| Cqt.CorrelationScales | src/cqt.rs:92-96 | `Correlate` is the left fold over [start, end) that adds input times the kernel's real part and subtracts input times its imaginary part; scaling every sample by a scales both parts by a |
| Cqt.CorrelationAdds | src/cqt.rs:92-96 | the sum of two frames correlates to the sum of their correlations, so with `CorrelationScales` the correlation is linear in the frame |
| Cqt.PowerScales | src/cqt.rs:97 | scaling a complex sum by a scales its power by a * a |
| Cqt.BinPowerScales | src/cqt.rs:92-97 | a frame scaled by a has every bin's power, the argument of its square root, scaled by a * a |
| Cqt.CorrelationIsLocal | src/cqt.rs:92-96 | the correlation depends only on the input and kernel samples in [start, end) |
| Cqt.BinIsLocal | src/cqt.rs:87-97 | output[k] depends only on kernel k's start, len and support samples and on the input under that support |
| Cqt.ExtraKernelsIgnored | src/cqt.rs:87-88 | kernels at index n_bins and beyond are never read: dropping them changes nothing |
| Pipes.MaxByIndex | src/pipes.rs:31-36 | the `max_by` fold returns an in-range index whose value is at least every other, and every later value is strictly smaller, so the last maximum wins |
| Pipes.HighestOutputIndex | src/pipes.rs:30-40 | always `Ok`; 0 for an empty output; otherwise the index of the largest value, the last one on ties |
| Overlay.OtherScale | src/main.rs:18-25 | switching always changes the scale |
| Overlay.OtherScaleCycle | src/main.rs:18-25 | three switches restore the scale and two do not |
| Overlay.ScaleAfter | src/main.rs:124-126 | the scale shown after a number of presses, defined by recursion from Slendro, the initial scale set at line 56; it cycles Slendro, Chromatic, Pelog with period three |
| Overlay.ChromaticLabel | src/main.rs:171-188 | the name index of every Chromatic label is in 0..12 |
| Overlay.ChromaticLabels | src/main.rs:170-189 | one label per n in 1, 4, ..., <= 324 (108 labels); the t-th uses name index t mod 12 and is drawn at the previous label's bin, the first at 0 |
| Overlay.CounterAt | src/main.rs:193-213 | the counter at bin n is ((n - 1) mod 36) + 1, so it lies in 1..36 |
| Overlay.OctaveAt | src/main.rs:192-212 | the octave at bin n is the 1-based octave whose 36 bins contain n: (octave - 1) * 36 < n <= octave * 36 |
| Overlay.GamelanLabels | src/main.rs:194-216 | the reference for both gamelan loops, defined by recursion on the last bin: bin by bin, one label when the counter is a key of the map, so at most one label per bin |
| Overlay.PelogLabels | src/main.rs:190-218 | the loop draws exactly the gamelan labels for the pelog map with dissonance max(0, n - 144); its invariants keep counter, octave (1 + (n - 1)/36) and dissonance at their closed forms |
| Overlay.SlendroLabels | src/main.rs:219-247 | the same for the slendro map, with dissonance growing only at octave boundaries: (n - 1)/36 - 3 past bin 144, else 0 |
| Overlay.GamelanLabelsWellFormed | src/main.rs:194-207 | every label sits at its own bin in 1..N_BINS, keyed by that bin's counter, a key of the scale's map, with that key's note and that bin's dissonance; bins strictly increase |
| Overlay.GamelanLabelDrawnIff | src/main.rs:195-207 | a label is drawn at bin n if and only if the counter at n is a key of the scale's map |
| Overlay.PelogDissonanceCounts | src/main.rs:209-216 | pelog's dissonance at bin n counts the earlier bins m with m >= 144, one step per bin after the fourth octave boundary |
| Overlay.SlendroDissonanceCounts | src/main.rs:238-245 | slendro's dissonance at bin n counts the multiples m of 36 with 144 <= m < n |

## Left out

- Floating point. `powf`, `ceil`, `cos`, `sin` and `sqrt` are parameters, and f32 rounding, NaN and infinities are not modelled. `q`, `alpha`, `fs`, `f_min` and `bins_per_octave` (src/cqt.rs:30-31, 41-42) enter only through the per-bin ideal length and normalised frequency. The accumulation order of `calc_cqt` is kept, but its rounding is not.
- CeilHalf: models `ceil(fft_size / 2.0 - len / 2.0)` by the exact integer ceiling of (fft_size - len) / 2, which is what f32 computes for `u16` operands.
- The `s += 1` on an `i16` (src/cqt.rs:72) is modelled with release-mode wrap-around. A debug build would panic instead, but only for supports of 32768 or more, where the wrapped offsets are modelled and the exact ones are not claimed.
- Cqt.CalcCqt: requires every kernel's support to lie inside its buffer and the input, and `start + len` to fit in a `u16`. An out-of-bounds index panics in every build. An overflowing `start + len` (src/cqt.rs:92) panics in a debug build; in a release build it wraps, the range `start..wrapped` is empty and the bin gets sqrt(0), which the model does not cover. `Fits` also asks `start + len <= |input|` when `len == 0`, although the code then reads nothing. `Cqt.BankIsUsable` shows that banks from the construction meet the requirement.
- Pipes.HighestOutputIndex: compares by the order on reals. `f32::total_cmp` also orders NaN and -0.0, which `real` does not have.
- Overlay.OtherScale: the `&mut` update of `other_scale` is modelled as returning the new scale.
- Overlay.ChromaticLabels: `at` is the bin whose bar position the label is drawn at. The pixel conversion `(bar_width_f * n) as i32` is not modelled. For the gamelan loops, the label's x position is that bin's bar position plus `dissonance` pixels.
- Drawing and events: raylib window setup, keyboard and resize handling, FPS text, bar rectangles and the bar colour animation, which relies on `u8` wrap-around (src/main.rs:96-166). src/panel.rs is not part of this model.
- ALSA capture: `get_alsa_pcm` (src/pipes.rs:43-57) and `Pipe::fill_input_buffer` (src/pipes.rs:17-28) are device I/O. The read loop exits only when a single `readi` returns the full frame count. It does not accumulate partial reads and retries without bound.
- The `portable_simd` feature flag (src/main.rs:1) affects no modelled logic.
- Neither CQT function ever returns `Err`. No validation error for `n_bins` or `bins_per_octave` is modelled, because the code has none.
