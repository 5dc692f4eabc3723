/** The Constant-Q analysis: building the bank of time-domain kernels once,
    and correlating one frame of samples against every kernel.

    Single-precision floats are modelled as `real`. The transcendental parts
    of the computation are parameters: `Trig` supplies pi, cosine and sine,
    a bin's normalised centre frequency f_k / fs is given per bin, and so is
    the ideal support length ceil(Q * fs / f_k) before its cast to `u16`. */
module Cqt {
  import opened RustInt

  /** One complex sample; `ZERO` is `Complex::default()`. */
  datatype Complex = Complex(re: real, im: real)

  const ZERO: Complex := Complex(0.0, 0.0)

  /** One bin's kernel: a buffer of `fft_size` samples of which only the
      open interval (start, start + len) is ever written. */
  datatype TimeKernel = TimeKernel(signal: seq<Complex>, len: nat, start: nat)

  /** The floating-point primitives the kernel values are made of. */
  datatype Trig = Trig(pi: real, cos: real -> real, sin: real -> real)

  /** `f` returns values in [-1, 1], as cosine and sine do. */
  ghost predicate UnitBounded(f: real -> real)
  {
    forall x :: -1.0 <= f(x) <= 1.0
  }

  // ---------------------------------------------------------------------
  // Kernel values

  /** `hamming_window(N, n)` with the coefficients as `src/cqt.rs` writes
      them, 0.46 - 0.54 * cos(2 pi n / N). With these coefficients the weight
      ranges over [-0.08, 1] and is -0.08 wherever the cosine is 1. */
  function HammingWindow(trig: Trig, bigN: real, n: real): (w: real)
    requires bigN != 0.0
    ensures UnitBounded(trig.cos) ==> -0.08 <= w <= 1.0
    ensures trig.cos(2.0 * trig.pi * n / bigN) == 1.0 ==> w == -0.08
  {
    0.46 - 0.54 * trig.cos(2.0 * trig.pi * n / bigN)
  }

  lemma ProductBounded(a: real, b: real)
    requires -1.0 <= a <= 1.0 && -1.0 <= b <= 1.0
    ensures -1.0 <= a * b <= 1.0
  {
    if a >= 0.0 {
      if b >= 0.0 { assert a * b <= 1.0 * b; } else { assert a * b >= a * -1.0; }
    } else {
      if b >= 0.0 { assert a * b >= -1.0 * b; } else { assert a * b <= -1.0 * b; }
    }
  }

  /** `win * v / len as f32`: a windowed trigonometric value scaled by the
      support length. Weight and value in [-1, 1] give a result within
      1 / len of zero. */
  function Scaled(win: real, v: real, len: nat): (x: real)
    requires len > 0
    ensures -1.0 <= win <= 1.0 && -1.0 <= v <= 1.0 ==> -1.0 / len as real <= x <= 1.0 / len as real
  {
    ScaledBounded(win, v, len as real);
    win * v / len as real
  }

  lemma ScaledBounded(a: real, b: real, d: real)
    requires d > 0.0
    ensures -1.0 <= a <= 1.0 && -1.0 <= b <= 1.0 ==> -1.0 / d <= a * b / d <= 1.0 / d
  {
    if -1.0 <= a <= 1.0 && -1.0 <= b <= 1.0 {
      ProductBounded(a, b);
      ShrinkBounded(a * b, d);
    }
  }

  lemma ShrinkBounded(x: real, d: real)
    requires -1.0 <= x <= 1.0 && d > 0.0
    ensures -1.0 / d <= x / d <= 1.0 / d
  {
    assert x / d - -1.0 / d == (x + 1.0) / d;
    assert 1.0 / d - x / d == (1.0 - x) / d;
  }

  /** The value stored at absolute index `i` of a kernel of support `len`
      whose offset from the window centre is `s`; `freq` is f_k / fs. The
      Hamming weight is taken at the absolute index `i`. With a genuine
      cosine and sine, each component is at most 1 / len in magnitude. */
  function KernelSample(trig: Trig, freq: real, len: nat, i: nat, s: int): (c: Complex)
    requires len > 0
    ensures UnitBounded(trig.cos) && UnitBounded(trig.sin) ==>
      && -1.0 / len as real <= c.re <= 1.0 / len as real
      && -1.0 / len as real <= c.im <= 1.0 / len as real
  {
    var w := 2.0 * trig.pi * s as real * freq;
    var win := HammingWindow(trig, len as real, i as real);
    Complex(Scaled(win, trig.cos(w), len), Scaled(win, trig.sin(w), len))
  }

  /** The value a kernel's construction writes, as a function of the bin
      `k`, the support length `len`, the absolute index `i` and the offset
      `s`. The construction is modelled over any such function;
      `SourceSampler` is the one `src/cqt.rs` computes. */
  type Sampler = (nat, nat, nat, int) -> Complex

  /** Lines 65-71 of `src/cqt.rs` as a `Sampler`; `binFreq(k)` is f_k / fs.
      The construction only writes samples of supports with len >= 2, so
      the value it gives an empty support is never used. */
  function SourceSampler(trig: Trig, binFreq: nat -> real): Sampler
  {
    (k: nat, len: nat, i: nat, s: int) => if len == 0 then ZERO else KernelSample(trig, binFreq(k), len, i, s)
  }

  // ---------------------------------------------------------------------
  // Kernel geometry

  /** The support length: the ideal length cast to `u16`, then clamped to
      `fft_size`. Since `fft_size` is itself a `u16`, this is the minimum. */
  function KernelLen(ideal: nat, fftSize: nat): (len: nat)
    requires fftSize < U16_LIMIT
    ensures len == if ideal < fftSize then ideal else fftSize
  {
    var l := SaturatingU16(ideal);
    if l > fftSize then fftSize else l
  }

  /** ceil(d / 2) as the float `ceil` computes it for d / 2 exactly
      representable: the least integer not below d / 2. */
  function CeilHalf(d: nat): (c: nat)
    ensures d as real / 2.0 <= c as real < d as real / 2.0 + 1.0
  {
    (d + 1) / 2
  }

  /** The support's offset in the shared buffer: ceil((fft_size - len) / 2)
      for even `len`, one less for odd `len`, the -1 of an odd full-width
      kernel saturating to 0 in the cast to `u16`. The support always fits;
      with margins left = start and right = fft_size - len - start, an even
      support leaves left = right or left = right + 1, and an odd narrower
      support leaves right one or two samples wider than left. */
  function KernelStart(fftSize: nat, len: nat): (start: nat)
    requires len <= fftSize < U16_LIMIT
    ensures start + len <= fftSize
    ensures len % 2 == 0 ==> fftSize - len - start <= start <= fftSize - len - start + 1
    ensures len % 2 == 1 && len < fftSize ==> start + 1 <= fftSize - len - start <= start + 2
    ensures len == fftSize ==> start == 0
  {
    var c := CeilHalf(fftSize - len);
    if len % 2 == 1 then SaturatingU16(c - 1) else c
  }

  /** The initial `s`, `0 - len as i16 / 2`. For `len` below 32768 it is
      -(len / 2); from 32768 on the cast wraps and the offset is non-negative. */
  function FirstOffset(len: nat): (s: int)
    requires len < U16_LIMIT
    ensures I16_MIN <= s <= I16_MAX
    ensures len <= I16_MAX ==> s == -(len / 2)
    ensures len > I16_MAX ==> s == (U16_LIMIT - len) / 2
  {
    AsI16OfU16(len);
    0 - TruncHalf(AsI16(len))
  }

  /** `s` at the j-th written sample: the first offset stepped j times by the
      wrapping `s += 1`. */
  function Offset(len: nat, j: nat): (s: int)
    requires len < U16_LIMIT
    ensures I16_MIN <= s <= I16_MAX
    ensures (FirstOffset(len) + j - s) % U16_LIMIT == 0
  {
    AsI16(FirstOffset(len) + j)
  }

  /** One wrapping `s += 1` moves to the next written sample's offset. */
  lemma OffsetStep(len: nat, j: nat)
    requires len < U16_LIMIT
    ensures AsI16(Offset(len, j) + 1) == Offset(len, j + 1)
  {
    AsI16Succ(FirstOffset(len) + j);
  }

  /** Below 32768 no step wraps: the j-th written sample has s = -(len/2) + j. */
  lemma OffsetExact(len: nat, j: nat)
    requires len <= I16_MAX && j + 1 < len
    ensures Offset(len, j) == -(len / 2) + j
  {
    AsI16InRange(FirstOffset(len) + j);
  }

  /** Entry `i` of a kernel buffer: zero outside the open support; inside it,
      the sample at `i` for the offset of its rank i - start - 1, which is
      exactly -(len / 2) + rank when the support is shorter than 32768. */
  function KernelEntry(sample: Sampler, k: nat, len: nat, start: nat, i: nat): (e: Complex)
    requires len < U16_LIMIT
    ensures !Inside(start, len, i) ==> e == ZERO
    ensures Inside(start, len, i) && len <= I16_MAX ==>
      e == sample(k, len, i, -(len / 2) + (i - start - 1))
  {
    if Inside(start, len, i) then
      var rank := i - start - 1;
      assert len <= I16_MAX ==> Offset(len, rank) == -(len / 2) + rank by {
        if len <= I16_MAX {
          OffsetExact(len, rank);
        }
      }
      sample(k, len, i, Offset(len, rank))
    else ZERO
  }

  /** The kernel `init_time_domain_kernel` builds for one bin. */
  function Kernel(sample: Sampler, k: nat, fftSize: nat, ideal: nat): (kernel: TimeKernel)
    requires fftSize < U16_LIMIT
    ensures |kernel.signal| == fftSize
    ensures kernel.len == if ideal < fftSize then ideal else fftSize
    ensures kernel.start == KernelStart(fftSize, kernel.len)
    ensures kernel.start + kernel.len <= fftSize
    ensures forall i :: 0 <= i < fftSize && (i <= kernel.start || i >= kernel.start + kernel.len) ==>
              kernel.signal[i] == ZERO
  {
    var len := KernelLen(ideal, fftSize);
    var start := KernelStart(fftSize, len);
    TimeKernel(seq(fftSize, i requires 0 <= i < fftSize => KernelEntry(sample, k, len, start, i)), len, start)
  }

  /** The whole bank: one kernel per bin, in bin order. */
  function Bank(sample: Sampler, idealLen: nat -> nat, fftSize: nat, nBins: nat): (bank: seq<TimeKernel>)
    requires fftSize < U16_LIMIT
    ensures |bank| == nBins
    ensures forall k :: 0 <= k < nBins ==>
      |bank[k].signal| == fftSize && bank[k].start + bank[k].len <= fftSize
  {
    var bank := seq(nBins, k requires 0 <= k < nBins => Kernel(sample, k, fftSize, idealLen(k)));
    assert forall k :: 0 <= k < nBins ==> bank[k] == Kernel(sample, k, fftSize, idealLen(k));
    bank
  }

  /** The indices a kernel's construction writes: strictly inside its support. */
  predicate Inside(start: nat, len: nat, i: nat)
  {
    start < i < start + len
  }

  function Interior(start: nat, len: nat): set<nat>
  {
    set i: nat | i < start + len && Inside(start, len, i)
  }

  lemma {:induction false} InteriorCard(start: nat, len: nat)
    ensures |Interior(start, len)| == if len == 0 then 0 else len - 1
  {
    if len <= 1 {
      assert Interior(start, len) == {};
    } else {
      InteriorCard(start, len - 1);
      assert Interior(start, len) == Interior(start, len - 1) + {start + len - 1};
    }
  }

  /** A kernel's construction writes len - 1 indices (none for an empty
      support), all inside the buffer; every other index keeps the default
      zero. */
  lemma KernelWrites(sample: Sampler, k: nat, fftSize: nat, ideal: nat)
    requires fftSize < U16_LIMIT
    ensures var kernel := Kernel(sample, k, fftSize, ideal);
      && |Interior(kernel.start, kernel.len)| == (if kernel.len == 0 then 0 else kernel.len - 1)
      && (forall i :: i in Interior(kernel.start, kernel.len) ==> i < fftSize)
      && (forall i :: 0 <= i < fftSize && i !in Interior(kernel.start, kernel.len) ==>
            kernel.signal[i] == ZERO)
  {
    var kernel := Kernel(sample, k, fftSize, ideal);
    InteriorCard(kernel.start, kernel.len);
  }

  /** At the j-th written index start + 1 + j, the sample is built from the
      offset s = -(len / 2) + j, provided the support is shorter than 32768. */
  lemma KernelOffsets(sample: Sampler, k: nat, fftSize: nat, ideal: nat, j: nat)
    requires fftSize < U16_LIMIT
    requires Kernel(sample, k, fftSize, ideal).len <= I16_MAX
    requires j + 1 < Kernel(sample, k, fftSize, ideal).len
    ensures var kernel := Kernel(sample, k, fftSize, ideal);
      kernel.start + 1 + j < fftSize &&
      kernel.signal[kernel.start + 1 + j] ==
        sample(k, kernel.len, kernel.start + 1 + j, -(kernel.len / 2) + j)
  {
    var kernel := Kernel(sample, k, fftSize, ideal);
    OffsetExact(kernel.len, j);
  }

  /** The kernel values of a bank built from the samples `src/cqt.rs`
      computes: with a genuine cosine and sine, every entry of a non-empty
      kernel is within 1 / len of zero in both parts, and an empty kernel is
      all zero. */
  lemma SourceBankBounded(trig: Trig, binFreq: nat -> real, idealLen: nat -> nat, fftSize: nat, nBins: nat, k: nat, i: nat)
    requires fftSize < U16_LIMIT && k < nBins && i < fftSize
    requires UnitBounded(trig.cos) && UnitBounded(trig.sin)
    ensures var kernel := Bank(SourceSampler(trig, binFreq), idealLen, fftSize, nBins)[k];
      && (kernel.len == 0 ==> kernel.signal[i] == ZERO)
      && (kernel.len > 0 ==>
            && -1.0 / kernel.len as real <= kernel.signal[i].re <= 1.0 / kernel.len as real
            && -1.0 / kernel.len as real <= kernel.signal[i].im <= 1.0 / kernel.len as real)
  {
    var sample := SourceSampler(trig, binFreq);
    var kernel := Bank(sample, idealLen, fftSize, nBins)[k];
    assert kernel == Kernel(sample, k, fftSize, idealLen(k));
    if Inside(kernel.start, kernel.len, i) {
      var s := Offset(kernel.len, i - kernel.start - 1);
      assert kernel.signal[i] == KernelSample(trig, binFreq(k), kernel.len, i, s);
    }
  }

  /** The per-bin inner loop of `init_time_domain_kernel`: walks the whole
      buffer, skips every index outside the open support interval, and
      writes each inside index from the current offset `s`, which starts at
      `0 - len as i16 / 2` and wraps on each `s += 1`. */
  method FillSupport(sample: Sampler, k: nat, len: nat, start: nat, signal: array<Complex>)
    requires len < U16_LIMIT && start + len <= signal.Length
    requires forall m :: 0 <= m < signal.Length ==> signal[m] == ZERO
    modifies signal
    ensures forall m :: 0 <= m < signal.Length ==> signal[m] == KernelEntry(sample, k, len, start, m)
  {
    var s := 0 - TruncHalf(AsI16(len));
    var end := start + len;
    ghost var written := 0;
    AsI16InRange(s);
    for i := 0 to signal.Length
      invariant forall m :: 0 <= m < i ==> signal[m] == KernelEntry(sample, k, len, start, m)
      invariant forall m :: i <= m < signal.Length ==> signal[m] == ZERO
      invariant i <= end ==> written == if i <= start then 0 else i - start - 1
      invariant s == Offset(len, written)
    {
      if i <= start || i >= end {
        assert KernelEntry(sample, k, len, start, i) == ZERO;
        continue;
      }
      assert KernelEntry(sample, k, len, start, i) == sample(k, len, i, s);
      signal[i] := sample(k, len, i, s);
      OffsetStep(len, written);
      s := AsI16(s + 1);
      written := written + 1;
    }
  }

  /** `init_time_domain_kernel`: allocates `n_bins` default kernels
      (`fft_size` zeros, len = fft_size, start = 0), then for each bin clamps
      the length, centres the support, fills the open support interval and
      records start and len. It never fails. */
  method InitTimeDomainKernel(sample: Sampler, idealLen: nat -> nat, fftSize: nat, nBins: nat)
    returns (r: Result<seq<TimeKernel>>)
    requires fftSize < U16_LIMIT && nBins < U16_LIMIT
    ensures r == Ok(Bank(sample, idealLen, fftSize, nBins))
  {
    var blank := TimeKernel(seq(fftSize, _ => ZERO), fftSize, 0);
    var kernels := seq(nBins, _ => blank);
    for k := 0 to nBins
      invariant |kernels| == nBins
      invariant forall b :: 0 <= b < k ==> kernels[b] == Kernel(sample, b, fftSize, idealLen(b))
      invariant forall b :: k <= b < nBins ==> kernels[b] == blank
    {
      var len := SaturatingU16(idealLen(k));
      var start: nat;
      if len > fftSize {
        len := fftSize;
      }
      if len % 2 == 1 {
        start := SaturatingU16(CeilHalf(fftSize - len) - 1);
      } else {
        start := CeilHalf(fftSize - len);
      }
      var signal := new Complex[fftSize](i requires 0 <= i < fftSize => kernels[k].signal[i]);
      FillSupport(sample, k, len, start, signal);
      ghost var expected := Kernel(sample, k, fftSize, idealLen(k));
      assert len == expected.len && start == expected.start;
      assert signal[..] == expected.signal;
      kernels := kernels[k := kernels[k].(signal := signal[..])];
      kernels := kernels[k := kernels[k].(start := start)];
      kernels := kernels[k := kernels[k].(len := len)];
    }
    ghost var bank := Bank(sample, idealLen, fftSize, nBins);
    assert forall b :: 0 <= b < nBins ==> bank[b] == Kernel(sample, b, fftSize, idealLen(b));
    assert kernels == bank;
    r := Ok(kernels);
  }

  // ---------------------------------------------------------------------
  // Per-frame correlation

  /** Kernel `kernel` can be correlated against `inputLen` samples: the
      support lies inside both buffers and its `u16` end does not overflow. */
  predicate Fits(kernel: TimeKernel, inputLen: nat)
  {
    && kernel.start + kernel.len <= |kernel.signal|
    && kernel.start + kernel.len <= inputLen
    && kernel.start + kernel.len < U16_LIMIT
  }

  /** The correlation sum over indices start .. end - 1, accumulated in
      index order: the real part adds input * kernel.re, the imaginary part
      subtracts input * kernel.im (correlation with the conjugate). */
  function Correlate(input: seq<real>, signal: seq<Complex>, start: nat, end: nat): Complex
    requires end <= |input| && end <= |signal|
    decreases end
  {
    if end <= start then ZERO
    else
      var acc := Correlate(input, signal, start, end - 1);
      Complex(acc.re + input[end - 1] * signal[end - 1].re, acc.im - input[end - 1] * signal[end - 1].im)
  }

  /** Squared magnitude, the argument of the final square root. */
  function Power(c: Complex): (p: real)
    ensures p >= 0.0
  {
    c.re * c.re + c.im * c.im
  }

  /** The magnitude of bin `kernel`; `sqrt` is the f32 square root. */
  function BinMagnitude(input: seq<real>, kernel: TimeKernel, sqrt: real -> real): (m: real)
    requires Fits(kernel, |input|)
    ensures (forall x: real :: x >= 0.0 ==> sqrt(x) >= 0.0) ==> m >= 0.0
  {
    sqrt(Power(Correlate(input, kernel.signal, kernel.start, kernel.start + kernel.len)))
  }

  /** The kernels `calc_cqt` reads can be used against `input`. */
  predicate BankFits(input: seq<real>, kernels: seq<TimeKernel>, nBins: nat)
  {
    nBins <= |kernels| && forall k :: 0 <= k < nBins ==> Fits(kernels[k], |input|)
  }

  /** The spectrum of one frame: one magnitude per bin, in bin order. */
  function Spectrum(input: seq<real>, kernels: seq<TimeKernel>, nBins: nat, sqrt: real -> real): (spectrum: seq<real>)
    requires BankFits(input, kernels, nBins)
    ensures |spectrum| == nBins
  {
    seq(nBins, k requires 0 <= k < nBins => BinMagnitude(input, kernels[k], sqrt))
  }

  /** `calc_cqt`: for every bin, accumulates the correlation over the
      kernel's support [start, start + len) and stores its magnitude. It
      never fails. */
  method CalcCqt(input: seq<real>, kernels: seq<TimeKernel>, nBins: nat, sqrt: real -> real)
    returns (r: Result<seq<real>>)
    requires nBins < U16_LIMIT
    requires BankFits(input, kernels, nBins)
    ensures r == Ok(Spectrum(input, kernels, nBins, sqrt))
  {
    var output := new real[nBins](_ => 0.0);
    for k := 0 to nBins
      invariant forall b :: 0 <= b < k ==> output[b] == BinMagnitude(input, kernels[b], sqrt)
    {
      var kernel := kernels[k];
      var sum := ZERO;
      for n := kernel.start to kernel.start + kernel.len
        invariant sum == Correlate(input, kernel.signal, kernel.start, n)
        invariant forall b :: 0 <= b < k ==> output[b] == BinMagnitude(input, kernels[b], sqrt)
      {
        sum := Complex(sum.re + input[n] * kernel.signal[n].re, sum.im - input[n] * kernel.signal[n].im);
      }
      output[k] := sqrt(Power(sum));
    }
    ghost var spectrum := Spectrum(input, kernels, nBins, sqrt);
    assert forall b :: 0 <= b < nBins ==> spectrum[b] == BinMagnitude(input, kernels[b], sqrt);
    assert output[..] == spectrum;
    r := Ok(output[..]);
  }

  // ---------------------------------------------------------------------
  // Properties of the transform

  /** A freshly built bank can be correlated against any frame of at least
      `fft_size` samples. */
  lemma BankIsUsable(sample: Sampler, idealLen: nat -> nat, fftSize: nat, nBins: nat, input: seq<real>)
    requires fftSize < U16_LIMIT && |input| >= fftSize
    ensures BankFits(input, Bank(sample, idealLen, fftSize, nBins), nBins)
  {
    var bank := Bank(sample, idealLen, fftSize, nBins);
    forall k | 0 <= k < nBins
      ensures Fits(bank[k], |input|)
    {
      assert bank[k] == Kernel(sample, k, fftSize, idealLen(k));
    }
  }

  lemma {:induction false} SilentCorrelation(input: seq<real>, signal: seq<Complex>, start: nat, end: nat)
    requires end <= |input| && end <= |signal|
    requires forall n :: 0 <= n < |input| ==> input[n] == 0.0
    ensures Correlate(input, signal, start, end) == ZERO
  {
    if end > start {
      SilentCorrelation(input, signal, start, end - 1);
    }
  }

  /** Silence in, silence out: an all-zero frame gives an all-zero spectrum,
      since the f32 square root of 0 is 0. */
  lemma SilenceGivesZeros(input: seq<real>, kernels: seq<TimeKernel>, nBins: nat, sqrt: real -> real)
    requires BankFits(input, kernels, nBins)
    requires forall n :: 0 <= n < |input| ==> input[n] == 0.0
    requires sqrt(0.0) == 0.0
    ensures forall k :: 0 <= k < nBins ==> Spectrum(input, kernels, nBins, sqrt)[k] == 0.0
  {
    forall k | 0 <= k < nBins
      ensures Spectrum(input, kernels, nBins, sqrt)[k] == 0.0
    {
      SilentCorrelation(input, kernels[k].signal, kernels[k].start, kernels[k].start + kernels[k].len);
    }
  }

  /** Every magnitude is non-negative: the square root only ever receives a
      non-negative power. */
  lemma MagnitudesNonNegative(input: seq<real>, kernels: seq<TimeKernel>, nBins: nat, sqrt: real -> real)
    requires BankFits(input, kernels, nBins)
    requires forall x: real :: x >= 0.0 ==> sqrt(x) >= 0.0
    ensures forall k :: 0 <= k < nBins ==> Spectrum(input, kernels, nBins, sqrt)[k] >= 0.0
  {
    forall k | 0 <= k < nBins
      ensures Spectrum(input, kernels, nBins, sqrt)[k] >= 0.0
    {
      var kernel := kernels[k];
      var p := Power(Correlate(input, kernel.signal, kernel.start, kernel.start + kernel.len));
      assert p >= 0.0;
    }
  }

  lemma {:induction false} CorrelationIsLocal(input1: seq<real>, signal1: seq<Complex>,
                                               input2: seq<real>, signal2: seq<Complex>, start: nat, end: nat)
    requires end <= |input1| && end <= |signal1| && end <= |input2| && end <= |signal2|
    requires forall n :: start <= n < end ==> input1[n] == input2[n] && signal1[n] == signal2[n]
    ensures Correlate(input1, signal1, start, end) == Correlate(input2, signal2, start, end)
  {
    if end > start {
      CorrelationIsLocal(input1, signal1, input2, signal2, start, end - 1);
    }
  }

  /** Every sample of a frame multiplied by `a`. */
  function ScaleFrame(a: real, input: seq<real>): (scaled: seq<real>)
    ensures |scaled| == |input|
    ensures forall n :: 0 <= n < |input| ==> scaled[n] == a * input[n]
  {
    seq(|input|, n requires 0 <= n < |input| => a * input[n])
  }

  /** The correlation is linear in the frame: scaling every sample by `a`
      scales both parts of the sum by `a`. */
  lemma {:induction false} CorrelationScales(a: real, input: seq<real>, signal: seq<Complex>, start: nat, end: nat)
    requires end <= |input| && end <= |signal|
    ensures var c := Correlate(input, signal, start, end);
      Correlate(ScaleFrame(a, input), signal, start, end) == Complex(a * c.re, a * c.im)
  {
    if end > start {
      CorrelationScales(a, input, signal, start, end - 1);
      var acc := Correlate(input, signal, start, end - 1);
      var x := input[end - 1];
      var sig := signal[end - 1];
      assert a * acc.re + (a * x) * sig.re == a * (acc.re + x * sig.re);
      assert a * acc.im - (a * x) * sig.im == a * (acc.im - x * sig.im);
    }
  }

  /** Scaling a complex sum by `a` scales its power by a * a. */
  lemma PowerScales(a: real, c: Complex)
    ensures Power(Complex(a * c.re, a * c.im)) == a * a * Power(c)
  {
    var x, y := c.re, c.im;
    assert (a * x) * (a * x) == a * a * (x * x);
    assert (a * y) * (a * y) == a * a * (y * y);
  }

  /** A frame scaled by `a` has every bin's power scaled by a * a. */
  lemma BinPowerScales(a: real, input: seq<real>, kernel: TimeKernel)
    requires Fits(kernel, |input|)
    ensures Power(Correlate(ScaleFrame(a, input), kernel.signal, kernel.start, kernel.start + kernel.len))
         == a * a * Power(Correlate(input, kernel.signal, kernel.start, kernel.start + kernel.len))
  {
    var c := Correlate(input, kernel.signal, kernel.start, kernel.start + kernel.len);
    var c2 := Correlate(ScaleFrame(a, input), kernel.signal, kernel.start, kernel.start + kernel.len);
    CorrelationScales(a, input, kernel.signal, kernel.start, kernel.start + kernel.len);
    assert c2 == Complex(a * c.re, a * c.im);
    PowerScales(a, c);
    assert Power(c2) == Power(Complex(a * c.re, a * c.im));
  }

  /** Two frames of the same length added sample by sample. */
  function AddFrames(x: seq<real>, y: seq<real>): (sum: seq<real>)
    requires |x| == |y|
    ensures |sum| == |x|
    ensures forall n :: 0 <= n < |x| ==> sum[n] == x[n] + y[n]
  {
    seq(|x|, n requires 0 <= n < |x| => x[n] + y[n])
  }

  /** The correlation is additive in the frame: the sum of two frames
      correlates to the sum of their correlations. With `CorrelationScales`
      it is linear. */
  lemma {:induction false} CorrelationAdds(x: seq<real>, y: seq<real>, signal: seq<Complex>, start: nat, end: nat)
    requires |x| == |y| && end <= |x| && end <= |signal|
    ensures var cx := Correlate(x, signal, start, end);
      var cy := Correlate(y, signal, start, end);
      Correlate(AddFrames(x, y), signal, start, end) == Complex(cx.re + cy.re, cx.im + cy.im)
  {
    if end > start {
      CorrelationAdds(x, y, signal, start, end - 1);
      var u := x[end - 1];
      var v := y[end - 1];
      var sig := signal[end - 1];
      assert (u + v) * sig.re == u * sig.re + v * sig.re;
      assert (u + v) * sig.im == u * sig.im + v * sig.im;
    }
  }

  /** A bin's magnitude depends only on that kernel's support and the input
      samples under it: two frames and two kernels that agree there (and
      share start and len) give the same value. */
  lemma BinIsLocal(input1: seq<real>, kernel1: TimeKernel, input2: seq<real>, kernel2: TimeKernel, sqrt: real -> real)
    requires Fits(kernel1, |input1|) && Fits(kernel2, |input2|)
    requires kernel1.start == kernel2.start && kernel1.len == kernel2.len
    requires forall n :: kernel1.start <= n < kernel1.start + kernel1.len ==>
               input1[n] == input2[n] && kernel1.signal[n] == kernel2.signal[n]
    ensures BinMagnitude(input1, kernel1, sqrt) == BinMagnitude(input2, kernel2, sqrt)
  {
    CorrelationIsLocal(input1, kernel1.signal, input2, kernel2.signal, kernel1.start, kernel1.start + kernel1.len);
  }

  /** Kernels at index n_bins and beyond are never read. */
  lemma ExtraKernelsIgnored(input: seq<real>, kernels: seq<TimeKernel>, nBins: nat, sqrt: real -> real)
    requires BankFits(input, kernels, nBins)
    ensures BankFits(input, kernels[..nBins], nBins)
    ensures Spectrum(input, kernels, nBins, sqrt) == Spectrum(input, kernels[..nBins], nBins, sqrt)
  {
    assert forall k :: 0 <= k < nBins ==> kernels[..nBins][k] == kernels[k];
  }
}
