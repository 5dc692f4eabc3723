/** The capture pipe's read-only query: which bin of the last spectrum is
    loudest. */
module Pipes {
  import opened RustInt

  /** The pipe's buffers; the PCM capture handle is not modelled. */
  datatype Pipe = Pipe(numCh: nat, fftSize: nat, input: seq<real>, output: seq<real>)

  /** The index `Iterator::max_by` settles on over s[..n]: it folds from the
      left and replaces the running maximum whenever the next element is not
      smaller, so the last of several equal maxima wins. */
  function MaxByIndex(s: seq<real>, n: nat): (idx: nat)
    requires 0 < n <= |s|
    ensures idx < n
    ensures forall j :: 0 <= j < n ==> s[j] <= s[idx]
    ensures forall j :: idx < j < n ==> s[j] < s[idx]
    decreases n
  {
    if n == 1 then 0
    else
      var best := MaxByIndex(s, n - 1);
      if s[best] <= s[n - 1] then n - 1 else best
  }

  /** `Pipe::get_highest_output_index`: the position of the largest output
      value, the last one on ties, or 0 for an empty output. It never fails
      and, taking the pipe by shared reference, changes nothing. */
  function HighestOutputIndex(pipe: Pipe): (r: Result<nat>)
    ensures r.Ok?
    ensures |pipe.output| == 0 ==> r.value == 0
    ensures |pipe.output| > 0 ==> r.value < |pipe.output|
    ensures forall j :: 0 <= j < |pipe.output| ==> pipe.output[j] <= pipe.output[r.value]
    ensures forall j :: r.value < j < |pipe.output| ==> pipe.output[j] < pipe.output[r.value]
  {
    if |pipe.output| == 0 then Ok(0) else Ok(MaxByIndex(pipe.output, |pipe.output|))
  }
}
