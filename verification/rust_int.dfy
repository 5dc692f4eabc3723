/** Rust value semantics the analyser relies on: the `Result` it returns, the
    saturating float-to-`u16` cast, the two's-complement `as i16` cast and
    integer division, which in Rust rounds toward zero. */
module RustInt {

  /** `Result<T, Error>` as returned by the analyser; `errno` stands for the
      ALSA/nix error code carried by `Err`. */
  datatype Result<T> = Ok(value: T) | Err(errno: int)

  const U16_LIMIT: int := 0x1_0000
  const I16_MIN: int := -0x8000
  const I16_MAX: int := 0x7FFF

  /** `x as u16` for a value that Rust casts with saturation (a float): values
      below zero become 0 and values above 65535 become 65535. The case
      clauses define the cast; what callers rely on is that the result is
      always a `u16`. */
  function SaturatingU16(x: int): (r: nat)
    ensures r < U16_LIMIT
    ensures 0 <= x < U16_LIMIT ==> r == x
    ensures x < 0 ==> r == 0
    ensures x >= U16_LIMIT ==> r == U16_LIMIT - 1
  {
    if x < 0 then 0 else if x >= U16_LIMIT then U16_LIMIT - 1 else x
  }

  /** Two's-complement reinterpretation of an integer as `i16`: the value in
      -32768..32767 that is congruent to `x` modulo 65536. This is both
      `u16 as i16` and the wrapping result of `i16` arithmetic. */
  function AsI16(x: int): (r: int)
    ensures I16_MIN <= r <= I16_MAX
    ensures (x - r) % U16_LIMIT == 0
  {
    var m := x % U16_LIMIT;
    if m > I16_MAX then m - U16_LIMIT else m
  }

  /** A value already inside the `i16` range is left alone by the cast. */
  lemma AsI16InRange(x: int)
    requires I16_MIN <= x <= I16_MAX
    ensures AsI16(x) == x
  {
    var r := AsI16(x);
    var q := (x - r) / U16_LIMIT;
    assert x - r == q * U16_LIMIT;
    assert -U16_LIMIT < x - r < U16_LIMIT;
  }

  /** `x as i16` for a `u16` value `x`: values from 32768 on become negative. */
  lemma AsI16OfU16(x: int)
    requires 0 <= x < U16_LIMIT
    ensures AsI16(x) == if x <= I16_MAX then x else x - U16_LIMIT
  {
    if x <= I16_MAX { AsI16InRange(x); } else { AsI16InRange(x - U16_LIMIT); }
  }

  /** Wrapping `+ 1` on a wrapped value is the wrap of `+ 1`. */
  lemma AsI16Succ(x: int)
    ensures AsI16(AsI16(x) + 1) == AsI16(x + 1)
  {
    var a := AsI16(x);
    var b := AsI16(a + 1);
    var c := AsI16(x + 1);
    // b and c are both congruent to x + 1 and both lie in one window of 65536
    assert (b - c) % U16_LIMIT == 0 by {
      assert (x - a) % U16_LIMIT == 0;
      assert (a + 1 - b) % U16_LIMIT == 0;
      assert (x + 1 - c) % U16_LIMIT == 0;
      var p := (x - a) / U16_LIMIT;
      var q := (a + 1 - b) / U16_LIMIT;
      var t := (x + 1 - c) / U16_LIMIT;
      assert b - c == (t - p - q) * U16_LIMIT;
    }
    var d := (b - c) / U16_LIMIT;
    assert b - c == d * U16_LIMIT;
    assert -U16_LIMIT < b - c < U16_LIMIT;
  }

  /** Rust's `a / 2` on a signed integer: rounds toward zero, so the
      remainder is zero or has the sign of `a`. */
  function TruncHalf(a: int): (r: int)
    ensures 0 <= a ==> 0 <= a - 2 * r <= 1
    ensures a < 0 ==> -1 <= a - 2 * r <= 0
  {
    if a >= 0 then a / 2 else -((-a) / 2)
  }
}
