/** BT.601 limited-range fixed-point colour conversion. */
module Bt601 {
  import opened Bytes

  datatype Rgb = Rgb(r: byte, g: byte, b: byte)

  function Clamp(x: int, low: int, high: int): int
    requires low <= high
  {
    if x < low then low else if x > high then high else x
  }

  /** `>> 8` on a signed word rounds down, as `/ 256` does here. */
  function Luma(p: Rgb): (y: byte)
  {
    Clamp((66 * (p.r as int) + 129 * (p.g as int) + 25 * (p.b as int) + 128) / 256 + 16, 16, 235)
  }

  function RawCb(p: Rgb): int {
    (-38 * (p.r as int) - 74 * (p.g as int) + 112 * (p.b as int) + 128) / 256 + 128
  }

  function RawCr(p: Rgb): int {
    (112 * (p.r as int) - 94 * (p.g as int) - 18 * (p.b as int) + 128) / 256 + 128
  }

  function Cb(p: Rgb): byte {
    Clamp(RawCb(p), 16, 240)
  }

  function Cr(p: Rgb): byte {
    Clamp(RawCr(p), 16, 240)
  }

  /** For bytes the clamps never fire: the limited ranges come out of the arithmetic alone. */
  lemma ClampsNeverFire(p: Rgb)
    ensures Luma(p) == (66 * (p.r as int) + 129 * (p.g as int) + 25 * (p.b as int) + 128) / 256 + 16
    ensures Cb(p) == RawCb(p) && Cr(p) == RawCr(p)
  {
    ScaledRange(66 * (p.r as int) + 129 * (p.g as int) + 25 * (p.b as int) + 128, 0, 219);
    ScaledRange(-38 * (p.r as int) - 74 * (p.g as int) + 112 * (p.b as int) + 128, -112, 112);
    ScaledRange(112 * (p.r as int) - 94 * (p.g as int) - 18 * (p.b as int) + 128, -112, 112);
  }

  lemma ScaledRange(x: int, low: int, high: int)
    requires 256 * low <= x < 256 * (high + 1)
    ensures low <= x / 256 <= high
  {
  }

  /** Each component is its weighted sum of red, green and blue over 256, rounded to the nearest
      integer, above 16 for luma and around 128 for chroma. */
  lemma RoundedSums(p: Rgb)
    ensures var sum := 66 * (p.r as int) + 129 * (p.g as int) + 25 * (p.b as int);
            256 * (Luma(p) - 16) <= sum + 128 < 256 * (Luma(p) - 15)
    ensures var sum := -38 * (p.r as int) - 74 * (p.g as int) + 112 * (p.b as int);
            256 * (Cb(p) - 128) <= sum + 128 < 256 * (Cb(p) - 127)
    ensures var sum := 112 * (p.r as int) - 94 * (p.g as int) - 18 * (p.b as int);
            256 * (Cr(p) - 128) <= sum + 128 < 256 * (Cr(p) - 127)
  {
    ClampsNeverFire(p);
  }

  /** Greys carry no colour, and black and white meet the ends of the luma range. */
  lemma GreyIsNeutral(v: byte)
    ensures Cb(Rgb(v, v, v)) == Cr(Rgb(v, v, v)) == 128
    ensures Luma(Rgb(0, 0, 0)) == 16 && Luma(Rgb(255, 255, 255)) == 235
  {
    assert -38 * (v as int) - 74 * (v as int) + 112 * (v as int) == 0;
    assert 112 * (v as int) - 94 * (v as int) - 18 * (v as int) == 0;
  }
}
