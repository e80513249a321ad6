/**
 The compositor (`outputQuad` of both passes): a cubic B-spline upsampling of
 the half-resolution flare buffer, done with four bilinear taps, added onto
 the scene colour. Texture fetches are functions from coordinates to RGBA;
 hardware bilinear filtering is not modelled.
 */
module Compositor {
  import opened Common

  type Texture = Uv -> Rgba

  /** The `texelSize` uniform: (1 / width, 1 / height, width, height) of the flare buffer. */
  datatype TexelSize = TexelSize(sx: real, sy: real, w: real, h: real)

  function W0(a: real): real { (1.0 / 6.0) * (a * (a * (-a + 3.0) - 3.0) + 1.0) }
  function W1(a: real): real { (1.0 / 6.0) * (a * a * (3.0 * a - 6.0) + 4.0) }
  function W2(a: real): real { (1.0 / 6.0) * (a * (a * (-3.0 * a + 3.0) + 3.0) + 1.0) }
  function W3(a: real): real { (1.0 / 6.0) * (a * a * a) }

  /** The two amplitude functions. */
  function G0(a: real): real { W0(a) + W1(a) }
  function G1(a: real): real { W2(a) + W3(a) }

  /** The four B-spline weights sum to one for every offset, and so do the
      two amplitudes. */
  lemma PartitionOfUnity(a: real)
    ensures W0(a) + W1(a) + W2(a) + W3(a) == 1.0
    ensures G0(a) + G1(a) == 1.0
  {
  }

  /** On [0, 1] every weight is non-negative, and the middle two are at least 1/6. */
  lemma WeightsNonNegative(a: real)
    requires InUnit(a)
    ensures W0(a) >= 0.0 && W1(a) >= 1.0 / 6.0 && W2(a) >= 1.0 / 6.0 && W3(a) >= 0.0
  {
    var b := 1.0 - a;
    var aa := a * a;
    var bb := b * b;
    ProductNonNegative(a, a);
    ProductNonNegative(b, b);
    ProductNonNegative(bb, b);
    ProductNonNegative(aa, a);
    assert W0(a) == bb * b / 6.0;
    assert W3(a) == aa * a / 6.0;
    ProductNonNegative(a, b);
    assert aa <= a by {
      assert a - aa == a * b;
    }
    var c := 1.0 + a - aa;
    ProductNonNegative(b, c);
    assert W1(a) == (1.0 + 3.0 * (b * c)) / 6.0;
    ProductNonNegative(aa, b);
    assert W2(a) == (1.0 + 3.0 * a + 3.0 * (aa * b)) / 6.0;
  }

  /** Both amplitudes are positive on [0, 1], so the offsets' divisions are defined. */
  lemma AmplitudesPositive(a: real)
    requires InUnit(a)
    ensures G0(a) > 0.0 && G1(a) > 0.0
  {
    WeightsNonNegative(a);
  }

  lemma RatioInUnit(x: real, y: real)
    requires 0.0 <= x <= y && y > 0.0
    ensures InUnit(x / y)
  {
  }

  /** The first offset function: the left tap moves by at most one texel. */
  function H0(a: real): (h: real)
    requires InUnit(a)
    ensures -1.0 <= h <= 0.0
  {
    WeightsNonNegative(a);
    RatioInUnit(W1(a), W0(a) + W1(a));
    -1.0 + W1(a) / (W0(a) + W1(a))
  }

  /** The second offset function: the right tap sits between one and two texels. */
  function H1(a: real): (h: real)
    requires InUnit(a)
    ensures 1.0 <= h <= 2.0
  {
    WeightsNonNegative(a);
    RatioInUnit(W3(a), W2(a) + W3(a));
    1.0 + W3(a) / (W2(a) + W3(a))
  }

  /** GLSL `fract`. */
  function Fract(x: real): (f: real)
    ensures 0.0 <= f < 1.0
  {
    x - x.Floor as real
  }

  /** The four taps weighted by the amplitudes. */
  function Blend(t0: Rgba, t1: Rgba, t2: Rgba, t3: Rgba, g0x: real, g1x: real, g0y: real, g1y: real): Rgba {
    Rgba(BlendValue(t0.r, t1.r, t2.r, t3.r, g0x, g1x, g0y, g1y),
         BlendValue(t0.g, t1.g, t2.g, t3.g, g0x, g1x, g0y, g1y),
         BlendValue(t0.b, t1.b, t2.b, t3.b, g0x, g1x, g0y, g1y),
         BlendValue(t0.a, t1.a, t2.a, t3.a, g0x, g1x, g0y, g1y))
  }

  /** One channel of `mix(mix(t0, t1, gx), mix(t2, t3, gx), gy)` written with the amplitudes. */
  function BlendValue(x0: real, x1: real, x2: real, x3: real, g0x: real, g1x: real, g0y: real, g1y: real): real {
    (x0 * g0x + x1 * g1x) * g0y + (x2 * g0x + x3 * g1x) * g1y
  }

  predicate NonNegative(c: Rgba) {
    c.r >= 0.0 && c.g >= 0.0 && c.b >= 0.0 && c.a >= 0.0
  }

  lemma BlendChannel(x0: real, x1: real, x2: real, x3: real, g0x: real, g1x: real, g0y: real, g1y: real)
    requires g0x + g1x == 1.0 && g0y + g1y == 1.0
    requires g0x >= 0.0 && g1x >= 0.0 && g0y >= 0.0 && g1y >= 0.0
    ensures x0 == x1 == x2 == x3 ==> BlendValue(x0, x1, x2, x3, g0x, g1x, g0y, g1y) == x0
    ensures x0 >= 0.0 && x1 >= 0.0 && x2 >= 0.0 && x3 >= 0.0 ==> BlendValue(x0, x1, x2, x3, g0x, g1x, g0y, g1y) >= 0.0
  {
    if x0 == x1 == x2 == x3 {
      assert x0 * g0x + x1 * g1x == x0 * (g0x + g1x) == x0;
      assert x2 * g0x + x3 * g1x == x0;
      assert x0 * g0y + x0 * g1y == x0 * (g0y + g1y);
    }
    if x0 >= 0.0 && x1 >= 0.0 && x2 >= 0.0 && x3 >= 0.0 {
      assert x0 * g0x >= 0.0 && x1 * g1x >= 0.0 && x2 * g0x >= 0.0 && x3 * g1x >= 0.0;
      assert (x0 * g0x + x1 * g1x) * g0y >= 0.0;
      assert (x2 * g0x + x3 * g1x) * g1y >= 0.0;
    }
  }

  /** With partition-of-unity amplitudes the blend reproduces a constant and
      keeps non-negative colours non-negative. */
  lemma BlendProperties(t0: Rgba, t1: Rgba, t2: Rgba, t3: Rgba, g0x: real, g1x: real, g0y: real, g1y: real)
    requires g0x + g1x == 1.0 && g0y + g1y == 1.0
    requires g0x >= 0.0 && g1x >= 0.0 && g0y >= 0.0 && g1y >= 0.0
    ensures t0 == t1 == t2 == t3 ==> Blend(t0, t1, t2, t3, g0x, g1x, g0y, g1y) == t0
    ensures NonNegative(t0) && NonNegative(t1) && NonNegative(t2) && NonNegative(t3) ==>
      NonNegative(Blend(t0, t1, t2, t3, g0x, g1x, g0y, g1y))
  {
    BlendChannel(t0.r, t1.r, t2.r, t3.r, g0x, g1x, g0y, g1y);
    BlendChannel(t0.g, t1.g, t2.g, t3.g, g0x, g1x, g0y, g1y);
    BlendChannel(t0.b, t1.b, t2.b, t3.b, g0x, g1x, g0y, g1y);
    BlendChannel(t0.a, t1.a, t2.a, t3.a, g0x, g1x, g0y, g1y);
  }

  /** `texture_bicubic(tex, uv, texelSize)`. */
  function TextureBicubic(tex: Texture, uv: Uv, ts: TexelSize): (c: Rgba)
    ensures (forall p :: tex(p) == tex(uv)) ==> c == tex(uv)
    ensures (forall p :: NonNegative(tex(p))) ==> NonNegative(c)
  {
    var su := uv.u * ts.w + 0.5;
    var sv := uv.v * ts.h + 0.5;
    var iu := su.Floor as real;
    var iv := sv.Floor as real;
    var fu := Fract(su);
    var fv := Fract(sv);
    var p0 := Uv((iu + H0(fu) - 0.5) * ts.sx, (iv + H0(fv) - 0.5) * ts.sy);
    var p1 := Uv((iu + H1(fu) - 0.5) * ts.sx, (iv + H0(fv) - 0.5) * ts.sy);
    var p2 := Uv((iu + H0(fu) - 0.5) * ts.sx, (iv + H1(fv) - 0.5) * ts.sy);
    var p3 := Uv((iu + H1(fu) - 0.5) * ts.sx, (iv + H1(fv) - 0.5) * ts.sy);
    PartitionOfUnity(fu);
    PartitionOfUnity(fv);
    AmplitudesPositive(fu);
    AmplitudesPositive(fv);
    BlendProperties(tex(p0), tex(p1), tex(p2), tex(p3), G0(fu), G1(fu), G0(fv), G1(fv));
    Blend(tex(p0), tex(p1), tex(p2), tex(p3), G0(fu), G1(fu), G0(fv), G1(fv))
  }

  /** The output pixel: scene colour plus the upsampled flare buffer. An
      all-zero flare buffer leaves the scene unchanged, and a non-negative one
      never darkens it. */
  function Composite(scene: Texture, flare: Texture, uv: Uv, ts: TexelSize): (c: Rgba)
    ensures (forall p :: flare(p) == Transparent) ==> c == scene(uv)
    ensures (forall p :: NonNegative(flare(p))) ==>
      c.r >= scene(uv).r && c.g >= scene(uv).g && c.b >= scene(uv).b && c.a >= scene(uv).a
  {
    AddRgba(scene(uv), TextureBicubic(flare, uv, ts))
  }
}
