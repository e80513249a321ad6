/**
 Shared value types of the lens-flare pipeline: three-component vectors,
 colours with and without alpha, texture coordinates, and an Option type.
 Shader arithmetic is modelled over `real`; half-float precision is not.
 */
module Common {

  datatype Option<+T> = None | Some(value: T)

  /** A world-space, NDC or screen-space position (three.js `Vector3`, GLSL `vec3`). */
  datatype Vec3 = Vec3(x: real, y: real, z: real)

  /** A texture coordinate (GLSL `vec2` used for sampling). */
  datatype Uv = Uv(u: real, v: real)

  /** An RGB colour (GLSL `vec3` used as a colour). */
  datatype Rgb = Rgb(r: real, g: real, b: real)

  /** An RGBA texel or fragment colour (GLSL `vec4`). */
  datatype Rgba = Rgba(r: real, g: real, b: real, a: real)

  const Origin: Vec3 := Vec3(0.0, 0.0, 0.0)
  const Black: Rgb := Rgb(0.0, 0.0, 0.0)
  const Transparent: Rgba := Rgba(0.0, 0.0, 0.0, 0.0)

  function Add3(p: Vec3, q: Vec3): Vec3 { Vec3(p.x + q.x, p.y + q.y, p.z + q.z) }
  function Sub3(p: Vec3, q: Vec3): Vec3 { Vec3(p.x - q.x, p.y - q.y, p.z - q.z) }
  function Scale3(p: Vec3, k: real): Vec3 { Vec3(p.x * k, p.y * k, p.z * k) }
  function Dot(p: Vec3, q: Vec3): real { p.x * q.x + p.y * q.y + p.z * q.z }

  function AddRgb(c: Rgb, d: Rgb): Rgb { Rgb(c.r + d.r, c.g + d.g, c.b + d.b) }
  function ScaleRgb(c: Rgb, k: real): Rgb { Rgb(c.r * k, c.g * k, c.b * k) }

  function AddRgba(c: Rgba, d: Rgba): Rgba { Rgba(c.r + d.r, c.g + d.g, c.b + d.b, c.a + d.a) }
  function RgbOf(c: Rgba): Rgb { Rgb(c.r, c.g, c.b) }

  /** Channel `i` of an RGBA value: 0 is `.r`, 1 `.g`, 2 `.b`, 3 `.a`. */
  function Channel(c: Rgba, i: nat): real
    requires i < 4
  {
    if i == 0 then c.r else if i == 1 then c.g else if i == 2 then c.b else c.a
  }

  function Min(a: real, b: real): real { if a <= b then a else b }
  function Max(a: real, b: real): real { if a >= b then a else b }

  /** GLSL `clamp(x, lo, hi)` for `lo <= hi`. */
  function Clamp(x: real, lo: real, hi: real): (y: real)
    requires lo <= hi
    ensures lo <= y <= hi
    ensures x <= lo ==> y == lo
  {
    Min(Max(x, lo), hi)
  }

  /** GLSL `mix(x, y, t) = x * (1 - t) + y * t`. */
  function Mix(x: real, y: real, t: real): real { x * (1.0 - t) + y * t }


  predicate InUnit(x: real) { 0.0 <= x <= 1.0 }

  function Sum(xs: seq<real>): real {
    if |xs| == 0 then 0.0 else xs[0] + Sum(xs[1..])
  }

  lemma {:induction false} SumNonNegative(xs: seq<real>)
    requires forall k :: 0 <= k < |xs| ==> xs[k] >= 0.0
    ensures Sum(xs) >= 0.0
  {
    if |xs| > 0 {
      SumNonNegative(xs[1..]);
    }
  }

  lemma {:induction false} SumAppend(xs: seq<real>, ys: seq<real>)
    ensures Sum(xs + ys) == Sum(xs) + Sum(ys)
  {
    if |xs| == 0 {
      assert xs + ys == ys;
    } else {
      assert (xs + ys)[1..] == xs[1..] + ys;
      SumAppend(xs[1..], ys);
    }
  }

  /** Every colour channel lies in [lo, hi]. */
  predicate RgbWithin(c: Rgb, lo: real, hi: real) {
    lo <= c.r <= hi && lo <= c.g <= hi && lo <= c.b <= hi
  }

  /** A sample coordinate outside the unit square (the GLSL test `x < 0 || x > 1 || y < 0 || y > 1`). */
  predicate OutsideUnitSquare(uv: Uv) {
    uv.u < 0.0 || uv.u > 1.0 || uv.v < 0.0 || uv.v > 1.0
  }

  lemma ProductNonNegative(x: real, y: real)
    requires x >= 0.0 && y >= 0.0
    ensures x * y >= 0.0
  {
  }

  /** Appending a pair to a sequence of pairs keeps the earlier pairs in place. */
  lemma AppendPair<T>(before: seq<T>, more: seq<T>, k: nat)
    requires |before| == 2 * k && |more| == 2
    ensures (before + more)[2 * k .. 2 * k + 2] == more
    ensures forall j :: 0 <= j < k ==> (before + more)[2 * j .. 2 * j + 2] == before[2 * j .. 2 * j + 2]
  {
  }
}
