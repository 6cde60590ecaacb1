/** The parts of the p5.js library that the sketch relies on: 2D vectors with
    their in-place arithmetic written as values, `limit`, and the foreign
    numerics (noise, fromAngle, Math.sqrt) bundled as a Library value. */
module P5 {

  datatype Option<T> = None | Some(value: T)

  /** A p5.Vector. Every vector of the sketch has z == 0, so z is dropped. */
  datatype Vec = Vec(x: real, y: real)

  /** a.add(b) */
  function Add(a: Vec, b: Vec): Vec { Vec(a.x + b.x, a.y + b.y) }

  /** v.mult(k) */
  function Scale(v: Vec, k: real): Vec { Vec(v.x * k, v.y * k) }

  /** v.magSq() */
  function MagSq(v: Vec): real { v.x * v.x + v.y * v.y }

  /** s is the non-negative square root of x */
  predicate IsRoot(s: real, x: real) { 0.0 <= s && s * s == x }

  /** A noise value: p5's noise() always lies in [0, 1]. */
  type Unit = r: real | 0.0 <= r <= 1.0

  /** p5's TWO_PI, that is 2 * Math.PI as a double. */
  const TWO_PI: real := 6.283185307179586

  /** The foreign functions the core calls and that are not modelled:
      noise(octaves, falloff, x, y, z) is p5's noise() under the detail set by
      noiseDetail(octaves, falloff); fromAngle is p5.Vector.fromAngle; sqrt is
      the Math.sqrt that p5 uses inside limit() and mag(). */
  datatype Library = Library(
    noise: (int, real, real, real, real) -> Unit,
    fromAngle: real -> Vec,
    sqrt: real -> real)
  {
    /** The host square root is exact on non-negative reals. */
    ghost predicate ExactSqrt() {
      forall x: real :: 0.0 <= x ==> IsRoot(sqrt(x), x)
    }
  }

  lemma MagSqScale(v: Vec, k: real)
    ensures MagSq(Scale(v, k)) == k * k * MagSq(v)
  {
  }

  lemma ScaleScale(v: Vec, a: real, b: real)
    ensures Scale(Scale(v, a), b) == Scale(v, a * b)
  {
  }

  /** v.limit(max): when the squared magnitude exceeds max * max, the vector
      is divided by its magnitude and multiplied by max; otherwise it is left
      alone. Only the squared magnitude is compared, so no root is taken on the
      short path. */
  function Limit(v: Vec, max: real, sqrt: real -> real): (r: Vec)
    requires MagSq(v) > max * max ==> IsRoot(sqrt(MagSq(v)), MagSq(v))
    ensures MagSq(r) <= max * max
    ensures MagSq(v) <= max * max ==> r == v
    ensures MagSq(v) > max * max ==> MagSq(r) == max * max
    ensures MagSq(v) > max * max && 0.0 < max ==> exists k: real :: 0.0 < k && r == Scale(v, k)
  {
    var mSq := MagSq(v);
    if mSq > max * max then
      var m := sqrt(mSq);
      assert 0.0 < m;
      var r := Scale(Scale(v, 1.0 / m), max);
      assert MagSq(r) == max * max by {
        ScaleScale(v, 1.0 / m, max);
        MagSqScale(v, (1.0 / m) * max);
        assert (1.0 / m) * (1.0 / m) * mSq == 1.0;
        calc {
          ((1.0 / m) * max) * ((1.0 / m) * max) * mSq;
          max * max * ((1.0 / m) * (1.0 / m) * mSq);
          max * max;
        }
      }
      assert 0.0 < max ==> 0.0 < (1.0 / m) * max && r == Scale(v, (1.0 / m) * max) by {
        ScaleScale(v, 1.0 / m, max);
      }
      r
    else
      v
  }
}
