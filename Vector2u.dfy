/** Vector2u: a 2-D vector of `uint` components; every operator wraps modulo 2^32. */
module Vec2u {
  import opened Int32
  import opened Results

  datatype Vector2u = Vector2u(x: uint32, y: uint32)

  /** `new Vector2u(c)`: both components set to `c`. */
  function Splat(c: uint32): (v: Vector2u)
    ensures v.x == c && v.y == c
  {
    Vector2u(c, c)
  }

  /** `v1 + v2`: component-wise sum modulo 2^32. */
  function Add(v1: Vector2u, v2: Vector2u): (r: Vector2u)
    ensures (r.x - (v1.x + v2.x)) % Modulus == 0 && (r.y - (v1.y + v2.y)) % Modulus == 0
  {
    Vector2u(WrapU(v1.x + v2.x), WrapU(v1.y + v2.y))
  }

  /** `v1 - v2`: component-wise difference modulo 2^32. */
  function Sub(v1: Vector2u, v2: Vector2u): (r: Vector2u)
    ensures (r.x - (v1.x - v2.x)) % Modulus == 0 && (r.y - (v1.y - v2.y)) % Modulus == 0
  {
    Vector2u(WrapU(v1.x - v2.x), WrapU(v1.y - v2.y))
  }

  /** `v1 + xy`: the same `uint` added to both components. */
  function AddScalar(v1: Vector2u, xy: uint32): (r: Vector2u)
    ensures r == Add(v1, Splat(xy))
  {
    Vector2u(WrapU(v1.x + xy), WrapU(v1.y + xy))
  }

  /** `v1 - xy`: the same `uint` subtracted from both components. */
  function SubScalar(v1: Vector2u, xy: uint32): (r: Vector2u)
    ensures r == Sub(v1, Splat(xy))
  {
    Vector2u(WrapU(v1.x - xy), WrapU(v1.y - xy))
  }

  /** `v * x` */
  function Mul(v: Vector2u, x: uint32): (r: Vector2u)
    ensures (r.x - v.x * x) % Modulus == 0 && (r.y - v.y * x) % Modulus == 0
  {
    Vector2u(WrapU(v.x * x), WrapU(v.y * x))
  }

  /** `x * v`: the same product as `v * x`. */
  function MulLeft(x: uint32, v: Vector2u): (r: Vector2u)
    ensures r == Mul(v, x)
  {
    Vector2u(WrapU(v.x * x), WrapU(v.y * x))
  }

  /** `v / x`: unsigned division floors each component; dividing by 0 throws. */
  function Div(v: Vector2u, x: uint32): (r: Result<Vector2u, Exception>)
    ensures r.Failure? <==> x == 0
    ensures r.Failure? ==> r.error == DivideByZero
    ensures r.Success? ==> r.value.x * x <= v.x < (r.value.x + 1) * x
    ensures r.Success? ==> r.value.y * x <= v.y < (r.value.y + 1) * x
  {
    if x == 0 then Failure(DivideByZero)
    else
      DivBounds(v.x, x);
      DivBounds(v.y, x);
      Success(Vector2u(v.x / x, v.y / x))
  }

  /** Subtracting and then adding back the same vector gives the original, whatever wraps. */
  lemma SubAddCancel(a: Vector2u, b: Vector2u)
    ensures Add(Sub(a, b), b) == a
  {
    var d := Sub(a, b);
    WrapUCongruent(d.x + b.x, a.x);
    WrapUCongruent(d.y + b.y, a.y);
  }

  /** Adding and then subtracting the same vector gives the original, whatever wraps. */
  lemma AddSubCancel(a: Vector2u, b: Vector2u)
    ensures Sub(Add(a, b), b) == a
  {
    var s := Add(a, b);
    WrapUCongruent(s.x - b.x, a.x);
    WrapUCongruent(s.y - b.y, a.y);
  }
}
