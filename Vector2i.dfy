/** Vector2i: a 2-D vector of `int` components; C# unchecked arithmetic wraps modulo 2^32. */
module Vec2i {
  import opened Int32
  import opened Results
  import Vec2u

  datatype Vector2i = Vector2i(x: int32, y: int32)

  /** `new Vector2i(c)`: both components set to `c`. */
  function Splat(c: int32): (v: Vector2i)
    ensures v.x == c && v.y == c
  {
    Vector2i(c, c)
  }

  /** `new Vector2i(Vector2u)`: each `uint` component reinterpreted as an `int`. */
  function FromVector2u(u: Vec2u.Vector2u): (v: Vector2i)
    ensures v.x == ToInt32(u.x) && v.y == ToInt32(u.y)
  {
    Vector2i(Wrap(u.x), Wrap(u.y))
  }

  /** `new Vector2u(Vector2i)`: each `int` component reinterpreted as a `uint`. */
  function ToVector2u(v: Vector2i): (u: Vec2u.Vector2u)
    ensures u.x == ToUInt32(v.x) && u.y == ToUInt32(v.y)
  {
    Vec2u.Vector2u(WrapU(v.x), WrapU(v.y))
  }

  /** `-a` on one `int`: wraps, so -int.MinValue == int.MinValue. */
  function NegWrap(a: int32): (r: int32)
    ensures (r + a) % Modulus == 0
  {
    Wrap(-(a as int))
  }

  /** Unary `-v`: each component negated with wrap-around. */
  function Neg(v: Vector2i): (r: Vector2i)
    ensures (r.x + v.x) % Modulus == 0 && (r.y + v.y) % Modulus == 0
  {
    Vector2i(NegWrap(v.x), NegWrap(v.y))
  }

  /** `v1 + v2`: component-wise sum modulo 2^32. */
  function Add(v1: Vector2i, v2: Vector2i): (r: Vector2i)
    ensures (r.x - (v1.x + v2.x)) % Modulus == 0 && (r.y - (v1.y + v2.y)) % Modulus == 0
  {
    Vector2i(Wrap(v1.x + v2.x), Wrap(v1.y + v2.y))
  }

  /** `v1 - v2`: component-wise difference modulo 2^32. */
  function Sub(v1: Vector2i, v2: Vector2i): (r: Vector2i)
    ensures (r.x - (v1.x - v2.x)) % Modulus == 0 && (r.y - (v1.y - v2.y)) % Modulus == 0
  {
    Vector2i(Wrap(v1.x - v2.x), Wrap(v1.y - v2.y))
  }

  /** `v1 + xy`: the same `int` added to both components. */
  function AddScalar(v1: Vector2i, xy: int32): (r: Vector2i)
    ensures r == Add(v1, Splat(xy))
  {
    Vector2i(Wrap(v1.x + xy), Wrap(v1.y + xy))
  }

  /** `v1 - xy`: the same `int` subtracted from both components. */
  function SubScalar(v1: Vector2i, xy: int32): (r: Vector2i)
    ensures r == Sub(v1, Splat(xy))
  {
    Vector2i(Wrap(v1.x - xy), Wrap(v1.y - xy))
  }

  /** `v * x` */
  function Mul(v: Vector2i, x: int32): (r: Vector2i)
    ensures (r.x - v.x * x) % Modulus == 0 && (r.y - v.y * x) % Modulus == 0
  {
    Vector2i(Wrap(v.x * x), Wrap(v.y * x))
  }

  /** `x * v`: the same product as `v * x`. */
  function MulLeft(x: int32, v: Vector2i): (r: Vector2i)
    ensures r == Mul(v, x)
  {
    Vector2i(Wrap(v.x * x), Wrap(v.y * x))
  }

  /**
   * `v / x`: each component divided with truncation toward zero. Dividing by 0
   * throws DivideByZeroException, and int.MinValue / -1 throws OverflowException
   * even in an unchecked context.
   */
  function Div(v: Vector2i, x: int32): (r: Result<Vector2i, Exception>)
    ensures r.Failure? <==> (x == 0 || (x == -1 && (v.x == MinValue || v.y == MinValue)))
    ensures r.Failure? ==> r.error == (if x == 0 then DivideByZero else Overflow)
    ensures r.Success? ==> r.value.x == TruncDiv(v.x, x) && r.value.y == TruncDiv(v.y, x)
  {
    if x == 0 then Failure(DivideByZero)
    else if x == -1 && (v.x == MinValue || v.y == MinValue) then Failure(Overflow)
    else
      TruncDivInRange(v.x, x);
      TruncDivInRange(v.y, x);
      Success(Vector2i(TruncDiv(v.x, x), TruncDiv(v.y, x)))
  }

  /** Negating twice gives the original vector, int.MinValue included. */
  lemma NegInvolutive(v: Vector2i)
    ensures Neg(Neg(v)) == v
  {
    NegTwice(v.x);
    NegTwice(v.y);
  }

  lemma NegTwice(a: int32)
    ensures NegWrap(NegWrap(a)) == a
  {
    var n := NegWrap(a);
    assert (-(n as int) - a) % Modulus == 0 by {
      assert -(n as int) - a == -(n + a);
    }
    WrapCongruent(-(n as int), a);
  }

  /** Adding and then subtracting the same vector gives the original, whatever wraps. */
  lemma AddSubCancel(v: Vector2i, w: Vector2i)
    ensures Sub(Add(v, w), w) == v
  {
    var s := Add(v, w);
    WrapCongruent(s.x - w.x, v.x);
    WrapCongruent(s.y - w.y, v.y);
  }

  /** The two reinterpreting conversions are inverse to each other. */
  lemma ConversionRoundTrip(v: Vector2i, u: Vec2u.Vector2u)
    ensures FromVector2u(ToVector2u(v)) == v
    ensures ToVector2u(FromVector2u(u)) == u
  {
    IntUIntRoundTrip(v.x);
    IntUIntRoundTrip(v.y);
    UIntIntRoundTrip(u.x);
    UIntIntRoundTrip(u.y);
  }
}
