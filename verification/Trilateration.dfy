/** trilateration of mathutil.py over the reals: the intersection of three
    spheres, given by centres and squared radii. */
module Trilateration {
  import opened Reals
  import opened Bytes

  datatype Vec = Vec(x: real, y: real, z: real)

  function Cross(a: Vec, b: Vec): Vec {
    Vec(Times(a.y, b.z) - Times(a.z, b.y), Times(a.z, b.x) - Times(a.x, b.z), Times(a.x, b.y) - Times(a.y, b.x))
  }
  function Dot(a: Vec, b: Vec): real { Times(a.x, b.x) + Times(a.y, b.y) + Times(a.z, b.z) }
  function MagSq(a: Vec): real { Square(a.x) + Square(a.y) + Square(a.z) }
  function Add(a: Vec, b: Vec): Vec { Vec(a.x + b.x, a.y + b.y, a.z + b.z) }
  function Sub(a: Vec, b: Vec): Vec { Vec(a.x - b.x, a.y - b.y, a.z - b.z) }
  function Mul(a: Vec, s: real): Vec { Vec(Times(a.x, s), Times(a.y, s), Times(a.z, s)) }

  // ---------- Laws of the vector operations ----------

  lemma DotSelf(a: Vec)
    ensures MagSq(a) == Dot(a, a) >= 0.0
  {
    hide Times, Square;
    SquareIsTimes(a.x);
    SquareIsTimes(a.y);
    SquareIsTimes(a.z);
    SquareNonNegative(a.x);
    SquareNonNegative(a.y);
    SquareNonNegative(a.z);
  }

  lemma DotCommutes(a: Vec, b: Vec)
    ensures Dot(a, b) == Dot(b, a)
  {
    hide Times;
    Commutes(a.x, b.x);
    Commutes(a.y, b.y);
    Commutes(a.z, b.z);
  }

  lemma DotAdd(a: Vec, b: Vec, c: Vec)
    ensures Dot(Add(a, b), c) == Dot(a, c) + Dot(b, c)
    ensures Dot(Sub(a, b), c) == Dot(a, c) - Dot(b, c)
  {
    hide Times;
    DistributesSum(c.x, a.x, b.x);
    DistributesSum(c.y, a.y, b.y);
    DistributesSum(c.z, a.z, b.z);
    DistributesDifference(c.x, a.x, b.x);
    DistributesDifference(c.y, a.y, b.y);
    DistributesDifference(c.z, a.z, b.z);
  }

  lemma DotMul(a: Vec, s: real, b: Vec)
    ensures Dot(Mul(a, s), b) == Times(s, Dot(a, b))
  {
    hide Times;
    MulTerm(a.x, s, b.x);
    MulTerm(a.y, s, b.y);
    MulTerm(a.z, s, b.z);
    DistributesSum(s, Times(a.x, b.x) + Times(a.y, b.y), Times(a.z, b.z));
    DistributesSum(s, Times(a.x, b.x), Times(a.y, b.y));
  }

  lemma MulTerm(a: real, s: real, b: real)
    ensures Times(Times(a, s), b) == Times(s, Times(a, b))
  {
    hide Times;
    Commutes(a, s);
    Associates(s, a, b);
  }

  /** |a - b|^2 = |a|^2 - 2 a.b + |b|^2 */
  lemma MagSqSub(a: Vec, b: Vec)
    ensures MagSq(Sub(a, b)) == MagSq(a) - 2.0 * Dot(a, b) + MagSq(b)
  {
    hide Times, Square;
    SquareOfDifference(a.x, b.x);
    SquareOfDifference(a.y, b.y);
    SquareOfDifference(a.z, b.z);
  }

  lemma CrossIsNormal(a: Vec, b: Vec)
    ensures Dot(Cross(a, b), a) == 0.0 && Dot(Cross(a, b), b) == 0.0
  {
    hide Times;
    DistributesDifference(a.x, Times(a.y, b.z), Times(a.z, b.y));
    DistributesDifference(a.y, Times(a.z, b.x), Times(a.x, b.z));
    DistributesDifference(a.z, Times(a.x, b.y), Times(a.y, b.x));
    DistributesDifference(b.x, Times(a.y, b.z), Times(a.z, b.y));
    DistributesDifference(b.y, Times(a.z, b.x), Times(a.x, b.z));
    DistributesDifference(b.z, Times(a.x, b.y), Times(a.y, b.x));
    TripleProducts(a.x, a.y, b.z);
    TripleProducts(a.x, a.z, b.y);
    TripleProducts(a.y, a.z, b.x);
    TripleProducts(b.x, b.y, a.z);
    TripleProducts(b.x, b.z, a.y);
    TripleProducts(b.y, b.z, a.x);
  }

  /** x y z, in every grouping used. */
  lemma TripleProducts(x: real, y: real, z: real)
    ensures Times(Times(y, z), x) == Times(Times(x, z), y) == Times(Times(z, x), y) == Times(Times(z, y), x)
         == Times(Times(x, y), z) == Times(Times(y, x), z)
  {
  }

  lemma TwoByTwo(p: real, q: real, r: real, s: real)
    ensures Times(Times(p, q), Times(r, s)) == Times(Times(p, s), Times(r, q))
  {
    hide Times;
    Associates(Times(p, q), r, s);
    Associates(p, q, r);
    Commutes(q, r);
    Commutes(Times(p, Times(r, q)), s);
    Associates(s, p, Times(r, q));
    Commutes(s, p);
  }

  lemma SquareOfSum(a: real, b: real, c: real)
    ensures Square(a + b + c)
         == Square(a) + Square(b) + Square(c) + 2.0 * Times(a, b) + 2.0 * Times(a, c) + 2.0 * Times(b, c)
  {
    hide Times, Square;
    SquareOfPair(a + b, c);
    SquareOfPair(a, b);
    DistributesSum(c, a, b);
  }

  lemma SquareOfPair(a: real, b: real)
    ensures Square(a + b) == Square(a) + 2.0 * Times(a, b) + Square(b)
  {
  }

  lemma ThreeByThree(a: real, b: real, c: real, x: real, y: real, z: real)
    ensures Times(a + b + c, x + y + z)
         == Times(a, x) + Times(a, y) + Times(a, z) + Times(b, x) + Times(b, y) + Times(b, z)
            + Times(c, x) + Times(c, y) + Times(c, z)
  {
    hide Times;
    DistributesSum(x + y + z, a + b, c);
    DistributesSum(x + y + z, a, b);
    ThreeTerms(a, x, y, z);
    ThreeTerms(b, x, y, z);
    ThreeTerms(c, x, y, z);
  }

  lemma ThreeTerms(a: real, x: real, y: real, z: real)
    ensures Times(a, x + y + z) == Times(a, x) + Times(a, y) + Times(a, z)
  {
    hide Times;
    DistributesSum(a, x + y, z);
    DistributesSum(a, x, y);
  }

  /** |a x b|^2 = |a|^2 |b|^2 - (a.b)^2 */
  lemma Lagrange(a: Vec, b: Vec)
    ensures MagSq(Cross(a, b)) == Times(MagSq(a), MagSq(b)) - Square(Dot(a, b))
  {
    hide Times, Square;
    SquareOfDifference(Times(a.y, b.z), Times(a.z, b.y));
    SquareOfDifference(Times(a.z, b.x), Times(a.x, b.z));
    SquareOfDifference(Times(a.x, b.y), Times(a.y, b.x));
    SquareOfSum(Times(a.x, b.x), Times(a.y, b.y), Times(a.z, b.z));
    TwoByTwo(a.y, b.z, a.z, b.y);
    TwoByTwo(a.z, b.x, a.x, b.z);
    TwoByTwo(a.x, b.y, a.y, b.x);
    Commutes(Times(a.x, b.x), Times(a.z, b.z));
    ThreeByThree(Square(a.x), Square(a.y), Square(a.z), Square(b.x), Square(b.y), Square(b.z));
    NineSquares(a, b);
  }

  lemma NineSquares(a: Vec, b: Vec)
    ensures Square(Times(a.x, b.x)) == Times(Square(a.x), Square(b.x))
    ensures Square(Times(a.x, b.y)) == Times(Square(a.x), Square(b.y))
    ensures Square(Times(a.x, b.z)) == Times(Square(a.x), Square(b.z))
    ensures Square(Times(a.y, b.x)) == Times(Square(a.y), Square(b.x))
    ensures Square(Times(a.y, b.y)) == Times(Square(a.y), Square(b.y))
    ensures Square(Times(a.y, b.z)) == Times(Square(a.y), Square(b.z))
    ensures Square(Times(a.z, b.x)) == Times(Square(a.z), Square(b.x))
    ensures Square(Times(a.z, b.y)) == Times(Square(a.z), Square(b.y))
    ensures Square(Times(a.z, b.z)) == Times(Square(a.z), Square(b.z))
  {
    hide Times, Square;
    SquareOfProduct(a.x, b.x);
    SquareOfProduct(a.x, b.y);
    SquareOfProduct(a.x, b.z);
    SquareOfProduct(a.y, b.x);
    SquareOfProduct(a.y, b.y);
    SquareOfProduct(a.y, b.z);
    SquareOfProduct(a.z, b.x);
    SquareOfProduct(a.z, b.y);
    SquareOfProduct(a.z, b.z);
  }

  /** One component of u x (a x b) = a (u.b) - b (u.a). */
  lemma DoubleCrossComponent(u1: real, u2: real, u3: real, a1: real, a2: real, a3: real, b1: real, b2: real, b3: real)
    ensures Times(u2, Times(a1, b2) - Times(a2, b1)) - Times(u3, Times(a3, b1) - Times(a1, b3))
         == Times(a1, Times(u1, b1) + Times(u2, b2) + Times(u3, b3)) - Times(b1, Times(u1, a1) + Times(u2, a2) + Times(u3, a3))
  {
    hide Times;
    DistributesDifference(u2, Times(a1, b2), Times(a2, b1));
    DistributesDifference(u3, Times(a3, b1), Times(a1, b3));
    ThreeTerms(a1, Times(u1, b1), Times(u2, b2), Times(u3, b3));
    ThreeTerms(b1, Times(u1, a1), Times(u2, a2), Times(u3, a3));
    Rotate(u2, a1, b2);
    Rotate(u3, a1, b3);
    Rotate(u1, b1, a1);
    Rotate(u2, b1, a2);
    Rotate(u3, b1, a3);
    Commutes(a2, b1);
    Commutes(a3, b1);
    Commutes(u1, a1);
    Rotate(a1, b1, u1);
    Commutes(b1, u1);
  }

  /** u (a b) = a (u b) */
  lemma Rotate(u: real, a: real, b: real)
    ensures Times(u, Times(a, b)) == Times(a, Times(u, b))
  {
    hide Times;
    Associates(u, a, b);
    Associates(a, u, b);
    Commutes(u, a);
  }

  lemma NormalToBoth(u: Vec, a: Vec, b: Vec)
    requires Dot(u, a) == 0.0 && Dot(u, b) == 0.0
    ensures Cross(u, Cross(a, b)) == Vec(0.0, 0.0, 0.0)
  {
    hide Times;
    DoubleCrossComponent(u.x, u.y, u.z, a.x, a.y, a.z, b.x, b.y, b.z);
    DoubleCrossComponent(u.y, u.z, u.x, a.y, a.z, a.x, b.y, b.z, b.x);
    DoubleCrossComponent(u.z, u.x, u.y, a.z, a.x, a.y, b.z, b.x, b.y);
    TimesConstants(a.x);
    TimesConstants(a.y);
    TimesConstants(a.z);
    TimesConstants(b.x);
    TimesConstants(b.y);
    TimesConstants(b.z);
  }

  predicate Orthonormal(ex: Vec, ey: Vec) {
    Dot(ex, ex) == 1.0 && Dot(ey, ey) == 1.0 && Dot(ex, ey) == 0.0
  }

  /** Pythagoras in the frame of ex, ey and their cross product. */
  lemma Pythagoras(v: Vec, ex: Vec, ey: Vec)
    requires Orthonormal(ex, ey)
    ensures MagSq(v) == Square(Dot(v, ex)) + Square(Dot(v, ey)) + Square(Dot(v, Cross(ex, ey)))
    ensures MagSq(Cross(ex, ey)) == 1.0
  {
    hide Times, Square, Dot, MagSq, Cross, Add, Sub, Mul;
    var ez := Cross(ex, ey);
    var a, b := Dot(v, ex), Dot(v, ey);
    DotSelf(ex);
    DotSelf(ey);
    Lagrange(ex, ey);
    TimesConstants(1.0);
    CrossIsNormal(ex, ey);
    var w := Sub(v, Mul(ex, a));
    var u := Sub(w, Mul(ey, b));
    Residue(v, ex, a, ex);
    Residue(v, ex, a, ey);
    Residue(v, ex, a, ez);
    Residue(w, ey, b, ex);
    Residue(w, ey, b, ey);
    Residue(w, ey, b, ez);
    DotCommutes(ex, ey);
    DotCommutes(ez, ex);
    DotCommutes(ez, ey);
    TimesConstants(a);
    TimesConstants(b);
    RemainderSize(v, ex);
    RemainderSize(w, ey);
    NormalToBoth(u, ex, ey);
    Lagrange(u, ez);
    ZeroVector();
    TimesConstants(MagSq(u));
  }

  lemma ZeroVector()
    ensures MagSq(Vec(0.0, 0.0, 0.0)) == 0.0
  {
  }

  lemma Residue(v: Vec, e: Vec, a: real, f: Vec)
    ensures Dot(Sub(v, Mul(e, a)), f) == Dot(v, f) - Times(a, Dot(e, f))
  {
    hide Times, Dot, Sub, Mul;
    DotAdd(v, Mul(e, a), f);
    DotMul(e, a, f);
  }

  /** What is left of v beyond its part along the unit vector e. */
  lemma RemainderSize(v: Vec, e: Vec)
    requires Dot(e, e) == 1.0
    ensures MagSq(Sub(v, Mul(e, Dot(v, e)))) == MagSq(v) - Square(Dot(v, e))
  {
    hide Times, Square, Dot, MagSq, Sub, Mul;
    var a := Dot(v, e);
    MagSqSub(v, Mul(e, a));
    DotCommutes(v, Mul(e, a));
    DotMul(e, a, v);
    DotCommutes(e, v);
    DotSelf(Mul(e, a));
    DotMul(e, a, Mul(e, a));
    DotCommutes(e, Mul(e, a));
    DotMul(e, a, e);
    TimesConstants(a);
    SquareIsTimes(a);
  }

  // ---------- The computation ----------

  ghost predicate IsSquareRoot(sqrt: SquareRoot) {
    forall x :: x >= 0.0 ==> sqrt(x) >= 0.0 && Square(sqrt(x)) == x
  }

  datatype Error = DivisionByZero | DomainError

  /** The frame of the three centres: c2 lies at d along ex, c3 at i along ex and j along ey. */
  datatype Frame = Frame(d: real, ex: Vec, i: real, ey: Vec, ez: Vec, j: real)

  /** None when a division by zero stops the computation. */
  function FrameOf(s21: Vec, s31: Vec, sqrt: SquareRoot): Option<Frame> {
    var d := sqrt(MagSq(s21));
    if d == 0.0 then None
    else
      var ex := Mul(s21, 1.0 / d);
      var i := Dot(ex, s31);
      var vectEy := Sub(s31, Mul(ex, i));
      var m := sqrt(MagSq(vectEy));
      if m == 0.0 then None
      else
        var ey := Mul(vectEy, 1.0 / m);
        Some(Frame(d, ex, i, ey, Cross(ex, ey), Dot(ey, s31)))
  }

  /** The coordinates in the frame along ex and ey, given j is not zero. */
  function XOf(f: Frame, r1: real, r2: real): real
    requires f.d != 0.0
  {
    (r1 - r2 + Square(f.d)) / (2.0 * f.d)
  }

  function YOf(f: Frame, x: real, r1: real, r3: real): real
    requires f.j != 0.0
  {
    (r1 - r3 - Square(x) + Square(x - f.i) + Square(f.j)) / (2.0 * f.j)
  }

  function PointAt(f: Frame, c1: Vec, x: real, y: real, z: real): Vec {
    Add(c1, Add(Mul(f.ex, x), Add(Mul(f.ey, y), Mul(f.ez, z))))
  }

  function Trilateration(c1: Vec, c2: Vec, c3: Vec, r1: real, r2: real, r3: real, sqrt: SquareRoot): Result<Vec, Error> {
    match FrameOf(Sub(c2, c1), Sub(c3, c1), sqrt)
    case None => Err(DivisionByZero)
    case Some(f) =>
      if f.d == 0.0 || f.j == 0.0 then Err(DivisionByZero)
      else
        var x := XOf(f, r1, r2);
        var y := YOf(f, x, r1, r3);
        var z2 := r1 - Square(x) - Square(y);
        if z2 < 0.0 then Err(DomainError) else Ok(PointAt(f, c1, x, y, -sqrt(z2)))
  }

  // ---------- The frame ----------

  /** ex and ey are perpendicular unit vectors and the centres lie where the frame says. */
  predicate Fits(f: Frame, s21: Vec, s31: Vec) {
    && Orthonormal(f.ex, f.ey) && f.ez == Cross(f.ex, f.ey)
    && f.d > 0.0 && f.j > 0.0
    && s21 == Mul(f.ex, f.d)
    && s31 == Add(Mul(f.ex, f.i), Mul(f.ey, f.j))
  }

  lemma Normalised(v: Vec, m: real)
    requires m > 0.0 && Square(m) == MagSq(v)
    ensures Dot(Mul(v, 1.0 / m), Mul(v, 1.0 / m)) == 1.0
    ensures Mul(Mul(v, 1.0 / m), m) == v
  {
    hide Times, Square, Dot, MagSq;
    var k := 1.0 / m;
    Quotient(1.0, m);
    DotMul(v, k, Mul(v, k));
    DotCommutes(v, Mul(v, k));
    DotMul(v, k, v);
    DotSelf(v);
    SquareIsTimes(m);
    Associates(k, m, m);
    Associates(k, k, Times(m, m));
    TimesConstants(m);
    TimesConstants(v.x);
    TimesConstants(v.y);
    TimesConstants(v.z);
    Associates(v.x, k, m);
    Associates(v.y, k, m);
    Associates(v.z, k, m);
  }

  lemma RootPositive(sqrt: SquareRoot, v: Vec)
    requires IsSquareRoot(sqrt)
    ensures sqrt(MagSq(v)) >= 0.0 && Square(sqrt(MagSq(v))) == MagSq(v)
    ensures sqrt(MagSq(v)) == 0.0 <==> MagSq(v) == 0.0
  {
    hide Square, MagSq;
    DotSelf(v);
    SquareVanishes(sqrt(MagSq(v)));
  }

  lemma Split(v: Vec, w: Vec)
    ensures v == Add(w, Sub(v, w))
  {
  }

  /** Whenever the frame can be computed it fits, j included. */
  lemma FrameFits(s21: Vec, s31: Vec, sqrt: SquareRoot)
    requires IsSquareRoot(sqrt) && FrameOf(s21, s31, sqrt).Some?
    ensures Fits(FrameOf(s21, s31, sqrt).value, s21, s31)
  {
    hide Times, Square, Dot, MagSq, Cross, Add, Sub, Mul, IsSquareRoot;
    var f := FrameOf(s21, s31, sqrt).value;
    RootPositive(sqrt, s21);
    Normalised(s21, f.d);
    var vectEy := Sub(s31, Mul(f.ex, f.i));
    var m := sqrt(MagSq(vectEy));
    RootPositive(sqrt, vectEy);
    Normalised(vectEy, m);
    Split(s31, Mul(f.ex, f.i));
    Residue(s31, f.ex, f.i, f.ex);
    DotCommutes(s31, f.ex);
    TimesConstants(f.i);
    DotMul(vectEy, 1.0 / m, f.ex);
    TimesConstants(1.0 / m);
    DotCommutes(f.ey, f.ex);
    DotCommutes(f.ey, s31);
    DotAdd(Mul(f.ex, f.i), Mul(f.ey, m), f.ey);
    DotMul(f.ex, f.i, f.ey);
    DotMul(f.ey, m, f.ey);
    TimesConstants(m);
  }

  /** It can be computed exactly when the centres are not on one line. */
  lemma FrameIff(s21: Vec, s31: Vec, sqrt: SquareRoot)
    requires IsSquareRoot(sqrt)
    ensures FrameOf(s21, s31, sqrt).Some? <==> MagSq(Cross(s21, s31)) != 0.0
  {
    hide Times, Square, Dot, MagSq, Cross, Add, Sub, Mul, IsSquareRoot;
    RootPositive(sqrt, s21);
    Lagrange(s21, s31);
    DotSelf(s21);
    if MagSq(s21) == 0.0 {
      NullVector(s21, s31);
    } else {
      var d := sqrt(MagSq(s21));
      var ex := Mul(s21, 1.0 / d);
      var vectEy := Sub(s31, Mul(ex, Dot(ex, s31)));
      Normalised(s21, d);
      RootPositive(sqrt, vectEy);
      RemainderSize(s31, ex);
      DotCommutes(s31, ex);
      DotMul(ex, d, s31);
      SquareOfProduct(d, Dot(ex, s31));
      DistributesDifference(MagSq(s21), MagSq(s31), Square(Dot(ex, s31)));
      Scales(MagSq(s21), MagSq(vectEy));
    }
  }

  lemma Scales(x: real, y: real)
    requires x > 0.0
    ensures Times(x, y) == 0.0 <==> y == 0.0
  {
    hide Times;
    TimesConstants(x);
    if y > 0.0 { TimesPositive(x, y); }
    if y < 0.0 { TimesStrict(y, 0.0, x); TimesConstants(x); Commutes(x, y); }
  }

  lemma NullCoordinates(s: Vec)
    requires MagSq(s) == 0.0
    ensures s == Vec(0.0, 0.0, 0.0)
  {
    hide Square;
    SquareNonNegative(s.x);
    SquareNonNegative(s.y);
    SquareNonNegative(s.z);
    SquareVanishes(s.x);
    SquareVanishes(s.y);
    SquareVanishes(s.z);
  }

  lemma NullVector(s: Vec, t: Vec)
    requires MagSq(s) == 0.0
    ensures Times(MagSq(s), MagSq(t)) == 0.0 && Dot(s, t) == 0.0 && Square(Dot(s, t)) == 0.0
  {
    hide Times, Square, MagSq, Dot;
    NullCoordinates(s);
    NullDot(t);
    TimesConstants(MagSq(t));
  }

  lemma NullDot(t: Vec)
    ensures Dot(Vec(0.0, 0.0, 0.0), t) == 0.0
  {
    hide Times;
    TimesConstants(t.x);
    TimesConstants(t.y);
    TimesConstants(t.z);
  }

  // ---------- Distances in the frame ----------

  /** w is at squared distances r1, r2, r3 from the origin, s21 and s31. */
  predicate AtDistances(w: Vec, s21: Vec, s31: Vec, r1: real, r2: real, r3: real) {
    MagSq(w) == r1 && MagSq(Sub(w, s21)) == r2 && MagSq(Sub(w, s31)) == r3
  }

  lemma DistancesInFrame(f: Frame, s21: Vec, s31: Vec, w: Vec)
    requires Fits(f, s21, s31)
    ensures var a, b := Dot(w, f.ex), Dot(w, f.ey);
            && MagSq(Sub(w, s21)) == MagSq(w) - 2.0 * Times(f.d, a) + Square(f.d)
            && MagSq(Sub(w, s31)) == MagSq(w) - 2.0 * Times(f.i, a) - 2.0 * Times(f.j, b) + Square(f.i) + Square(f.j)
  {
    hide Times, Square, Dot, MagSq, Cross, Add, Sub, Mul;
    MagSqSub(w, s21);
    MagSqSub(w, s31);
    AlongUnit(f.ex, f.d, w);
    var p, q := Mul(f.ex, f.i), Mul(f.ey, f.j);
    AlongUnit(f.ex, f.i, w);
    AlongUnit(f.ey, f.j, w);
    DotCommutes(w, s31);
    DotAdd(p, q, w);
    DotCommutes(p, w);
    DotCommutes(q, w);
    SumSize(p, q);
    DotMul(f.ex, f.i, q);
    DotCommutes(f.ex, q);
    DotMul(f.ey, f.j, f.ex);
    DotCommutes(f.ey, f.ex);
    TimesConstants(f.j);
    TimesConstants(f.i);
  }

  lemma AlongUnit(e: Vec, k: real, w: Vec)
    requires Dot(e, e) == 1.0
    ensures Dot(w, Mul(e, k)) == Times(k, Dot(w, e)) && MagSq(Mul(e, k)) == Square(k)
  {
    hide Times, Square, Dot, MagSq, Mul;
    DotCommutes(w, Mul(e, k));
    DotMul(e, k, w);
    DotCommutes(e, w);
    DotSelf(Mul(e, k));
    DotMul(e, k, Mul(e, k));
    DotCommutes(e, Mul(e, k));
    DotMul(e, k, e);
    TimesConstants(k);
    SquareIsTimes(k);
  }

  lemma SumSize(p: Vec, q: Vec)
    ensures MagSq(Add(p, q)) == MagSq(p) + 2.0 * Dot(p, q) + MagSq(q)
  {
    hide Times, Square;
    SquareOfPair(p.x, q.x);
    SquareOfPair(p.y, q.y);
    SquareOfPair(p.z, q.z);
  }

  lemma HalfQuotient(num: real, k: real, a: real)
    requires k > 0.0
    ensures a == num / (2.0 * k) <==> 2.0 * Times(k, a) == num
  {
    hide Times;
    Quotient(num, 2.0 * k);
    Doubled(k, a);
    Doubled(k, num / (2.0 * k));
    Commutes(2.0 * k, num / (2.0 * k));
    var q := num / (2.0 * k);
    if a < q { TimesStrict(a, q, 2.0 * k); Commutes(2.0 * k, a); }
    if q < a { TimesStrict(q, a, 2.0 * k); Commutes(2.0 * k, a); }
  }

  lemma Doubled(k: real, a: real)
    ensures Times(2.0 * k, a) == 2.0 * Times(k, a)
  {
  }

  /** A point is at the three distances exactly when its coordinates in the
      frame are the ones the code computes, up to the sign of the third. */
  lemma AtDistancesIff(f: Frame, s21: Vec, s31: Vec, r1: real, r2: real, r3: real, w: Vec)
    requires Fits(f, s21, s31)
    ensures var x := XOf(f, r1, r2);
            var y := YOf(f, x, r1, r3);
            AtDistances(w, s21, s31, r1, r2, r3) <==>
              && Dot(w, f.ex) == x && Dot(w, f.ey) == y
              && Square(Dot(w, f.ez)) == r1 - Square(x) - Square(y)
  {
    hide Times, Square, Dot, MagSq, Cross, Add, Sub, Mul;
    var a, b := Dot(w, f.ex), Dot(w, f.ey);
    DistancesInFrame(f, s21, s31, w);
    Pythagoras(w, f.ex, f.ey);
    var x := XOf(f, r1, r2);
    HalfQuotient(r1 - r2 + Square(f.d), f.d, a);
    HalfQuotient(r1 - r3 - Square(x) + Square(x - f.i) + Square(f.j), f.j, b);
    SquareOfDifference(x, f.i);
    Commutes(x, f.i);
  }

  // ---------- Main results ----------

  lemma CoordinatesOfPoint(f: Frame, c1: Vec, x: real, y: real, z: real)
    requires Orthonormal(f.ex, f.ey) && f.ez == Cross(f.ex, f.ey)
    ensures var w := Sub(PointAt(f, c1, x, y, z), c1);
            Dot(w, f.ex) == x && Dot(w, f.ey) == y && Dot(w, f.ez) == z
  {
    var p, q, r := Mul(f.ex, x), Mul(f.ey, y), Mul(f.ez, z);
    var w := Add(p, Add(q, r));
    BackFromOrigin(c1, w);
    hide Times, Square, Dot, MagSq, Cross, Add, Sub, Mul;
    Pythagoras(f.ex, f.ex, f.ey);
    DotSelf(f.ez);
    CrossIsNormal(f.ex, f.ey);
    DotCommutes(f.ez, f.ex);
    DotCommutes(f.ez, f.ey);
    DotCommutes(f.ex, f.ey);
    Combination(f, x, y, z, f.ex);
    Combination(f, x, y, z, f.ey);
    Combination(f, x, y, z, f.ez);
    TimesConstants(x);
    TimesConstants(y);
    TimesConstants(z);
  }

  lemma Combination(f: Frame, x: real, y: real, z: real, e: Vec)
    ensures Dot(Add(Mul(f.ex, x), Add(Mul(f.ey, y), Mul(f.ez, z))), e)
         == Times(x, Dot(f.ex, e)) + Times(y, Dot(f.ey, e)) + Times(z, Dot(f.ez, e))
  {
    hide Times, Dot, Add, Mul;
    var p, q, r := Mul(f.ex, x), Mul(f.ey, y), Mul(f.ez, z);
    DotAdd(p, Add(q, r), e);
    DotAdd(q, r, e);
    DotMul(f.ex, x, e);
    DotMul(f.ey, y, e);
    DotMul(f.ez, z, e);
  }

  lemma BackFromOrigin(c: Vec, w: Vec)
    ensures Sub(Add(c, w), c) == w
  {
  }

  predicate OnSpheres(q: Vec, c1: Vec, c2: Vec, c3: Vec, r1: real, r2: real, r3: real) {
    MagSq(Sub(q, c1)) == r1 && MagSq(Sub(q, c2)) == r2 && MagSq(Sub(q, c3)) == r3
  }

  lemma OnSpheresFromFirst(q: Vec, c1: Vec, c2: Vec, c3: Vec, r1: real, r2: real, r3: real)
    ensures OnSpheres(q, c1, c2, c3, r1, r2, r3)
       <==> AtDistances(Sub(q, c1), Sub(c2, c1), Sub(c3, c1), r1, r2, r3)
  {
    hide MagSq;
    assert Sub(Sub(q, c1), Sub(c2, c1)) == Sub(q, c2);
    assert Sub(Sub(q, c1), Sub(c3, c1)) == Sub(q, c3);
  }

  /** The computation divides by zero exactly when the centres lie on one line,
      and otherwise fails exactly when the spheres have no point in common. */
  lemma TrilaterationDefinedIff(c1: Vec, c2: Vec, c3: Vec, r1: real, r2: real, r3: real, sqrt: SquareRoot)
    requires IsSquareRoot(sqrt)
    ensures var result := Trilateration(c1, c2, c3, r1, r2, r3, sqrt);
            && (result == Err(DivisionByZero) <==> MagSq(Cross(Sub(c2, c1), Sub(c3, c1))) == 0.0)
            && (result == Err(DomainError) ==> !exists q :: OnSpheres(q, c1, c2, c3, r1, r2, r3))
            && (result.Ok? ==> OnSpheres(result.value, c1, c2, c3, r1, r2, r3))
  {
    hide Times, Square, Dot, MagSq, Cross, Sub, PointAt, FrameOf, OnSpheres, XOf, YOf;
    var s21, s31 := Sub(c2, c1), Sub(c3, c1);
    FrameIff(s21, s31, sqrt);
    if FrameOf(s21, s31, sqrt).Some? {
      var f := FrameOf(s21, s31, sqrt).value;
      FrameFits(s21, s31, sqrt);
      var x := XOf(f, r1, r2);
      var y := YOf(f, x, r1, r3);
      var z2 := r1 - Square(x) - Square(y);
      if z2 < 0.0 {
        forall q ensures !OnSpheres(q, c1, c2, c3, r1, r2, r3) {
          OnSpheresFromFirst(q, c1, c2, c3, r1, r2, r3);
          AtDistancesIff(f, s21, s31, r1, r2, r3, Sub(q, c1));
          SquareNonNegative(Dot(Sub(q, c1), f.ez));
        }
      } else {
        var q := PointAt(f, c1, x, y, -sqrt(z2));
        CoordinatesOfPoint(f, c1, x, y, -sqrt(z2));
        SquareOfMinus(sqrt(z2));
        AtDistancesIff(f, s21, s31, r1, r2, r3, Sub(q, c1));
        OnSpheresFromFirst(q, c1, c2, c3, r1, r2, r3);
      }
    }
  }

  lemma SquareOfMinus(x: real)
    ensures Square(-x) == Square(x)
  {
  }

  /** Of the at most two points common to the spheres the result is the one not
      above the plane of the centres, as ex x ey points; any other common
      point is its mirror image. */
  lemma TrilaterationChooses(c1: Vec, c2: Vec, c3: Vec, r1: real, r2: real, r3: real, sqrt: SquareRoot, q: Vec)
    requires IsSquareRoot(sqrt)
    requires Trilateration(c1, c2, c3, r1, r2, r3, sqrt).Ok? && OnSpheres(q, c1, c2, c3, r1, r2, r3)
    ensures var p := Trilateration(c1, c2, c3, r1, r2, r3, sqrt).value;
            var f := FrameOf(Sub(c2, c1), Sub(c3, c1), sqrt).value;
            && Dot(Sub(p, c1), f.ez) <= 0.0
            && Dot(Sub(q, c1), f.ex) == Dot(Sub(p, c1), f.ex) && Dot(Sub(q, c1), f.ey) == Dot(Sub(p, c1), f.ey)
            && (Dot(Sub(q, c1), f.ez) == Dot(Sub(p, c1), f.ez) || Dot(Sub(q, c1), f.ez) == -Dot(Sub(p, c1), f.ez))
  {
    hide Times, Square, Dot, MagSq, Cross, Sub, PointAt, FrameOf, OnSpheres, XOf, YOf;
    var s21, s31 := Sub(c2, c1), Sub(c3, c1);
    var f := FrameOf(s21, s31, sqrt).value;
    FrameFits(s21, s31, sqrt);
    var x := XOf(f, r1, r2);
    var y := YOf(f, x, r1, r3);
    var z := sqrt(r1 - Square(x) - Square(y));
    CoordinatesOfPoint(f, c1, x, y, -z);
    OnSpheresFromFirst(q, c1, c2, c3, r1, r2, r3);
    AtDistancesIff(f, s21, s31, r1, r2, r3, Sub(q, c1));
    SameSquare(Dot(Sub(q, c1), f.ez), z);
  }

  lemma SameSquare(a: real, b: real)
    requires Square(a) == Square(b)
    ensures a == b || a == -b
  {
    SquareFactors(a, b);
    if a != b && a != -b { NonZeroProduct(a - b, a + b); }
  }

  lemma SquareFactors(a: real, b: real)
    ensures Times(a - b, a + b) == Square(a) - Square(b)
  {
  }

  lemma NonZeroProduct(a: real, b: real)
    requires a != 0.0 && b != 0.0
    ensures Times(a, b) != 0.0
  {
    hide Times;
    SignedProduct(a, b);
    TimesPositive(if a > 0.0 then a else -a, if b > 0.0 then b else -b);
  }

  lemma SignedProduct(a: real, b: real)
    ensures Times(-a, -b) == Times(a, b) && Times(-a, b) == -Times(a, b) && Times(a, -b) == -Times(a, b)
  {
  }
}
