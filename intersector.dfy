/**
 * Ray/face and ray/cell intersection (main.go, `rayLine` and `rayBox`),
 * over the reals.
 *
 * The source's determinant formulas solve for the NEGATED textbook
 * parameters: a hit with parameters (lambda, mu) is the point
 * origin - lambda * d of the ray, and the point p1 - mu * (p2 - p1) of the
 * face from p1 to p2. `RayLineSound` and `RayLineComplete` prove this
 * reading, and `BoxHitSound` shows that under it the four faces of a cell
 * are the edges of the unit square [cx - 1, cx] x [cy - 1, cy].
 */
module Intersector {

  /** A ray: its origin (xs, ys) and its direction (xd, yd). */
  datatype Ray = Ray(xs: real, ys: real, xd: real, yd: real)

  /** A wall face: the segment from (xc1, yc1) to (xc2, yc2). */
  datatype Face = Face(xc1: real, yc1: real, xc2: real, yc2: real)

  /** The triple (dist, mu, hit) both functions of the source return. */
  datatype Hit = Hit(dist: real, mu: real, hit: bool)

  /** The `0, 0, false` the source returns for a miss. */
  const Miss: Hit := Hit(0.0, 0.0, false)

  datatype Point = Point(x: real, y: real)

  /** `norm` is the Euclidean length sqrt(xd^2 + yd^2) of the direction. */
  predicate IsNorm(ray: Ray, norm: real) {
    norm > 0.0 && norm * norm == ray.xd * ray.xd + ray.yd * ray.yd
  }

  /** The point at parameter t, walking the ray against its direction. */
  function RayPoint(ray: Ray, t: real): Point {
    Point(ray.xs - t * ray.xd, ray.ys - t * ray.yd)
  }

  /** The point at parameter m of a face, walking away from its second end. */
  function FacePoint(f: Face, m: real): Point {
    Point(f.xc1 - m * (f.xc2 - f.xc1), f.yc1 - m * (f.yc2 - f.yc1))
  }

  function SquaredDistance(p: Point, q: Point): real {
    (p.x - q.x) * (p.x - q.x) + (p.y - q.y) * (p.y - q.y)
  }

  // The four determinants of main.go:124 and main.go:129.

  function LambdaNum(ray: Ray, f: Face): real {
    ray.xs * f.yc1 + f.xc1 * f.yc2 + f.xc2 * ray.ys - ray.xs * f.yc2 - f.xc1 * ray.ys - f.xc2 * f.yc1
  }

  function LambdaDen(ray: Ray, f: Face): real {
    ray.xd * f.yc1 + f.xc2 * ray.yd - ray.xd * f.yc2 - f.xc1 * ray.yd
  }

  function MuNum(ray: Ray, f: Face): real {
    ray.xd * f.yc1 + ray.xs * ray.yd - f.xc1 * ray.yd - ray.xd * ray.ys
  }

  /** The mu denominator is the lambda denominator negated. */
  function MuDen(ray: Ray, f: Face): (d: real)
    ensures d == -LambdaDen(ray, f)
  {
    ray.xd * f.yc2 + f.xc1 * ray.yd - ray.xd * f.yc1 - f.xc2 * ray.yd
  }

  /**
   * `rayLine`. A zero determinant (ray parallel to the face) is a miss here;
   * in the source it yields an infinite or NaN parameter.
   */
  function RayLine(ray: Ray, f: Face, norm: real): (r: Hit)
    requires IsNorm(ray, norm)
    ensures r.hit ==> 0.0 <= r.mu <= 1.0 && r.dist > 0.0
    ensures !r.hit ==> r == Miss
    ensures LambdaDen(ray, f) == 0.0 ==> r == Miss
  {
    var den := LambdaDen(ray, f);
    if den == 0.0 then Miss
    else
      var lambda := LambdaNum(ray, f) / den;
      if lambda <= 0.0 then Miss
      else
        var mu := MuNum(ray, f) / MuDen(ray, f);
        if mu < 0.0 || mu > 1.0 then Miss
        else Hit(lambda / norm, mu, true)
  }

  /**
   * The determinants written relative to the face's first end: with
   * (a, b) = origin - p1 and (ex, ey) = p2 - p1.
   */
  lemma DeterminantForms(ray: Ray, f: Face)
    ensures var a, b := ray.xs - f.xc1, ray.ys - f.yc1;
      var ex, ey := f.xc2 - f.xc1, f.yc2 - f.yc1;
      LambdaNum(ray, f) == b * ex - a * ey &&
      LambdaDen(ray, f) == ray.yd * ex - ray.xd * ey &&
      MuNum(ray, f) == a * ray.yd - b * ray.xd
  {
    var a, b := ray.xs - f.xc1, ray.ys - f.yc1;
    var ex, ey := f.xc2 - f.xc1, f.yc2 - f.yc1;
    assert f.xc1 * f.yc2 - f.xc2 * f.yc1 == f.xc1 * ey - ex * f.yc1;
  }

  /** Cramer's rule for a - lambda d == -mu e, with the source's signs. */
  lemma SolveOffsets(a: real, b: real, ex: real, ey: real, xd: real, yd: real, lambda: real, mu: real)
    requires yd * ex - xd * ey != 0.0
    requires lambda * (yd * ex - xd * ey) == b * ex - a * ey
    requires mu * (yd * ex - xd * ey) == b * xd - a * yd
    ensures a - lambda * xd == -mu * ex && b - lambda * yd == -mu * ey
  {
    var den := yd * ex - xd * ey;
    assert (a - lambda * xd) * den == a * den - (lambda * den) * xd;
    assert (a - lambda * xd) * den == ex * (a * yd - b * xd);
    assert (-mu * ex) * den == -(mu * den) * ex;
    assert (b - lambda * yd) * den == b * den - (lambda * den) * yd;
    assert (b - lambda * yd) * den == ey * (a * yd - b * xd);
    assert (-mu * ey) * den == -(mu * den) * ey;
    CancelFactor(a - lambda * xd, -mu * ex, den);
    CancelFactor(b - lambda * yd, -mu * ey, den);
  }

  lemma CancelFactor(u: real, v: real, c: real)
    requires c != 0.0 && u * c == v * c
    ensures u == v
  {
    assert (u - v) * c == 0.0;
  }

  /** What a hit reports: the two Cramer parameters, lambda scaled by 1 / norm. */
  lemma RayLineParameters(ray: Ray, f: Face, norm: real)
    requires IsNorm(ray, norm) && RayLine(ray, f, norm).hit
    ensures LambdaDen(ray, f) != 0.0
    ensures RayLine(ray, f, norm).dist * norm == LambdaNum(ray, f) / LambdaDen(ray, f)
    ensures RayLine(ray, f, norm).mu == MuNum(ray, f) / MuDen(ray, f)
  {
  }

  /**
   * A hit is a real intersection: at parameter dist * norm > 0 behind the
   * origin, the ray meets the face at parameter mu in [0, 1].
   */
  lemma RayLineSound(ray: Ray, f: Face, norm: real)
    requires IsNorm(ray, norm) && RayLine(ray, f, norm).hit
    ensures var r := RayLine(ray, f, norm);
      r.dist * norm > 0.0 && 0.0 <= r.mu <= 1.0 &&
      RayPoint(ray, r.dist * norm) == FacePoint(f, r.mu)
  {
    var r := RayLine(ray, f, norm);
    RayLineParameters(ray, f, norm);
    CramerSolution(ray, f, r.dist * norm, r.mu);
  }

  /** Cramer's rule with the source's signs: the parameters give one point. */
  lemma CramerSolution(ray: Ray, f: Face, lambda: real, mu: real)
    requires LambdaDen(ray, f) != 0.0
    requires lambda == LambdaNum(ray, f) / LambdaDen(ray, f)
    requires mu == MuNum(ray, f) / MuDen(ray, f)
    ensures RayPoint(ray, lambda) == FacePoint(f, mu)
  {
    var den := LambdaDen(ray, f);
    assert lambda * den == LambdaNum(ray, f);
    assert mu * den == -MuNum(ray, f);
    DeterminantForms(ray, f);
    SolveOffsets(ray.xs - f.xc1, ray.ys - f.yc1, f.xc2 - f.xc1, f.yc2 - f.yc1, ray.xd, ray.yd, lambda, mu);
  }

  /**
   * Every intersection is found: when the ray (walked against its
   * direction, t > 0) meets a non-parallel face at parameter m in [0, 1],
   * `RayLine` reports exactly that hit, at distance t / norm.
   */
  lemma RayLineComplete(ray: Ray, f: Face, norm: real, t: real, m: real)
    requires IsNorm(ray, norm) && LambdaDen(ray, f) != 0.0
    requires t > 0.0 && 0.0 <= m <= 1.0 && RayPoint(ray, t) == FacePoint(f, m)
    ensures RayLine(ray, f, norm) == Hit(t / norm, m, true)
  {
    SolutionParameters(ray, f, t, m);
    RayLineOfParameters(ray, f, norm, t, m);
  }

  /** A common point at parameters t and m makes t and m the Cramer quotients. */
  lemma SolutionParameters(ray: Ray, f: Face, t: real, m: real)
    requires LambdaDen(ray, f) != 0.0 && RayPoint(ray, t) == FacePoint(f, m)
    ensures LambdaNum(ray, f) / LambdaDen(ray, f) == t
    ensures MuNum(ray, f) / MuDen(ray, f) == m
  {
    var ex, ey := f.xc2 - f.xc1, f.yc2 - f.yc1;
    var a, b := ray.xs - f.xc1, ray.ys - f.yc1;
    assert a == t * ray.xd - m * ex;
    assert b == t * ray.yd - m * ey;
    DeterminantForms(ray, f);
    OffsetsOfSolution(a, b, ex, ey, ray.xd, ray.yd, t, m);
    DivideOut(LambdaNum(ray, f), LambdaDen(ray, f), t);
    DivideOut(MuNum(ray, f), MuDen(ray, f), m);
  }

  /** `RayLine` reports a hit at whatever in-range quotients it computes. */
  lemma RayLineOfParameters(ray: Ray, f: Face, norm: real, t: real, m: real)
    requires IsNorm(ray, norm) && LambdaDen(ray, f) != 0.0
    requires LambdaNum(ray, f) / LambdaDen(ray, f) == t && MuNum(ray, f) / MuDen(ray, f) == m
    requires t > 0.0 && 0.0 <= m <= 1.0
    ensures RayLine(ray, f, norm) == Hit(t / norm, m, true)
  {
  }

  /** The converse of `SolveOffsets`: a solution gives the determinants. */
  lemma OffsetsOfSolution(a: real, b: real, ex: real, ey: real, xd: real, yd: real, t: real, m: real)
    requires a == t * xd - m * ex && b == t * yd - m * ey
    ensures b * ex - a * ey == t * (yd * ex - xd * ey)
    ensures a * yd - b * xd == m * -(yd * ex - xd * ey)
  {
    assert b * ex - a * ey == (t * yd - m * ey) * ex - (t * xd - m * ex) * ey;
    assert a * yd - b * xd == (t * xd - m * ex) * yd - (t * yd - m * ey) * xd;
  }

  lemma DivideOut(num: real, den: real, q: real)
    requires den != 0.0 && num == q * den
    ensures num / den == q
  {
  }

  /**
   * The point at parameter t is |t| * |d| away from the origin; with
   * `RayLineSound` (t = dist * norm), `dist` is the Euclidean distance to
   * the hit exactly when the direction has unit length.
   */
  lemma DistanceAlong(ray: Ray, t: real, norm: real)
    requires IsNorm(ray, norm)
    ensures SquaredDistance(Point(ray.xs, ray.ys), RayPoint(ray, t)) == t * t * (norm * norm)
  {
    var p := RayPoint(ray, t);
    assert ray.xs - p.x == t * ray.xd;
    assert ray.ys - p.y == t * ray.yd;
    assert SquaredDistance(Point(ray.xs, ray.ys), p) == t * t * (ray.xd * ray.xd + ray.yd * ray.yd);
  }

  /** The faces `rayBox` tests for cell (cx, cy), in the order it tests them. */
  function Faces(cx: real, cy: real): (fs: seq<Face>)
    ensures |fs| == 4
  {
    [ Face(cx, cy, cx + 1.0, cy),
      Face(cx, cy, cx, cy + 1.0),
      Face(cx, cy - 1.0, cx + 1.0, cy - 1.0),
      Face(cx - 1.0, cy, cx - 1.0, cy + 1.0) ]
  }

  /** p lies on the boundary of the unit square [cx - 1, cx] x [cy - 1, cy]. */
  predicate OnSquareBoundary(p: Point, cx: real, cy: real) {
    cx - 1.0 <= p.x <= cx && cy - 1.0 <= p.y <= cy &&
    (p.x == cx - 1.0 || p.x == cx || p.y == cy - 1.0 || p.y == cy)
  }

  /** Every point of every face lies on the square's boundary. */
  lemma FacesOnSquare(cx: real, cy: real, k: nat, m: real)
    requires k < 4 && 0.0 <= m <= 1.0
    ensures OnSquareBoundary(FacePoint(Faces(cx, cy)[k], m), cx, cy)
  {
  }

  /** Every point of the square's boundary lies on one of the faces. */
  lemma SquareOnFaces(cx: real, cy: real, p: Point)
    requires OnSquareBoundary(p, cx, cy)
    ensures exists k: nat, m: real :: k < 4 && 0.0 <= m <= 1.0 && FacePoint(Faces(cx, cy)[k], m) == p
  {
    var fs := Faces(cx, cy);
    if p.y == cy {
      assert FacePoint(fs[0], cx - p.x) == p;
    } else if p.x == cx {
      assert FacePoint(fs[1], cy - p.y) == p;
    } else if p.y == cy - 1.0 {
      assert FacePoint(fs[2], cx - p.x) == p;
    } else {
      assert FacePoint(fs[3], cy - p.y) == p;
    }
  }

  // Closest-hit selection among a sequence of candidate hits.

  /**
   * Index k holds a hit no farther than any other hit, and strictly nearer
   * than every hit before it.
   */
  predicate NearestAt(hs: seq<Hit>, k: int) {
    0 <= k < |hs| && hs[k].hit &&
    (forall j :: 0 <= j < |hs| && hs[j].hit ==> hs[k].dist <= hs[j].dist) &&
    (forall j :: 0 <= j < k && hs[j].hit ==> hs[k].dist < hs[j].dist)
  }

  /** r is a miss when nothing hits, and otherwise the earliest nearest hit. */
  predicate IsFirstNearest(hs: seq<Hit>, r: Hit) {
    (r.hit <==> exists k :: 0 <= k < |hs| && hs[k].hit) &&
    (!r.hit ==> r == Miss) &&
    (r.hit ==> exists k :: 0 <= k < |hs| && NearestAt(hs, k) && hs[k] == r)
  }

  /** A reference definition of the earliest nearest hit, from the back. */
  function Nearest(hs: seq<Hit>): Hit {
    if hs == [] then Miss
    else
      var rest := Nearest(hs[1..]);
      if hs[0].hit && (!rest.hit || hs[0].dist <= rest.dist) then hs[0] else rest
  }

  lemma {:induction false} NearestIsFirstNearest(hs: seq<Hit>)
    ensures IsFirstNearest(hs, Nearest(hs))
  {
    if hs != [] {
      var tail := hs[1..];
      NearestIsFirstNearest(tail);
      var rest := Nearest(tail);
      forall j | 0 < j < |hs| ensures hs[j] == tail[j - 1] { }
      if hs[0].hit && (!rest.hit || hs[0].dist <= rest.dist) {
        if rest.hit {
          var k :| 0 <= k < |tail| && NearestAt(tail, k) && tail[k] == rest;
        }
        assert NearestAt(hs, 0);
      } else if rest.hit {
        var k :| 0 <= k < |tail| && NearestAt(tail, k) && tail[k] == rest;
        assert NearestAt(hs, k + 1);
      } else {
        assert !hs[0].hit;
        forall j | 0 <= j < |hs| ensures !hs[j].hit {
          if j > 0 { assert tail[j - 1] == hs[j]; }
        }
      }
    }
  }

  /** At most one hit is the earliest nearest one. */
  lemma FirstNearestUnique(hs: seq<Hit>, r1: Hit, r2: Hit)
    requires IsFirstNearest(hs, r1) && IsFirstNearest(hs, r2)
    ensures r1 == r2
  {
    if r1.hit {
      var k1 :| 0 <= k1 < |hs| && NearestAt(hs, k1) && hs[k1] == r1;
      var k2 :| 0 <= k2 < |hs| && NearestAt(hs, k2) && hs[k2] == r2;
      assert k1 == k2;
    }
  }

  /** One more candidate: it replaces the best so far iff it hits strictly nearer. */
  lemma FirstNearestExtend(hs: seq<Hit>, r: Hit, h: Hit)
    requires IsFirstNearest(hs, r)
    ensures IsFirstNearest(hs + [h], if h.hit && (!r.hit || h.dist < r.dist) then h else r)
  {
    var hs' := hs + [h];
    forall j | 0 <= j < |hs| ensures hs'[j] == hs[j] { }
    if h.hit && (!r.hit || h.dist < r.dist) {
      if r.hit {
        var k :| 0 <= k < |hs| && NearestAt(hs, k) && hs[k] == r;
      }
      assert NearestAt(hs', |hs|);
    } else if r.hit {
      var k :| 0 <= k < |hs| && NearestAt(hs, k) && hs[k] == r;
      assert NearestAt(hs', k);
    } else {
      forall j | 0 <= j < |hs'| ensures !hs'[j].hit { }
    }
  }

  /** What each of the four faces of cell (cx, cy) reports, in order. */
  function FaceHits(ray: Ray, cx: real, cy: real, norm: real): (hs: seq<Hit>)
    requires IsNorm(ray, norm)
    ensures |hs| == 4
    ensures forall k :: 0 <= k < 4 ==> hs[k] == RayLine(ray, Faces(cx, cy)[k], norm)
  {
    seq(4, k requires 0 <= k < 4 => RayLine(ray, Faces(cx, cy)[k], norm))
  }

  /** The value `rayBox` returns, as a function. */
  function BoxHit(ray: Ray, cx: real, cy: real, norm: real): Hit
    requires IsNorm(ray, norm)
  {
    Nearest(FaceHits(ray, cx, cy, norm))
  }

  /**
   * `rayBox`: tests the four faces in order and keeps the first hit, then
   * any strictly nearer one.
   */
  method RayBox(ray: Ray, cx: real, cy: real, norm: real) returns (closest: real, closestMu: real, didHit: bool)
    requires IsNorm(ray, norm)
    ensures IsFirstNearest(FaceHits(ray, cx, cy, norm), Hit(closest, closestMu, didHit))
    ensures Hit(closest, closestMu, didHit) == BoxHit(ray, cx, cy, norm)
  {
    var sides := Faces(cx, cy);
    ghost var hs := FaceHits(ray, cx, cy, norm);
    closest, closestMu, didHit := 0.0, 0.0, false;
    for k := 0 to |sides|
      invariant IsFirstNearest(hs[..k], Hit(closest, closestMu, didHit))
    {
      var h := RayLine(ray, sides[k], norm);
      FirstNearestExtend(hs[..k], Hit(closest, closestMu, didHit), h);
      assert hs[..k + 1] == hs[..k] + [h];
      if !h.hit {
        continue;
      }
      if !didHit || h.dist < closest {
        closest := h.dist;
        closestMu := h.mu;
        didHit := true;
      }
    }
    assert hs[..|sides|] == hs;
    NearestIsFirstNearest(hs);
    FirstNearestUnique(hs, Hit(closest, closestMu, didHit), BoxHit(ray, cx, cy, norm));
  }

  /**
   * A hit on face k of a cell lies on the boundary of the cell's square
   * [cx - 1, cx] x [cy - 1, cy].
   */
  lemma FaceHitOnSquare(ray: Ray, cx: real, cy: real, norm: real, k: nat, r: Hit)
    requires IsNorm(ray, norm) && k < 4 && r == RayLine(ray, Faces(cx, cy)[k], norm) && r.hit
    ensures OnSquareBoundary(RayPoint(ray, r.dist * norm), cx, cy)
    ensures RayPoint(ray, r.dist * norm) == FacePoint(Faces(cx, cy)[k], r.mu)
  {
    var f := Faces(cx, cy)[k];
    RayLineSound(ray, f, norm);
    var t := r.dist * norm;
    assert t == RayLine(ray, f, norm).dist * norm;
    assert RayPoint(ray, t) == FacePoint(f, r.mu);
    FacesOnSquare(cx, cy, k, r.mu);
  }

  /** A cell hit is the hit of one of its four faces. */
  lemma BoxHitFace(ray: Ray, cx: real, cy: real, norm: real) returns (k: nat)
    requires IsNorm(ray, norm) && BoxHit(ray, cx, cy, norm).hit
    ensures k < 4 && BoxHit(ray, cx, cy, norm) == RayLine(ray, Faces(cx, cy)[k], norm)
  {
    var hs := FaceHits(ray, cx, cy, norm);
    NearestIsFirstNearest(hs);
    k :| 0 <= k < |hs| && NearestAt(hs, k) && hs[k] == BoxHit(ray, cx, cy, norm);
  }

  /**
   * A cell hit r lies on the boundary of the cell's square: the point
   * r.dist * norm behind the origin is on [cx - 1, cx] x [cy - 1, cy].
   */
  lemma BoxHitSound(ray: Ray, cx: real, cy: real, norm: real, r: Hit)
    requires IsNorm(ray, norm) && r == BoxHit(ray, cx, cy, norm) && r.hit
    ensures OnSquareBoundary(RayPoint(ray, r.dist * norm), cx, cy)
  {
    var k := BoxHitFace(ray, cx, cy, norm);
    FaceHitOnSquare(ray, cx, cy, norm, k, r);
  }

  /**
   * A cell hit is the nearest one: wherever the ray meets a non-parallel
   * face of the cell at t > 0, the cell reports a hit no farther than t / norm.
   */
  lemma BoxHitNearest(ray: Ray, cx: real, cy: real, norm: real, k: nat, t: real, m: real)
    requires IsNorm(ray, norm) && k < 4 && LambdaDen(ray, Faces(cx, cy)[k]) != 0.0
    requires t > 0.0 && 0.0 <= m <= 1.0 && RayPoint(ray, t) == FacePoint(Faces(cx, cy)[k], m)
    ensures BoxHit(ray, cx, cy, norm).hit && BoxHit(ray, cx, cy, norm).dist <= t / norm
  {
    var hs := FaceHits(ray, cx, cy, norm);
    RayLineComplete(ray, Faces(cx, cy)[k], norm, t, m);
    assert hs[k].hit;
    NearestIsFirstNearest(hs);
    var j :| 0 <= j < |hs| && NearestAt(hs, j) && hs[j] == BoxHit(ray, cx, cy, norm);
  }

  /**
   * From (0.5, 0.5) with direction (0, 1) the ray runs towards smaller y:
   * it meets the first face of cell (1, 0), the edge y = 0 of the square
   * [0, 1] x [-1, 0], in its middle, half a unit away.
   */
  lemma RayLineExampleHit()
    ensures Faces(1.0, 0.0)[0] == Face(1.0, 0.0, 2.0, 0.0)
    ensures RayLine(Ray(0.5, 0.5, 0.0, 1.0), Face(1.0, 0.0, 2.0, 0.0), 1.0) == Hit(0.5, 0.5, true)
  {
  }

  /**
   * With direction (0, -1) the same origin does not see the first face of
   * cell (0, -1), the segment from (0, -1) to (1, -1) that lies ahead of it
   * in the textbook reading: the source's lambda there is -1.5.
   */
  lemma RayLineExampleMiss()
    ensures Faces(0.0, -1.0)[0] == Face(0.0, -1.0, 1.0, -1.0)
    ensures LambdaNum(Ray(0.5, 0.5, 0.0, -1.0), Face(0.0, -1.0, 1.0, -1.0))
          / LambdaDen(Ray(0.5, 0.5, 0.0, -1.0), Face(0.0, -1.0, 1.0, -1.0)) == -1.5
    ensures RayLine(Ray(0.5, 0.5, 0.0, -1.0), Face(0.0, -1.0, 1.0, -1.0), 1.0) == Miss
  {
  }

  /**
   * The whole cell (0, -1), the square [-1, 0] x [-2, -1], lies behind the
   * ray from (0.5, 0.5) with direction (0, -1): none of its faces is hit.
   */
  lemma BoxHitExampleMiss()
    ensures !BoxHit(Ray(0.5, 0.5, 0.0, -1.0), 0.0, -1.0, 1.0).hit
  {
    var ray := Ray(0.5, 0.5, 0.0, -1.0);
    var hs := FaceHits(ray, 0.0, -1.0, 1.0);
    ExampleMissFaces();
    assert forall k :: 0 <= k < |hs| ==> !hs[k].hit;
    NearestIsFirstNearest(hs);
  }

  /** Each face of cell (0, -1) misses that ray. */
  lemma ExampleMissFaces()
    ensures forall k :: 0 <= k < 4 ==> !RayLine(Ray(0.5, 0.5, 0.0, -1.0), Faces(0.0, -1.0)[k], 1.0).hit
  {
    var ray := Ray(0.5, 0.5, 0.0, -1.0);
    assert Faces(0.0, -1.0) == [ Face(0.0, -1.0, 1.0, -1.0), Face(0.0, -1.0, 0.0, 0.0),
                                 Face(0.0, -2.0, 1.0, -2.0), Face(-1.0, -1.0, -1.0, 0.0) ];
    assert !RayLine(ray, Face(0.0, -1.0, 1.0, -1.0), 1.0).hit;
    assert !RayLine(ray, Face(0.0, -1.0, 0.0, 0.0), 1.0).hit;
    assert !RayLine(ray, Face(0.0, -2.0, 1.0, -2.0), 1.0).hit;
    assert !RayLine(ray, Face(-1.0, -1.0, -1.0, 0.0), 1.0).hit;
  }

  /**
   * A face collinear with the ray: face 0 of cell (1, 0) lies on the line
   * the ray from (2, 0) with direction (1, 0) runs along, and the model
   * reports a miss for it.
   */
  lemma CollinearExample()
    ensures Faces(1.0, 0.0)[0] == Face(1.0, 0.0, 2.0, 0.0)
    ensures RayLine(Ray(2.0, 0.0, 1.0, 0.0), Face(1.0, 0.0, 2.0, 0.0), 1.0) == Miss
  {
  }

  /** For that face both lambda determinants vanish: the source's lambda is 0 / 0. */
  lemma CollinearExampleLambda()
    ensures LambdaDen(Ray(2.0, 0.0, 1.0, 0.0), Face(1.0, 0.0, 2.0, 0.0)) == 0.0
    ensures LambdaNum(Ray(2.0, 0.0, 1.0, 0.0), Face(1.0, 0.0, 2.0, 0.0)) == 0.0
  {
  }

  /** Both mu determinants vanish too: the source's mu is 0 / 0 as well. */
  lemma CollinearExampleMu()
    ensures MuNum(Ray(2.0, 0.0, 1.0, 0.0), Face(1.0, 0.0, 2.0, 0.0)) == 0.0
    ensures MuDen(Ray(2.0, 0.0, 1.0, 0.0), Face(1.0, 0.0, 2.0, 0.0)) == 0.0
  {
  }
}
