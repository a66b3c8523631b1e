/** Two-dimensional vectors (the GSL `Vector[x, y]` values of the game) and the
    irrational primitives the simulation calls into: the rounded square root
    behind a form's radius, the circle–circle lens area, the distance between
    two centres, and the Euclidean norm and normalisation of a vector.

    The model uses exact reals. The primitives need a square root or an arc
    cosine, so they are not computed here: they are parameters of the model,
    bundled in `Primitives`, and only the few laws in `Lawful` are assumed of
    them where a proof needs one. */
module Vectors {

  datatype Vec = Vec(x: real, y: real) {

    function Add(o: Vec): Vec { Vec(x + o.x, y + o.y) }

    function Sub(o: Vec): Vec { Vec(x - o.x, y - o.y) }

    function Neg(): Vec { Vec(-x, -y) }

    function Scale(k: real): Vec { Vec(x * k, y * k) }

    function Div(k: real): Vec
      requires k != 0.0
    {
      Vec(x / k, y / k)
    }
  }

  const Zero: Vec := Vec(0.0, 0.0)

  /** The functions the source takes from Ruby's Math, GSL and Gosu.
      - radius:    `Math.sqrt(m / (DENSITY * Math::PI)).round`, a whole number
      - lensArea:  `Geometry.circle_intersection(d, r1, r2)`
      - distance:  `Gosu.distance` between two centres
      - norm:      `Vector#norm`
      - normalize: `Vector#normalize` */
  datatype Primitives = Primitives(
    radius: real -> nat,
    lensArea: (real, nat, nat) -> real,
    distance: (Vec, Vec) -> real,
    norm: Vec -> real,
    normalize: Vec -> Vec)

  /** The laws of the primitives that the proofs rely on: a form without mass
      has radius 0, a norm is positive exactly for a nonzero vector, and
      distance and lens area are symmetric in the two circles. */
  ghost predicate Lawful(pr: Primitives)
  {
    pr.radius(0.0) == 0 &&
    (forall v: Vec :: pr.norm(v) >= 0.0 && (pr.norm(v) == 0.0 <==> v == Zero)) &&
    (forall a: Vec, b: Vec :: pr.distance(a, b) == pr.distance(b, a)) &&
    (forall d: real, r1: nat, r2: nat :: pr.lensArea(d, r1, r2) == pr.lensArea(d, r2, r1))
  }
}
