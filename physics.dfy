/** The physics of one life form (life_form.rb) on values: what a form's
    collision response stages against another form, and the three steps of its
    per-tick update (grow, move, maybe eject) as functions from the form's state
    before the step to its state after. The class LifeForm in life_form.dfy
    is proved to follow these functions. */
module Physics {
  import opened Vectors
  import opened MathUtils

  const DENSITY: real := 1.0
  const IMPULSE: real := 40.0
  const EJECTION_FRAC: real := 400.0 * IMPULSE
  const EJECT_TICKS: int := 10
  /** Minimum mass of a living form. */
  const TOL: real := 0.0
  const LEFT: Vec := Vec(-IMPULSE, 0.0)
  const RIGHT: Vec := Vec(IMPULSE, 0.0)
  const UP: Vec := Vec(0.0, -IMPULSE)
  const DOWN: Vec := Vec(0.0, IMPULSE)

  /** The arena: the game window's size in pixels. */
  datatype Window = Window(width: int, height: int)

  /** What a collision response reads of a form: mass, position, momentum. */
  datatype Pose = Pose(m: real, x: Vec, p: Vec)

  /** The whole physical state of a form: mass, position, momentum, the staged
      deltas, the queued reactive ejection and the ejection tick counter. */
  datatype Body = Body(m: real, x: Vec, p: Vec, deltaM: real, deltaP: Vec, ejection: Vec, tick: int) {
    function View(): Pose { Pose(m, x, p) }
  }

  /** A staged change of mass and momentum. */
  datatype Delta = Delta(dm: real, dp: Vec) {
    function Plus(o: Delta): Delta { Delta(dm + o.dm, dp.Add(o.dp)) }
  }

  const NoDelta: Delta := Delta(0.0, Zero)

  /** Adding two deltas one after the other adds their sum. */
  lemma PlusAdds(m0: real, p0: Vec, acc: Delta, d: Delta)
    ensures m0 + acc.dm + d.dm == m0 + acc.Plus(d).dm
    ensures p0.Add(acc.dp).Add(d.dp) == p0.Add(acc.Plus(d).dp)
  {
  }

  function Abs(n: int): nat { if n < 0 then -n else n }

  /** The state `LifeForm.new(window, mass, color, x, v)` gives a form. */
  function Newborn(mass: real, x: Vec, v: Vec): Body
  {
    Body(mass, x, v.Scale(mass), 0.0, Zero, Zero, 0)
  }

  /** `delta_x`: the velocity, momentum over mass. */
  function Velocity(q: Pose): Vec
    requires q.m != 0.0
  {
    q.p.Div(q.m)
  }

  /** The velocity times the mass gives back the momentum. */
  lemma VelocityMomentum(q: Pose)
    requires q.m != 0.0
    ensures Velocity(q).Scale(q.m) == q.p
  {
  }

  /** `impulse(i)`: push the form by `i` and queue the opposite recoil. */
  function Impulse(b: Body, i: Vec): (c: Body)
    ensures c.deltaP == b.deltaP.Add(i)
    ensures c.deltaP.Add(c.ejection) == b.deltaP.Add(b.ejection)
    ensures c == b.(deltaP := c.deltaP, ejection := c.ejection)
  {
    b.(deltaP := b.deltaP.Add(i), ejection := b.ejection.Sub(i))
  }

  /** Whether `other` lies inside `me` or `me` inside `other`. */
  predicate Contained(pr: Primitives, me: Pose, other: Pose)
  {
    pr.distance(me.x, other.x) <= Abs(pr.radius(me.m) - pr.radius(other.m)) as real
  }

  /** Whether the two circles touch at all. */
  predicate Touching(pr: Primitives, me: Pose, other: Pose)
  {
    pr.distance(me.x, other.x) <= (pr.radius(me.m) + pr.radius(other.m)) as real
  }

  /** The lens-shaped overlap of the two circles, as mass. */
  function Overlap(pr: Primitives, me: Pose, other: Pose): real
  {
    DENSITY * pr.lensArea(pr.distance(me.x, other.x), pr.radius(me.m), pr.radius(other.m))
  }

  /** What `check_collisions` stages in the receiver `me` for one other form.
      A form without mass has radius 0 and so never partially overlaps, which
      is why the velocities below are defined. */
  function PairStage(pr: Primitives, me: Pose, other: Pose): (d: Delta)
    requires pr.radius(0.0) == 0 && me.m >= 0.0 && other.m >= 0.0
    ensures me.m == other.m ==> d == NoDelta
    ensures !Touching(pr, me, other) ==> d == NoDelta
    ensures Contained(pr, me, other) && me.m > other.m ==> d == Delta(other.m, other.p)
    ensures Contained(pr, me, other) && me.m < other.m ==> d == Delta(-other.m, me.p.Neg())
  {
    if Contained(pr, me, other) then
      if me.m > other.m then Delta(other.m, other.p)
      else if me.m < other.m then Delta(-other.m, me.p.Neg())
      else NoDelta
    else if Touching(pr, me, other) then
      var overlap := Overlap(pr, me, other);
      if me.m > other.m then Delta(overlap, Velocity(other).Scale(overlap))
      else if me.m < other.m then Delta(-overlap, Velocity(me).Scale(overlap).Neg())
      else NoDelta
    else NoDelta
  }

  predicate NonNegative(qs: seq<Pose>)
  {
    forall k :: 0 <= k < |qs| ==> qs[k].m >= 0.0
  }

  /** The receiver's staged total over the list `others`, taken in order;
      `isMe[k]` says that `others[k]` is the receiver itself and is skipped. */
  function Staged(pr: Primitives, me: Pose, others: seq<Pose>, isMe: seq<bool>): Delta
    requires |isMe| == |others|
    requires pr.radius(0.0) == 0 && me.m >= 0.0 && NonNegative(others)
    decreases |others|
  {
    if |others| == 0 then NoDelta
    else
      var n := |others| - 1;
      var rest := Staged(pr, me, others[..n], isMe[..n]);
      if isMe[n] then rest else rest.Plus(PairStage(pr, me, others[n]))
  }

  /** One more entry of the list adds its pair effect last, unless it is the
      receiver itself. */
  lemma StagedStep(pr: Primitives, me: Pose, others: seq<Pose>, isMe: seq<bool>, k: nat)
    requires |isMe| == |others| && k < |others|
    requires pr.radius(0.0) == 0 && me.m >= 0.0 && NonNegative(others)
    ensures NonNegative(others[..k]) && NonNegative(others[..k + 1])
    ensures Staged(pr, me, others[..k + 1], isMe[..k + 1]) ==
            if isMe[k] then Staged(pr, me, others[..k], isMe[..k])
            else Staged(pr, me, others[..k], isMe[..k]).Plus(PairStage(pr, me, others[k]))
  {
    assert others[..k + 1][..k] == others[..k];
    assert isMe[..k + 1][..k] == isMe[..k];
  }

  lemma StagedSnoc(pr: Primitives, me: Pose, others: seq<Pose>, isMe: seq<bool>, q: Pose, mark: bool)
    requires |isMe| == |others|
    requires pr.radius(0.0) == 0 && me.m >= 0.0 && NonNegative(others) && q.m >= 0.0
    ensures NonNegative(others + [q])
    ensures Staged(pr, me, others + [q], isMe + [mark]) ==
            if mark then Staged(pr, me, others, isMe)
            else Staged(pr, me, others, isMe).Plus(PairStage(pr, me, q))
  {
    assert (others + [q])[..|others|] == others;
    assert (isMe + [mark])[..|isMe|] == isMe;
  }

  /** Containment: the heavier form gains the lighter one's mass and momentum;
      the lighter one loses the heavier one's mass and its own momentum. So
      momentum is conserved, mass is not (the pair loses the difference). */
  lemma ContainedExchange(pr: Primitives, a: Pose, b: Pose)
    requires pr.radius(0.0) == 0 && a.m > b.m >= 0.0
    requires pr.distance(a.x, b.x) == pr.distance(b.x, a.x)
    requires Contained(pr, a, b)
    ensures PairStage(pr, a, b) == Delta(b.m, b.p)
    ensures PairStage(pr, b, a) == Delta(-a.m, b.p.Neg())
    ensures PairStage(pr, a, b).dp.Add(PairStage(pr, b, a).dp) == Zero
    ensures PairStage(pr, a, b).dm + PairStage(pr, b, a).dm == b.m - a.m
  {
    assert Contained(pr, b, a);
  }

  /** Partial overlap: the overlap moves from the lighter form to the heavier
      one, carrying the lighter one's velocity, so the pair's staged mass and
      momentum add up to nothing. */
  lemma PartialExchange(pr: Primitives, a: Pose, b: Pose)
    requires pr.radius(0.0) == 0 && a.m > b.m >= 0.0
    requires pr.distance(a.x, b.x) == pr.distance(b.x, a.x)
    requires pr.lensArea(pr.distance(a.x, b.x), pr.radius(a.m), pr.radius(b.m)) ==
             pr.lensArea(pr.distance(a.x, b.x), pr.radius(b.m), pr.radius(a.m))
    requires Touching(pr, a, b) && !Contained(pr, a, b)
    ensures b.m > 0.0
    ensures PairStage(pr, a, b) == Delta(Overlap(pr, a, b), Velocity(b).Scale(Overlap(pr, a, b)))
    ensures PairStage(pr, b, a) == Delta(-Overlap(pr, a, b), Velocity(b).Scale(Overlap(pr, a, b)).Neg())
    ensures PairStage(pr, a, b).dm + PairStage(pr, b, a).dm == 0.0
    ensures PairStage(pr, a, b).dp.Add(PairStage(pr, b, a).dp) == Zero
  {
  }

  /** A sum of pairs that each stage nothing is nothing. */
  lemma {:induction false} StagedOfInert(pr: Primitives, me: Pose, others: seq<Pose>, isMe: seq<bool>)
    requires |isMe| == |others|
    requires pr.radius(0.0) == 0 && me.m >= 0.0 && NonNegative(others)
    requires forall k :: 0 <= k < |others| && !isMe[k] ==> PairStage(pr, me, others[k]) == NoDelta
    ensures Staged(pr, me, others, isMe) == NoDelta
  {
    if |others| > 0 {
      var n := |others| - 1;
      StagedStep(pr, me, others, isMe, n);
      assert others[..n + 1] == others && isMe[..n + 1] == isMe;
      StagedOfInert(pr, me, others[..n], isMe[..n]);
      InertLast(Staged(pr, me, others[..n], isMe[..n]), isMe[n], PairStage(pr, me, others[n]));
    }
  }

  lemma InertLast(rest: Delta, mark: bool, d: Delta)
    requires rest == NoDelta && (!mark ==> d == NoDelta)
    ensures (if mark then rest else rest.Plus(d)) == NoDelta
  {
  }

  /** Nothing is staged in a form when every other form is out of its reach
      or of equal mass; its own entries are skipped whatever they hold. */
  lemma StagedNothingWhenApart(pr: Primitives, me: Pose, others: seq<Pose>, isMe: seq<bool>)
    requires |isMe| == |others|
    requires pr.radius(0.0) == 0 && me.m >= 0.0 && NonNegative(others)
    requires forall k :: 0 <= k < |others| && !isMe[k] ==>
               !Touching(pr, me, others[k]) || others[k].m == me.m
    ensures Staged(pr, me, others, isMe) == NoDelta
  {
    forall k | 0 <= k < |others| && !isMe[k]
      ensures PairStage(pr, me, others[k]) == NoDelta
    {
    }
    StagedOfInert(pr, me, others, isMe);
  }

  /** `grow`: apply the staged mass change and clear it. */
  function Grow(b: Body): (g: Body)
    ensures g.deltaM == 0.0
    ensures g.m == b.m + b.deltaM
    ensures g == b.(m := g.m, deltaM := 0.0)
  {
    if b.deltaM == 0.0 then b else b.(m := b.m + b.deltaM, deltaM := 0.0)
  }

  /** The elastic bounce along one axis: coordinate `c` with momentum `q`, for a
      form of radius `r` in an arena of extent `hi`. A form pushed past a wall
      is mirrored back across the line its edge touches at the wall, with that
      momentum component reversed. */
  function Reflect(c: real, q: real, r: nat, hi: int): (o: (real, real))
    ensures o.1 == q || o.1 == -q
    ensures c - r as real < 0.0 ==>
              o.0 - r as real == -(c - r as real) && o.1 == -q
    ensures c - r as real >= 0.0 && c + r as real > hi as real ==>
              o.0 - (hi - r) as real == (hi - r) as real - c && o.1 == -q
    ensures c - r as real >= 0.0 && c + r as real <= hi as real ==> o == (c, q)
  {
    if c - r as real < 0.0 then (2.0 * r as real - c, -q)
    else if c + r as real > hi as real then (2.0 * (hi - r) as real - c, -q)
    else (c, q)
  }

  /** A form that fits the arena and overshoots a wall by less than the room
      it has left lands back inside the arena. */
  lemma ReflectLandsInside(c: real, q: real, r: nat, hi: int)
    requires 2 * r <= hi
    requires (3 * r - hi) as real <= c <= (2 * hi - 3 * r) as real
    ensures r as real <= Reflect(c, q, r, hi).0 <= (hi - r) as real
  {
  }

  /** `move`: a dead form stays where it is; otherwise apply the staged
      momentum, advance by the velocity, and bounce off the walls. */
  function Move(b: Body, r: nat, w: Window): Body
  {
    if b.m <= TOL then b
    else
      var p1 := b.p.Add(b.deltaP);
      var x1 := b.x.Add(Velocity(Pose(b.m, b.x, p1)));
      var (cx, qx) := Reflect(x1.x, p1.x, r, w.width);
      var (cy, qy) := Reflect(x1.y, p1.y, r, w.height);
      b.(x := Vec(cx, cy), p := Vec(qx, qy), deltaP := Zero)
  }

  /** What `move` keeps and what it changes. */
  lemma MoveSpec(b: Body, r: nat, w: Window)
    ensures b.m <= TOL ==> Move(b, r, w) == b
    ensures b.m > TOL ==>
              var n := Move(b, r, w);
              n.m == b.m && n.deltaM == b.deltaM && n.deltaP == Zero &&
              n.ejection == b.ejection && n.tick == b.tick
    ensures b.m > TOL ==>
              var n := Move(b, r, w);
              var p1 := b.p.Add(b.deltaP);
              var x1 := b.x.Add(p1.Div(b.m));
              (n.x.x, n.p.x) == Reflect(x1.x, p1.x, r, w.width) &&
              (n.x.y, n.p.y) == Reflect(x1.y, p1.y, r, w.height)
  {
  }

  /** `tick`: the ejection counter, modulo EJECT_TICKS. */
  function NextTick(t: int): (n: int)
    ensures 0 <= n < EJECT_TICKS
    ensures 0 <= t < EJECT_TICKS ==> n == if t == EJECT_TICKS - 1 then 0 else t + 1
  {
    (t + 1) % EJECT_TICKS
  }

  /** The mass a form sheds when it ejects: proportional to the queued recoil. */
  function EjectMass(pr: Primitives, b: Body): real
  {
    pr.norm(b.ejection) * b.m / EJECTION_FRAC
  }

  /** The form `eject` creates: the ejected mass, placed just outside the
      parent in the direction of the recoil, carrying the recoil as momentum.
      (When the parent's mass is exactly 0 the ejected mass is 0 and the
      velocity, a division by zero in the source, is taken as zero.) */
  function Ejecta(pr: Primitives, b: Body): (s: Body)
    ensures s.m == EjectMass(pr, b)
    ensures s.m != 0.0 ==> s.p == b.ejection
    ensures s.deltaM == 0.0 && s.deltaP == Zero && s.ejection == Zero && s.tick == 0
  {
    var em := EjectMass(pr, b);
    var vel := if em != 0.0 then b.ejection.Div(em) else Zero;
    var gap := (pr.radius(b.m) + pr.radius(em) + 1) as real;
    Newborn(em, b.x.Add(pr.normalize(b.ejection).Scale(gap)), vel)
  }

  /** The parent after `eject`: the shed mass is only staged, and the recoil
      queue is emptied. */
  function Recoil(pr: Primitives, b: Body): Body
  {
    b.(deltaM := b.deltaM - EjectMass(pr, b), ejection := Zero)
  }

  /** The first half of `update`: grow, move, then advance the tick counter.
      The radius used by `move` is that of the mass after `grow`. */
  function Through(pr: Primitives, w: Window, b: Body): Body
  {
    var grown := Grow(b);
    var moved := Move(grown, pr.radius(grown.m), w);
    moved.(tick := NextTick(moved.tick))
  }

  /** `update`: grow, move, advance the tick counter, and eject when the
      counter is back at 0 and some recoil is queued. Returns the new state
      and the state of the ejected form, if any. */
  function Step(pr: Primitives, w: Window, b: Body): (Body, Option<Body>)
  {
    var t := Through(pr, w, b);
    if t.tick == 0 && pr.norm(t.ejection) > 0.0 then
      (Recoil(pr, t), Some(Ejecta(pr, t)))
    else
      (t, None)
  }

  /** What `update` promises: the counter advances, the staged mass is
      applied, and a form is ejected exactly when the counter wraps to 0 with
      some recoil queued, which then empties the queue and stages the shed mass
      as a loss. */
  lemma StepSpec(pr: Primitives, w: Window, b: Body)
    ensures var r := Step(pr, w, b); r.0.tick == NextTick(b.tick)
    ensures var r := Step(pr, w, b); r.0.m == b.m + b.deltaM
    ensures var r := Step(pr, w, b); r.1.Some? <==> NextTick(b.tick) == 0 && pr.norm(b.ejection) > 0.0
    ensures var r := Step(pr, w, b);
            r.1.Some? ==>
              r.0.ejection == Zero && r.0.deltaM == -r.1.value.m &&
              r.1.value.tick == 0 && (r.1.value.m != 0.0 ==> r.1.value.p == b.ejection)
    ensures var r := Step(pr, w, b); r.1.None? ==> r.0.ejection == b.ejection && r.0.deltaM == 0.0
    ensures var r := Step(pr, w, b); b.m + b.deltaM <= TOL ==> r.0.x == b.x && r.0.p == b.p && r.0.deltaP == b.deltaP
    ensures var r := Step(pr, w, b); b.m + b.deltaM > TOL ==> r.0.deltaP == Zero
  {
    var g := Grow(b);
    MoveSpec(g, pr.radius(g.m), w);
  }

  /** With lawful primitives, a form ejects exactly when its counter wraps to
      0 and its recoil queue is nonzero. */
  lemma EjectsIff(pr: Primitives, w: Window, b: Body)
    requires Lawful(pr)
    ensures Step(pr, w, b).1.Some? <==> NextTick(b.tick) == 0 && b.ejection != Zero
  {
  }

  /** A form whose counter is still at 0, such as one just ejected, cannot
      eject on its next update. */
  lemma FreshFormDoesNotEject(pr: Primitives, w: Window, b: Body)
    requires b.tick == 0
    ensures Step(pr, w, b).1 == None
  {
  }

  /** A worked ejection: a form of mass 4000 ejecting with a recoil of 40 to
      the right queued sheds a form of mass 10 moving at 4 to the right, and
      is itself 10 lighter after its next `grow`. */
  lemma EjectionOfTen(pr: Primitives, b: Body)
    requires pr.norm(Vec(40.0, 0.0)) == 40.0
    requires b.ejection == Vec(40.0, 0.0) && b.m == 4000.0 && b.deltaM == 0.0
    ensures Ejecta(pr, b).m == 10.0
    ensures Ejecta(pr, b).p == Vec(4.0, 0.0).Scale(10.0)
    ensures Grow(Recoil(pr, b)).m == 3990.0
  {
    assert EjectMass(pr, b) == 10.0;
  }
}
