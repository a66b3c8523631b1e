/** A life form (life_form.rb): a circle of some mass moving in the arena,
    with its pending collision effects, its queued recoil and its ejection
    counter. Every method is proved against the value-level functions of
    module Physics. */
module LifeForms {
  import opened Vectors
  import opened MathUtils
  import opened Physics

  /** The colours the game gives forms: the symbols `:none`, `:white`, `:red`,
      `:blue` and RGB triples. */
  datatype Color = NoColor | White | Red | Blue | Rgb(red: real, green: real, blue: real)

  class LifeForm {
    const window: Window
    const prims: Primitives

    var m: real
    var x: Vec
    var p: Vec
    var deltaM: real
    var deltaP: Vec
    var ejection: Vec
    var tick: int

    /** The radius cache `@r` and its dirty flag `@m_changed`. */
    var rCache: nat
    var mChanged: bool

    var fill: Color
    var edge: Color
    var fillChanged: bool
    var edgeChanged: bool

    /** The counter stays in range, and a clean cache holds the radius of the
        current mass. */
    ghost predicate Valid()
      reads this`tick, this`mChanged, this`rCache, this`m
    {
      0 <= tick < EJECT_TICKS && (!mChanged ==> rCache == prims.radius(m))
    }

    function Body(): Body
      reads this`m, this`x, this`p, this`deltaM, this`deltaP, this`ejection, this`tick
    {
      Physics.Body(m, x, p, deltaM, deltaP, ejection, tick)
    }

    function View(): Pose
      reads this`m, this`x, this`p
    {
      Pose(m, x, p)
    }

    /** `initialize`. Making the form's image reads `r`, so the cache is filled. */
    constructor (window: Window, prims: Primitives, mass: real, color: Color, x0: Vec, v: Vec)
      ensures Valid() && !mChanged
      ensures this.window == window && this.prims == prims
      ensures Body() == Newborn(mass, x0, v)
      ensures fill == color && edge == color && fillChanged && edgeChanged
    {
      this.window := window;
      this.prims := prims;
      fill, edge := color, color;
      fillChanged, edgeChanged := true, true;
      m := mass;
      mChanged := true;
      rCache := 0;
      deltaM := 0.0;
      x := x0;
      p := v.Scale(mass);
      deltaP := Zero;
      ejection := Zero;
      tick := 0;
      new;
      var _ := R();
    }

    /** `r`: the radius, recomputed only when the mass changed since the last
        read. */
    method R() returns (r: nat)
      requires Valid()
      modifies this`rCache, this`mChanged
      ensures Valid() && !mChanged
      ensures r == rCache == prims.radius(m)
    {
      if mChanged {
        rCache := prims.radius(m);
        mChanged := false;
      }
      r := rCache;
    }

    method Impulse(i: Vec)
      requires Valid()
      modifies this`deltaP, this`ejection
      ensures Valid()
      ensures Body() == Physics.Impulse(old(Body()), i)
    {
      deltaP := deltaP.Add(i);
      ejection := ejection.Sub(i);
    }

    method Left()
      requires Valid()
      modifies this`deltaP, this`ejection
      ensures Valid()
      ensures Body() == Physics.Impulse(old(Body()), LEFT)
    {
      Impulse(LEFT);
    }

    method Right()
      requires Valid()
      modifies this`deltaP, this`ejection
      ensures Valid()
      ensures Body() == Physics.Impulse(old(Body()), RIGHT)
    {
      Impulse(RIGHT);
    }

    method Up()
      requires Valid()
      modifies this`deltaP, this`ejection
      ensures Valid()
      ensures Body() == Physics.Impulse(old(Body()), UP)
    {
      Impulse(UP);
    }

    method Down()
      requires Valid()
      modifies this`deltaP, this`ejection
      ensures Valid()
      ensures Body() == Physics.Impulse(old(Body()), DOWN)
    {
      Impulse(DOWN);
    }

    /** `mouse_click(at)`: an impulse of `normalize(x - at)` scaled by IMPULSE,
        pointing away from `at`. */
    method MouseClick(at: Vec)
      requires Valid()
      modifies this`deltaP, this`ejection
      ensures Valid()
      ensures Body() == Physics.Impulse(old(Body()), prims.normalize(x.Sub(at)).Scale(IMPULSE))
    {
      Impulse(prims.normalize(x.Sub(at)).Scale(IMPULSE));
    }

    /** `check_collisions(others)`: stage, in this form only, the effect of every
        other form of the list; the form itself is skipped by identity. The
        radii are those the cache would return. */
    method CheckCollisions(others: seq<LifeForm>)
      requires prims.radius(0.0) == 0 && m >= 0.0
      requires forall k :: 0 <= k < |others| ==> others[k].m >= 0.0
      modifies this`deltaM, this`deltaP
      ensures deltaM == old(deltaM) + Staged(prims, old(View()), old(Views(others)), Marks(others, this)).dm
      ensures deltaP == old(deltaP).Add(Staged(prims, old(View()), old(Views(others)), Marks(others, this)).dp)
    {
      ghost var me, qs, marks := View(), Views(others), Marks(others, this);
      assert NonNegative(qs);
      ghost var acc := NoDelta;
      var k := 0;
      while k < |others|
        invariant 0 <= k <= |others| && View() == me
        invariant forall j :: 0 <= j < |others| ==> others[j].View() == qs[j]
        invariant acc == Staged(prims, me, qs[..k], marks[..k])
        invariant deltaM == old(deltaM) + acc.dm && deltaP == old(deltaP).Add(acc.dp)
      {
        StagedStep(prims, me, qs, marks, k);
        acc := StageAgainst(others[k], me, qs[k], old(deltaM), old(deltaP), acc);
        k := k + 1;
      }
      assert qs[..k] == qs && marks[..k] == marks;
    }

    /** One turn of the `check_collisions` loop: against `other`, whose pose
        is `q`, add the pair effect to the running total `acc` unless `other`
        is this form itself. */
    method StageAgainst(other: LifeForm, ghost me: Pose, ghost q: Pose, ghost m0: real, ghost p0: Vec, ghost acc: Delta)
        returns (ghost acc2: Delta)
      requires prims.radius(0.0) == 0 && View() == me && other.View() == q && me.m >= 0.0 && q.m >= 0.0
      requires deltaM == m0 + acc.dm && deltaP == p0.Add(acc.dp)
      modifies this`deltaM, this`deltaP
      ensures acc2 == if other == this then acc else acc.Plus(PairStage(prims, me, q))
      ensures deltaM == m0 + acc2.dm && deltaP == p0.Add(acc2.dp)
    {
      acc2 := acc;
      if other != this {
        var d := PairStage(prims, View(), other.View());
        PlusAdds(m0, p0, acc, d);
        deltaM := deltaM + d.dm;
        deltaP := deltaP.Add(d.dp);
        acc2 := acc.Plus(d);
      }
    }

    /** `update`: grow, move, then eject if the counter is back at 0 and some
        recoil is queued; returns the ejected form or nothing. */
    method Update() returns (spawn: LifeForm?)
      requires Valid()
      modifies this`m, this`x, this`p, this`deltaM, this`deltaP, this`ejection, this`tick, this`rCache, this`mChanged
      ensures Valid()
      ensures Body() == Step(prims, window, old(Body())).0
      ensures spawn == null <==> Step(prims, window, old(Body())).1.None?
      ensures spawn != null ==>
                fresh(spawn) && spawn.Valid() && Some(spawn.Body()) == Step(prims, window, old(Body())).1 &&
                spawn.window == window && spawn.prims == prims &&
                spawn.fill == NoColor && spawn.edge == NoColor
      ensures fill == old(fill) && edge == old(edge)
      ensures fillChanged == old(fillChanged) && edgeChanged == old(edgeChanged)
    {
      var fires := Advance();
      if fires {
        spawn := Eject();
      } else {
        spawn := null;
      }
    }

    /** The part of `update` before the ejection: grow, move, and `eject?`. */
    method Advance() returns (fires: bool)
      requires Valid()
      modifies this`m, this`x, this`p, this`deltaM, this`deltaP, this`tick, this`rCache, this`mChanged
      ensures Valid()
      ensures Body() == Through(prims, window, old(Body()))
      ensures fires == (tick == 0 && prims.norm(ejection) > 0.0)
    {
      Grow();
      ghost var b1 := Body();
      Move();
      assert prims.radius(m) == prims.radius(b1.m);
      fires := ShouldEject();
    }

    method SetColor(c: Color)
      modifies this`fill, this`fillChanged
      ensures fill == c && fillChanged
    {
      fill := c;
      fillChanged := true;
    }

    method SetEdge(c: Color)
      modifies this`edge, this`edgeChanged
      ensures edge == c && edgeChanged
    {
      edge := c;
      edgeChanged := true;
    }

    /** `eject?`: advances the counter, then asks whether it wrapped and some
        recoil is queued. */
    method ShouldEject() returns (fires: bool)
      requires Valid()
      modifies this`tick
      ensures Valid()
      ensures tick == NextTick(old(tick))
      ensures fires == (tick == 0 && prims.norm(ejection) > 0.0)
    {
      var t := Tick();
      fires := t == 0 && prims.norm(ejection) > 0.0;
    }

    method Tick() returns (t: int)
      requires Valid()
      modifies this`tick
      ensures Valid()
      ensures tick == NextTick(old(tick)) && t == tick
    {
      tick := (tick + 1) % EJECT_TICKS;
      t := tick;
    }

    /** `eject`: stage the loss of the ejected mass, build the ejected form, and
        empty the recoil queue. */
    method Eject() returns (lf: LifeForm)
      requires Valid()
      modifies this`deltaM, this`ejection, this`rCache, this`mChanged
      ensures Valid()
      ensures Body() == Recoil(prims, old(Body()))
      ensures fresh(lf) && lf.Valid() && lf.Body() == Ejecta(prims, old(Body()))
      ensures lf.window == window && lf.prims == prims && lf.fill == NoColor && lf.edge == NoColor
    {
      var em := prims.norm(ejection) * m / EJECTION_FRAC;
      var vel := if em != 0.0 then ejection.Div(em) else Zero;
      deltaM := deltaM - em;
      var r := R();
      var at := x.Add(prims.normalize(ejection).Scale((r + prims.radius(em) + 1) as real));
      lf := new LifeForm(window, prims, em, NoColor, at, vel);
      ejection := Zero;
    }

    /** `move`. */
    method Move()
      requires Valid()
      modifies this`x, this`p, this`deltaP, this`rCache, this`mChanged
      ensures Valid()
      ensures Body() == Physics.Move(old(Body()), prims.radius(m), window)
    {
      if m <= TOL {
        return;
      }
      p := p.Add(deltaP);
      x := x.Add(Velocity(View()));
      deltaP := Zero;
      var r := R();
      if x.x - r as real < 0.0 {
        x := x.(x := 2.0 * r as real - x.x);
        p := p.(x := -p.x);
      } else if x.x + r as real > window.width as real {
        x := x.(x := 2.0 * (window.width - r) as real - x.x);
        p := p.(x := -p.x);
      }
      if x.y - r as real < 0.0 {
        x := x.(y := 2.0 * r as real - x.y);
        p := p.(y := -p.y);
      } else if x.y + r as real > window.height as real {
        x := x.(y := 2.0 * (window.height - r) as real - x.y);
        p := p.(y := -p.y);
      }
    }

    /** `grow`. A living form gets a new image of the new size, which reads
        `r` and so refills the cache. */
    method Grow()
      requires Valid()
      modifies this`m, this`deltaM, this`rCache, this`mChanged
      ensures Valid()
      ensures Body() == Physics.Grow(old(Body()))
      ensures old(deltaM) == 0.0 ==> mChanged == old(mChanged) && rCache == old(rCache)
      ensures old(deltaM) != 0.0 ==> (mChanged <==> m <= TOL)
    {
      if deltaM == 0.0 {
        return;
      }
      mChanged := true;
      m := m + deltaM;
      deltaM := 0.0;
      if m <= TOL {
        return;
      }
      var _ := R();
    }
  }

  /** What the collision responses read of each form of a list. */
  function Views(fs: seq<LifeForm>): (qs: seq<Pose>)
    reads fs
    ensures |qs| == |fs|
    ensures forall k :: 0 <= k < |fs| ==> qs[k] == fs[k].View()
  {
    seq(|fs|, k requires 0 <= k < |fs| reads fs => fs[k].View())
  }

  /** Which entries of a list are the form `me` itself. */
  function Marks(fs: seq<LifeForm>, me: LifeForm): (ms: seq<bool>)
    ensures |ms| == |fs|
    ensures forall k :: 0 <= k < |fs| ==> (ms[k] <==> fs[k] == me)
  {
    seq(|fs|, k requires 0 <= k < |fs| => fs[k] == me)
  }
}
