/** The universe (universe.rb): the ordered collection of life forms that owns
    the player, its three-step update, and the win, death and hopelessness
    predicates; plus the randomly populated `AmbientUniverse`. */
module Universes {
  import opened Vectors
  import opened MathUtils
  import opened Physics
  import opened LifeForms

  const MARGIN: int := 10
  const MAX_SIZE: int := 4000
  const MAX_VEL: Vec := Vec(0.5, 0.5)

  predicate Distinct<T(==)>(s: seq<T>)
  {
    forall i, j :: 0 <= i < j < |s| ==> s[i] != s[j]
  }

  function Min(a: int, b: int): int { if a <= b then a else b }

  function AddReal(a: real, b: real): real { a + b }

  function AddVec(a: Vec, b: Vec): Vec { a.Add(b) }

  function Masses(fs: seq<LifeForm>): (ms: seq<real>)
    reads fs
    ensures |ms| == |fs| && forall k :: 0 <= k < |fs| ==> ms[k] == fs[k].m
  {
    seq(|fs|, k requires 0 <= k < |fs| reads fs => fs[k].m)
  }

  function Momenta(fs: seq<LifeForm>): (ps: seq<Vec>)
    reads fs
    ensures |ps| == |fs| && forall k :: 0 <= k < |fs| ==> ps[k] == fs[k].p
  {
    seq(|fs|, k requires 0 <= k < |fs| reads fs => fs[k].p)
  }

  function Bodies(fs: seq<LifeForm>): (bs: seq<Body>)
    reads fs
    ensures |bs| == |fs| && forall k :: 0 <= k < |fs| ==> bs[k] == fs[k].Body()
  {
    seq(|fs|, k requires 0 <= k < |fs| reads fs => fs[k].Body())
  }

  function PosesOf(bs: seq<Body>): (qs: seq<Pose>)
    ensures |qs| == |bs| && forall k :: 0 <= k < |bs| ==> qs[k] == bs[k].View()
  {
    seq(|bs|, k requires 0 <= k < |bs| => bs[k].View())
  }

  /** Marks position `k`, and only it, of a list of `n`. */
  function IndexMask(n: nat, k: nat): (ms: seq<bool>)
    ensures |ms| == n && forall j :: 0 <= j < n ==> (ms[j] <==> j == k)
  {
    seq(n, j => j == k)
  }

  /** The forms of a list that are still alive (mass above TOL), in order. */
  function Survivors(fs: seq<LifeForm>): (ss: seq<LifeForm>)
    reads fs
    ensures |ss| <= |fs|
  {
    if |fs| == 0 then []
    else
      var n := |fs| - 1;
      if fs[n].m > TOL then Survivors(fs[..n]) + [fs[n]] else Survivors(fs[..n])
  }

  /** The survivors are exactly the live forms of the list: each of them is a
      live entry, every live entry is one of them, they are distinct when the
      list is, and a live first entry stays first. */
  lemma SurvivorsSpec(fs: seq<LifeForm>)
    ensures forall k :: 0 <= k < |Survivors(fs)| ==> Survivors(fs)[k] in fs && Survivors(fs)[k].m > TOL
    ensures forall k :: 0 <= k < |fs| && fs[k].m > TOL ==> fs[k] in Survivors(fs)
    ensures Distinct(fs) ==> Distinct(Survivors(fs))
    ensures |fs| > 0 && fs[0].m > TOL ==> |Survivors(fs)| > 0 && Survivors(fs)[0] == fs[0]
  {
    SurvivorsLive(fs);
    SurvivorsComplete(fs);
    SurvivorsDistinct(fs);
    SurvivorsHead(fs);
  }

  lemma {:induction false} SurvivorsLive(fs: seq<LifeForm>)
    ensures forall k :: 0 <= k < |Survivors(fs)| ==> Survivors(fs)[k] in fs && Survivors(fs)[k].m > TOL
  {
    if |fs| > 0 {
      var n := |fs| - 1;
      SurvivorsLive(fs[..n]);
      assert forall f :: f in fs[..n] ==> f in fs;
    }
  }

  lemma {:induction false} SurvivorsComplete(fs: seq<LifeForm>)
    ensures forall k :: 0 <= k < |fs| && fs[k].m > TOL ==> fs[k] in Survivors(fs)
  {
    if |fs| > 0 {
      var n := |fs| - 1;
      SurvivorsComplete(fs[..n]);
      assert forall k :: 0 <= k < n ==> fs[..n][k] == fs[k];
    }
  }

  lemma {:induction false} SurvivorsDistinct(fs: seq<LifeForm>)
    ensures Distinct(fs) ==> Distinct(Survivors(fs))
  {
    if |fs| > 0 && Distinct(fs) {
      var n := |fs| - 1;
      var pre := fs[..n];
      SurvivorsDistinct(pre);
      SurvivorsLive(pre);
      if fs[n].m > TOL {
        assert fs[n] !in pre;
        SurvivorsSnoc(Survivors(pre), fs[n], pre);
      }
    }
  }

  /** Appending an entry that the earlier survivors do not hold. */
  lemma SurvivorsSnoc(s: seq<LifeForm>, f: LifeForm, pre: seq<LifeForm>)
    requires forall k :: 0 <= k < |s| ==> s[k] in pre
    requires Distinct(s) && f !in pre
    ensures Distinct(s + [f])
  {
  }

  lemma {:induction false} SurvivorsHead(fs: seq<LifeForm>)
    ensures |fs| > 0 && fs[0].m > TOL ==> |Survivors(fs)| > 0 && Survivors(fs)[0] == fs[0]
  {
    if |fs| > 1 {
      var n := |fs| - 1;
      SurvivorsHead(fs[..n]);
    }
  }

  /** What the update pass reads and writes of one form. */
  datatype Look = Look(body: Body, fill: Color, edge: Color, valid: bool)

  ghost function LookOf(f: LifeForm): Look
    reads f
  {
    Look(f.Body(), f.fill, f.edge, f.Valid())
  }

  ghost function Looks(fs: seq<LifeForm>): (ls: seq<Look>)
    reads fs
    ensures |ls| == |fs| && forall k :: 0 <= k < |fs| ==> ls[k] == LookOf(fs[k])
  {
    seq(|fs|, k requires 0 <= k < |fs| reads fs => LookOf(fs[k]))
  }

  function LookMasses(ls: seq<Look>): (ms: seq<real>)
    ensures |ms| == |ls| && forall k :: 0 <= k < |ls| ==> ms[k] == ls[k].body.m
  {
    seq(|ls|, k requires 0 <= k < |ls| => ls[k].body.m)
  }

  /** One visit of the `reject!` block, on values: the form's `update`, then,
      unless it is the player or the player (of mass `pm` by then) is dead,
      the colours for its new mass. The form stays well formed. */
  function Visited(pr: Primitives, w: Window, l: Look, isPlayer: bool, pm: real): Look
  {
    var nb := Step(pr, w, l.body).0;
    if isPlayer || pm <= TOL then Look(nb, l.fill, l.edge, true)
    else Look(nb, MassToFill(nb.m, pm), MassToEdge(nb.m, pm), true)
  }

  /** The player's mass during the pass: that of the first entry when the
      player is a member, else the unchanged `pm0`. */
  function PlayerMass(pin: bool, pm0: real, snap: seq<Look>): real
    requires pin ==> |snap| > 0
  {
    if pin then snap[0].body.m else pm0
  }

  /** The forms of `fs` whose mass in `ms` is above TOL, in order. */
  function Keep(fs: seq<LifeForm>, ms: seq<real>): seq<LifeForm>
    requires |fs| == |ms|
  {
    if |fs| == 0 then []
    else
      var n := |fs| - 1;
      Keep(fs[..n], ms[..n]) + (if ms[n] > TOL then [fs[n]] else [])
  }

  /** Keeping entry `i` too extends what was kept of the first `i`, when
      the entries before `i` are unchanged. */
  lemma KeepStep(q: seq<LifeForm>, q2: seq<LifeForm>, ms: seq<real>, ms2: seq<real>, i: nat)
    requires i < |q| <= |q2| && i <= |ms| && i < |ms2|
    requires forall k :: 0 <= k < |q| ==> q2[k] == q[k]
    requires forall k :: 0 <= k < i ==> ms2[k] == ms[k]
    ensures Keep(q2[..i + 1], ms2[..i + 1]) == Keep(q[..i], ms[..i]) + (if ms2[i] > TOL then [q[i]] else [])
  {
    assert q2[..i + 1][..i] == q[..i];
    assert ms2[..i + 1][..i] == ms[..i];
  }

  /** The bodies and masses of a list, read through its states. */
  lemma ReadBack(fs: seq<LifeForm>, ls: seq<Look>)
    requires |fs| == |ls| && forall k :: 0 <= k < |fs| ==> LookOf(fs[k]) == ls[k]
    ensures Bodies(fs) == LookBodies(ls) && Masses(fs) == LookMasses(ls)
  {
  }

  function LookBodies(ls: seq<Look>): (bs: seq<Body>)
    ensures |bs| == |ls| && forall k :: 0 <= k < |ls| ==> bs[k] == ls[k].body
  {
    seq(|ls|, k requires 0 <= k < |ls| => ls[k].body)
  }

  lemma {:induction false} SurvivorsKeep(fs: seq<LifeForm>)
    ensures Survivors(fs) == Keep(fs, Masses(fs))
  {
    if |fs| > 0 {
      var n := |fs| - 1;
      SurvivorsKeep(fs[..n]);
      assert Masses(fs)[..n] == Masses(fs[..n]);
    }
  }

  /** The bodies after the collision pass: every form has staged, on top of
      its own deltas, its response to the whole list, skipping itself. */
  function AfterCollisions(pr: Primitives, bs: seq<Body>): (cs: seq<Body>)
    requires pr.radius(0.0) == 0
    requires forall k :: 0 <= k < |bs| ==> bs[k].m >= 0.0
    ensures |cs| == |bs|
    ensures forall k {:trigger Collided(pr, bs, k)} :: 0 <= k < |bs| ==> cs[k] == Collided(pr, bs, k)
  {
    CollidedUpTo(pr, bs, |bs|)
  }

  function CollidedUpTo(pr: Primitives, bs: seq<Body>, n: nat): (cs: seq<Body>)
    requires pr.radius(0.0) == 0 && n <= |bs|
    requires forall k :: 0 <= k < |bs| ==> bs[k].m >= 0.0
    ensures |cs| == n
    ensures forall k {:trigger Collided(pr, bs, k)} :: 0 <= k < n ==> cs[k] == Collided(pr, bs, k)
  {
    if n == 0 then [] else CollidedUpTo(pr, bs, n - 1) + [Collided(pr, bs, n - 1)]
  }

  function Collided(pr: Primitives, bs: seq<Body>, k: nat): Body
    requires pr.radius(0.0) == 0 && k < |bs|
    requires forall j :: 0 <= j < |bs| ==> bs[j].m >= 0.0
  {
    var s := Staged(pr, bs[k].View(), PosesOf(bs), IndexMask(|bs|, k));
    bs[k].(deltaM := bs[k].deltaM + s.dm, deltaP := bs[k].deltaP.Add(s.dp))
  }

  /** A form alone in its universe stages nothing in the collision pass. */
  lemma LoneFormStagesNothing(pr: Primitives, b: Body)
    requires pr.radius(0.0) == 0 && b.m >= 0.0
    ensures AfterCollisions(pr, [b]) == [b]
  {
    StagedSnoc(pr, b.View(), [], [], b.View(), true);
    assert PosesOf([b]) == [] + [b.View()];
    assert IndexMask(1, 0) == [] + [true];
    var c := Collided(pr, [b], 0);
    assert c == b;
    var cs := AfterCollisions(pr, [b]);
    assert cs[0] == c;
  }

  /** Each visited form's update, in order: the bodies after one `update`. */
  function Steps(pr: Primitives, w: Window, bs: seq<Body>): (ns: seq<Body>)
    ensures |ns| == |bs|
  {
    if |bs| == 0 then [] else Steps(pr, w, bs[..|bs| - 1]) + [Step(pr, w, bs[|bs| - 1]).0]
  }

  /** Entry `k` of Steps is the update of entry `k`. */
  lemma {:induction false} StepsEach(pr: Primitives, w: Window, bs: seq<Body>)
    ensures forall k :: 0 <= k < |bs| ==> Steps(pr, w, bs)[k] == Step(pr, w, bs[k]).0
  {
    if |bs| > 0 {
      var n := |bs| - 1;
      StepsEach(pr, w, bs[..n]);
      assert forall k :: 0 <= k < n ==> bs[..n][k] == bs[k];
    }
  }

  /** The forms the updates of `bs` eject, in order. Each starts with its
      counter at 0. */
  function SpawnsOf(pr: Primitives, w: Window, bs: seq<Body>): (ss: seq<Body>)
    ensures |ss| <= |bs|
    ensures forall k :: 0 <= k < |ss| ==> ss[k].tick == 0
  {
    if |bs| == 0 then []
    else
      var n := |bs| - 1;
      SpawnsOf(pr, w, bs[..n]) + (match Step(pr, w, bs[n]).1 case None => [] case Some(s) => [s])
  }

  /** Every state the update pass visits: the members, then the forms they
      eject, which are visited in the same pass. */
  function Births(pr: Primitives, w: Window, bs: seq<Body>): (vs: seq<Body>)
    ensures |bs| <= |vs| <= 2 * |bs| && vs[..|bs|] == bs
  {
    bs + SpawnsOf(pr, w, bs)
  }

  /** A form ejected during the pass ejects nothing itself when visited, so
      the growing list is finite. */
  lemma SpawnsDoNotSpawn(pr: Primitives, w: Window, bs: seq<Body>)
    ensures SpawnsOf(pr, w, SpawnsOf(pr, w, bs)) == []
  {
    var ss := SpawnsOf(pr, w, bs);
    forall k | 0 <= k < |ss|
      ensures Step(pr, w, ss[k]).1 == None
    {
      FreshFormDoesNotEject(pr, w, ss[k]);
    }
    NoneSpawn(pr, w, ss);
  }

  lemma {:induction false} NoneSpawn(pr: Primitives, w: Window, bs: seq<Body>)
    requires forall k :: 0 <= k < |bs| ==> Step(pr, w, bs[k]).1 == None
    ensures SpawnsOf(pr, w, bs) == []
  {
    if |bs| > 0 {
      NoneSpawn(pr, w, bs[..|bs| - 1]);
    }
  }

  /** `mass_to_fill`: the shade of a form of mass `m` seen by a player of mass
      `pm`; its red part is m/pm − 0.5 clamped to [0, 1], its blue part the
      rest, and it has no green. */
  function MassToFill(m: real, pm: real): (c: Color)
    requires pm != 0.0
    ensures c.Rgb? && c.green == 0.0 && 0.0 <= c.red <= 1.0 && c.blue == 1.0 - c.red
    ensures m / pm <= 0.5 ==> c.red == 0.0
    ensures m / pm >= 1.5 ==> c.red == 1.0
    ensures 0.5 <= m / pm <= 1.5 ==> c.red == m / pm - 0.5
  {
    var percent := m / pm;
    var low := if percent - 0.5 <= 1.0 then percent - 0.5 else 1.0;
    var red := if 0.0 >= low then 0.0 else low;
    Rgb(red, 0.0, 1.0 - red)
  }

  /** `mass_to_edge`: red around a heavier form, blue otherwise. */
  function MassToEdge(m: real, pm: real): (c: Color)
    ensures c == Red <==> m > pm
    ensures c == Blue <==> m <= pm
  {
    if m > pm then Red else Blue
  }

  /** For a live player a heavier form is at least as red. */
  lemma FillMonotone(m1: real, m2: real, pm: real)
    requires pm > 0.0 && m1 <= m2
    ensures MassToFill(m1, pm).red <= MassToFill(m2, pm).red
  {
    assert m1 / pm <= m2 / pm by {
      assert m2 / pm - m1 / pm == (m2 - m1) / pm;
    }
  }

  /** A blue-edged form is at most half red, so a more-than-half-red form has
      a red edge. */
  lemma BlueEdgeAtMostHalfRed(m: real, pm: real)
    requires pm > 0.0 && MassToEdge(m, pm) == Blue
    ensures MassToFill(m, pm).red <= 0.5
  {
    assert m / pm <= pm / pm;
  }

  /** The form a visit of a form in state `b` ejects, as the list of what
      joins the end of the visited list: nothing, or a new uncoloured form. */
  function Ejected(pr: Primitives, w: Window, b: Body): (es: seq<Look>)
    ensures |es| <= 1
    ensures |es| == 1 <==> Step(pr, w, b).1.Some?
    ensures |es| == 1 ==> es[0] == Look(Step(pr, w, b).1.value, NoColor, NoColor, true)
  {
    match Step(pr, w, b).1
    case None => []
    case Some(s) => [Look(s, NoColor, NoColor, true)]
  }

  /** What a visit appends, read through `update`: one form exactly when the
      counter wraps with some recoil queued; it is uncoloured, starts its
      counter at 0, carries the mass the parent stages as lost, and is the
      ejected form `SpawnsOf` collects for that state. */
  lemma EjectedSpec(pr: Primitives, w: Window, b: Body)
    ensures |Ejected(pr, w, b)| == 1 <==> NextTick(b.tick) == 0 && pr.norm(b.ejection) > 0.0
    ensures forall l :: l in Ejected(pr, w, b) ==>
              l.fill == NoColor && l.edge == NoColor && l.body.tick == 0 &&
              Step(pr, w, b).0.deltaM == -l.body.m
    ensures LookBodies(Ejected(pr, w, b)) == SpawnsOf(pr, w, [b])
  {
    StepSpec(pr, w, b);
    assert [b][..0] == [];
  }

  /** Visit `i` of the `reject!` pass, on values: entry `i` takes its update
      and colours (the player is the first entry when `pin`, and `pm0` is its
      mass when it is not a member), and what it ejects joins the end. */
  function VisitEntry(pr: Primitives, w: Window, pin: bool, pm0: real, ls: seq<Look>, i: nat): (r: seq<Look>)
    requires i < |ls|
    ensures |r| == |ls| + |Ejected(pr, w, ls[i].body)|
    ensures forall k :: 0 <= k < |ls| && k != i ==> r[k] == ls[k]
    ensures forall k :: |ls| <= k < |r| ==> r[k] == Ejected(pr, w, ls[i].body)[k - |ls|]
  {
    ls[i := Visited(pr, w, ls[i], pin && i == 0, PlayerMass(pin, pm0, ls))] + Ejected(pr, w, ls[i].body)
  }

  /** The entries at or past both `i` and `n0` (forms ejected during the pass
      and not yet visited) have their counter at 0. */
  predicate Settled(n0: nat, i: nat, ls: seq<Look>)
  {
    forall k :: n0 <= k < |ls| && i <= k ==> ls[k].body.tick == 0
  }

  /** The `reject!` pass on values, from visit `i` on, over a list whose first
      `n0` entries are the members: visits every entry in order, including
      the forms the visits append, until it reaches the end. It ends because
      a form ejected in the pass ejects nothing on its own visit. */
  function Run(pr: Primitives, w: Window, n0: nat, pin: bool, pm0: real, ls: seq<Look>, i: nat): (r: seq<Look>)
    requires i <= |ls| && Settled(n0, i, ls)
    ensures |ls| <= |r|
    decreases 2 * (if i < n0 then n0 - i else 0) + (|ls| - i), 1
  {
    if i == |ls| then ls else RunOn(pr, w, n0, pin, pm0, ls, i)
  }

  /** The pass from visit `i` on, when there is an entry `i`: visit it, then
      go on from the next. */
  function RunOn(pr: Primitives, w: Window, n0: nat, pin: bool, pm0: real, ls: seq<Look>, i: nat): (r: seq<Look>)
    requires i < |ls| && Settled(n0, i, ls)
    ensures |ls| <= |r|
    decreases 2 * (if i < n0 then n0 - i else 0) + (|ls| - i), 0
  {
    Run(pr, w, n0, pin, pm0, VisitEntry(pr, w, pin, pm0, ls, i), i + 1)
  }

  /** A visit moves the value-level pass on by one entry and keeps the
      list settled and well formed; where the pass ends does not change. */
  lemma RunStep(pr: Primitives, w: Window, n0: nat, pin: bool, pm0: real, ls: seq<Look>, i: nat)
    requires i < |ls| && Settled(n0, i, ls)
    requires forall k :: 0 <= k < |ls| ==> ls[k].valid
    ensures var r := VisitEntry(pr, w, pin, pm0, ls, i);
            Settled(n0, i + 1, r) && (forall k :: 0 <= k < |r| ==> r[k].valid) &&
            Run(pr, w, n0, pin, pm0, r, i + 1) == Run(pr, w, n0, pin, pm0, ls, i)
  {
  }

  /** The states the visited list has had before the visits, once the first
      `i` visits are done: the members' states `ob`, then the states of the
      forms the visited members ejected. */
  function BornOf(pr: Primitives, w: Window, ob: seq<Body>, i: nat): seq<Body>
  {
    ob + SpawnsOf(pr, w, ob[..Min(i, |ob|)])
  }

  /** The states after the first `i` visits of the pass over the members in
      states `look0`: each visited entry has taken its update from its state
      in BornOf, the others are in that state, and the members not yet
      visited are untouched; every entry is well formed. */
  predicate BodyShape(pr: Primitives, w: Window, look0: seq<Look>, i: nat, ls: seq<Look>)
  {
    var n0 := |look0|;
    var born := BornOf(pr, w, LookBodies(look0), i);
    n0 <= |ls| == |born| && i <= |ls| &&
    (forall k :: 0 <= k < |ls| ==> ls[k].valid) &&
    LookBodies(ls)[..i] == Steps(pr, w, born[..i]) &&
    (forall k :: i <= k < |ls| ==> ls[k].body == born[k]) &&
    (forall k :: i <= k < n0 ==> ls[k] == look0[k])
  }

  /** The colours after the first `i` visits: the player (the first entry
      when `pin`) keeps its colours; with a live player every other visited
      entry has the colours of its mass, and with a dead one the visited
      members keep theirs. A player that is not a member is dead. */
  predicate ColourShape(look0: seq<Look>, pin: bool, pm0: real, i: nat, ls: seq<Look>)
  {
    var n0 := |look0|;
    n0 <= |ls| && i <= |ls| && (pin ==> n0 > 0) && (!pin ==> pm0 <= TOL) &&
    (pin ==> ls[0].fill == look0[0].fill && ls[0].edge == look0[0].edge) &&
    var pm := PlayerMass(pin, pm0, ls);
    (pm > TOL ==>
       forall k :: 0 <= k < i && !(pin && k == 0) ==>
         ls[k].fill == MassToFill(ls[k].body.m, pm) && ls[k].edge == MassToEdge(ls[k].body.m, pm)) &&
    (pm <= TOL ==>
       forall k :: 0 <= k < Min(i, n0) ==> ls[k].fill == look0[k].fill && ls[k].edge == look0[k].edge)
  }

  /** A form ejected during the pass ejects nothing when visited. */
  lemma SettledByShape(pr: Primitives, w: Window, look0: seq<Look>, i: nat, ls: seq<Look>)
    requires BodyShape(pr, w, look0, i, ls)
    ensures Settled(|look0|, i, ls)
  {
    var born := BornOf(pr, w, LookBodies(look0), i);
    forall k | |look0| <= k < |ls| && i <= k
      ensures ls[k].body.tick == 0
    {
      assert ls[k].body == born[k] == SpawnsOf(pr, w, LookBodies(look0)[..Min(i, |look0|)])[k - |look0|];
    }
  }

  /** A visit keeps the body shape. */
  lemma BodyStep(pr: Primitives, w: Window, pin: bool, pm0: real, look0: seq<Look>, i: nat, ls: seq<Look>)
    requires BodyShape(pr, w, look0, i, ls) && i < |ls|
    ensures BodyShape(pr, w, look0, i + 1, VisitEntry(pr, w, pin, pm0, ls, i))
  {
    if i < |look0| {
      MemberBodyStep(pr, w, pin, pm0, look0, i, ls);
    } else {
      SpawnBodyStep(pr, w, pin, pm0, look0, i, ls);
    }
  }

  /** Updating one more entry extends Steps by that entry's update. */
  lemma StepsSnoc(pr: Primitives, w: Window, bs: seq<Body>, i: nat)
    requires i < |bs|
    ensures Steps(pr, w, bs[..i + 1]) == Steps(pr, w, bs[..i]) + [Step(pr, w, bs[i]).0]
  {
    assert bs[..i + 1][..i] == bs[..i];
  }

  /** A visit updates its own entry and leaves the entries before it. */
  lemma VisitedPrefix(pr: Primitives, w: Window, pin: bool, pm0: real, ls: seq<Look>, i: nat)
    requires i < |ls|
    ensures LookBodies(VisitEntry(pr, w, pin, pm0, ls, i))[..i + 1] ==
            LookBodies(ls)[..i] + [Step(pr, w, ls[i].body).0]
  {
  }

  /** The visit of a member appends what it ejects to the states born. */
  lemma MemberBodyStep(pr: Primitives, w: Window, pin: bool, pm0: real, look0: seq<Look>, i: nat, ls: seq<Look>)
    requires BodyShape(pr, w, look0, i, ls) && i < |ls| && i < |look0|
    ensures BodyShape(pr, w, look0, i + 1, VisitEntry(pr, w, pin, pm0, ls, i))
  {
    var ob := LookBodies(look0);
    var born := BornOf(pr, w, ob, i);
    assert ob[..i + 1][..i] == ob[..i];
    assert BornOf(pr, w, ob, i + 1) == born + LookBodies(Ejected(pr, w, ls[i].body));
    assert BornOf(pr, w, ob, i + 1)[..i + 1] == born[..i + 1];
    StepsSnoc(pr, w, born, i);
    VisitedPrefix(pr, w, pin, pm0, ls, i);
  }

  /** The visit of an ejected form ejects nothing, so the states born stay. */
  lemma SpawnBodyStep(pr: Primitives, w: Window, pin: bool, pm0: real, look0: seq<Look>, i: nat, ls: seq<Look>)
    requires BodyShape(pr, w, look0, i, ls) && i < |ls| && |look0| <= i
    ensures BodyShape(pr, w, look0, i + 1, VisitEntry(pr, w, pin, pm0, ls, i))
  {
    var ob := LookBodies(look0);
    var n0 := |look0|;
    assert ls[i].body == SpawnsOf(pr, w, ob[..n0])[i - n0];
    FreshFormDoesNotEject(pr, w, ls[i].body);
    assert Min(i + 1, n0) == Min(i, n0);
    assert BornOf(pr, w, ob, i + 1) == BornOf(pr, w, ob, i);
    StepsSnoc(pr, w, BornOf(pr, w, ob, i), i);
    VisitedPrefix(pr, w, pin, pm0, ls, i);
  }

  lemma ColourStep(pr: Primitives, w: Window, pin: bool, pm0: real, look0: seq<Look>, i: nat, ls: seq<Look>)
    requires ColourShape(look0, pin, pm0, i, ls) && i < |ls|
    requires i < |look0| ==> ls[i] == look0[i]
    ensures ColourShape(look0, pin, pm0, i + 1, VisitEntry(pr, w, pin, pm0, ls, i))
  {
    var r := VisitEntry(pr, w, pin, pm0, ls, i);
    assert !(pin && i == 0) ==> PlayerMass(pin, pm0, r) == PlayerMass(pin, pm0, ls);
  }

  /** The body shape holds after every visit, so once the pass is over. */
  lemma {:induction false} RunBodyShaped(pr: Primitives, w: Window, pin: bool, pm0: real, look0: seq<Look>, i: nat, ls: seq<Look>)
    requires BodyShape(pr, w, look0, i, ls)
    ensures Settled(|look0|, i, ls)
    ensures var r := Run(pr, w, |look0|, pin, pm0, ls, i); BodyShape(pr, w, look0, |r|, r)
    decreases 2 * (if i < |look0| then |look0| - i else 0) + (|ls| - i)
  {
    SettledByShape(pr, w, look0, i, ls);
    if i < |ls| {
      if |look0| <= i {
        FreshFormDoesNotEject(pr, w, ls[i].body);
      }
      RunStep(pr, w, |look0|, pin, pm0, ls, i);
      BodyStep(pr, w, pin, pm0, look0, i, ls);
      RunBodyShaped(pr, w, pin, pm0, look0, i + 1, VisitEntry(pr, w, pin, pm0, ls, i));
    }
  }

  /** The colour shape holds after every visit, so once the pass is over. */
  lemma {:induction false} RunColourShaped(pr: Primitives, w: Window, pin: bool, pm0: real, look0: seq<Look>, i: nat, ls: seq<Look>)
    requires ColourShape(look0, pin, pm0, i, ls)
    requires Settled(|look0|, i, ls) && forall k :: 0 <= k < |ls| ==> ls[k].valid
    requires forall k :: i <= k < |look0| ==> ls[k] == look0[k]
    ensures var r := Run(pr, w, |look0|, pin, pm0, ls, i); ColourShape(look0, pin, pm0, |r|, r)
    decreases 2 * (if i < |look0| then |look0| - i else 0) + (|ls| - i)
  {
    if i < |ls| {
      if |look0| <= i {
        FreshFormDoesNotEject(pr, w, ls[i].body);
      }
      RunStep(pr, w, |look0|, pin, pm0, ls, i);
      ColourStep(pr, w, pin, pm0, look0, i, ls);
      RunColourShaped(pr, w, pin, pm0, look0, i + 1, VisitEntry(pr, w, pin, pm0, ls, i));
    }
  }

  /** What the `reject!` pass does to the members in states `look0`, on
      values: it visits exactly the members and then the forms they eject,
      each taking one update from its state (Births, then Steps), and every
      form ends well formed. */
  lemma RunOfMembers(pr: Primitives, w: Window, pin: bool, pm0: real, look0: seq<Look>)
    requires forall k :: 0 <= k < |look0| ==> look0[k].valid
    ensures Settled(|look0|, 0, look0)
    ensures var r := Run(pr, w, |look0|, pin, pm0, look0, 0);
            LookBodies(r) == Steps(pr, w, Births(pr, w, LookBodies(look0))) &&
            forall k :: 0 <= k < |r| ==> r[k].valid
  {
    var ob := LookBodies(look0);
    assert ob[..0] == [];
    RunBodyShaped(pr, w, pin, pm0, look0, 0, look0);
    var r := Run(pr, w, |look0|, pin, pm0, look0, 0);
    var born := BornOf(pr, w, ob, |r|);
    assert Min(|r|, |look0|) == |look0| && ob[..|look0|] == ob;
    assert LookBodies(r)[..|r|] == LookBodies(r) && born[..|r|] == born;
  }

  /** The colours the `reject!` pass leaves, on values: the player keeps its
      colours; with the player alive at the end every other form has the
      colours of its new mass relative to the player's new mass, and with the
      player dead the members keep theirs. */
  lemma RunColours(pr: Primitives, w: Window, pin: bool, pm0: real, look0: seq<Look>)
    requires forall k :: 0 <= k < |look0| ==> look0[k].valid
    requires pin ==> |look0| > 0
    requires !pin ==> pm0 <= TOL
    ensures Settled(|look0|, 0, look0)
    ensures var r := Run(pr, w, |look0|, pin, pm0, look0, 0);
            var pm := PlayerMass(pin, pm0, r);
            (pin ==> r[0].fill == look0[0].fill && r[0].edge == look0[0].edge) &&
            (pm > TOL ==>
               forall k :: 0 <= k < |r| && !(pin && k == 0) ==>
                 r[k].fill == MassToFill(r[k].body.m, pm) && r[k].edge == MassToEdge(r[k].body.m, pm)) &&
            (pm <= TOL ==>
               forall k :: 0 <= k < |look0| ==> r[k].fill == look0[k].fill && r[k].edge == look0[k].edge)
  {
    RunColourShaped(pr, w, pin, pm0, look0, 0, look0);
    var r := Run(pr, w, |look0|, pin, pm0, look0, 0);
    assert Min(|r|, |look0|) == |look0|;
  }

  /** The masses strictly below `pm`, in order. */
  function Below(ms: seq<real>, pm: real): (bs: seq<real>)
    ensures |bs| <= |ms|
  {
    if |ms| == 0 then []
    else
      var n := |ms| - 1;
      Below(ms[..n], pm) + (if ms[n] < pm then [ms[n]] else [])
  }

  /** Below keeps exactly the masses under `pm`. */
  lemma {:induction false} BelowSpec(ms: seq<real>, pm: real)
    ensures forall v :: v in Below(ms, pm) <==> v in ms && v < pm
  {
    if |ms| > 0 {
      var n := |ms| - 1;
      BelowSpec(ms[..n], pm);
      assert ms == ms[..n] + [ms[n]];
    }
  }

  /** With no negative masses, what a player can absorb is no less than
      nothing and no more than the whole. */
  lemma {:induction false} AbsorbableBounds(ms: seq<real>, pm: real)
    requires forall k :: 0 <= k < |ms| ==> ms[k] >= 0.0
    ensures 0.0 <= Total(0.0, Below(ms, pm), AddReal) <= Total(0.0, ms, AddReal)
  {
    if |ms| > 0 {
      var n := |ms| - 1;
      AbsorbableBounds(ms[..n], pm);
      var rest := Below(ms[..n], pm);
      if ms[n] < pm {
        assert Below(ms, pm) == rest + [ms[n]];
        assert (rest + [ms[n]])[..|rest|] == rest;
      } else {
        assert Below(ms, pm) == rest;
      }
    }
  }

  /** `next_largest`'s scan as written: the accumulator starts at 0 and only
      takes a mass above `pm` and below its current value. */
  function LargerScan(ms: seq<real>, pm: real): (r: real)
    ensures r == 0.0 || (pm < r < 0.0 && r in ms)
    ensures forall k :: 0 <= k < |ms| && pm < ms[k] < 0.0 ==> r <= ms[k]
  {
    if |ms| == 0 then 0.0
    else
      var n := |ms| - 1;
      var l := LargerScan(ms[..n], pm);
      assert forall k :: 0 <= k < n ==> ms[..n][k] == ms[k];
      if ms[n] > pm && ms[n] < l then ms[n] else l
  }

  /** So for a player of nonnegative mass the scan never finds anything. */
  lemma LargerScanOfLivePlayer(ms: seq<real>, pm: real)
    requires pm >= 0.0
    ensures LargerScan(ms, pm) == 0.0
  {
  }

  /** `player_hopeless?` on the player's mass, the member masses and the
      recorded minimum. */
  function Hopeless(minM: Option<real>, ms: seq<real>, pm: real): bool
  {
    minM == Some(pm) || pm + Total(0.0, Below(ms, pm), AddReal) < LargerScan(ms, pm)
  }

  /** With no negative masses, a player is hopeless exactly when it is the
      smallest form: the second disjunct can never hold. */
  lemma HopelessIffSmallest(minM: Option<real>, ms: seq<real>, pm: real)
    requires pm >= 0.0
    requires forall k :: 0 <= k < |ms| ==> ms[k] >= 0.0
    ensures Hopeless(minM, ms, pm) <==> minM == Some(pm)
  {
    AbsorbableBounds(ms, pm);
  }

  /** The smallest of some masses, nil for none (`sort.first`). */
  function MinOf(ms: seq<real>): (r: Option<real>)
    ensures r.None? <==> |ms| == 0
  {
    if |ms| == 0 then None
    else
      match MinOf(ms[..|ms| - 1])
      case None => Some(ms[|ms| - 1])
      case Some(v) => if v <= ms[|ms| - 1] then Some(v) else Some(ms[|ms| - 1])
  }

  /** The largest of some masses, nil for none (`sort.last`). */
  function MaxOf(ms: seq<real>): (r: Option<real>)
    ensures r.None? <==> |ms| == 0
  {
    if |ms| == 0 then None
    else
      match MaxOf(ms[..|ms| - 1])
      case None => Some(ms[|ms| - 1])
      case Some(v) => if v >= ms[|ms| - 1] then Some(v) else Some(ms[|ms| - 1])
  }

  /** MinOf is one of the masses, and no mass is smaller. */
  lemma {:induction false} MinOfIsLeast(ms: seq<real>)
    ensures MinOf(ms).Some? ==> MinOf(ms).value in ms && forall k :: 0 <= k < |ms| ==> MinOf(ms).value <= ms[k]
  {
    if |ms| > 0 {
      var n := |ms| - 1;
      MinOfIsLeast(ms[..n]);
      assert forall k :: 0 <= k < n ==> ms[..n][k] == ms[k];
      assert ms == ms[..n] + [ms[n]];
    }
  }

  /** MaxOf is one of the masses, and no mass is larger. */
  lemma {:induction false} MaxOfIsGreatest(ms: seq<real>)
    ensures MaxOf(ms).Some? ==> MaxOf(ms).value in ms && forall k :: 0 <= k < |ms| ==> ms[k] <= MaxOf(ms).value
  {
    if |ms| > 0 {
      var n := |ms| - 1;
      MaxOfIsGreatest(ms[..n]);
      assert forall k :: 0 <= k < n ==> ms[..n][k] == ms[k];
      assert ms == ms[..n] + [ms[n]];
    }
  }

  /** Against a maximum recorded from the masses, `player_won?` holds exactly
      when some form has the player's mass and none is heavier. */
  lemma WonIffHeaviest(ms: seq<real>, pm: real)
    ensures MaxOf(ms) == Some(pm) <==>
            (exists k :: 0 <= k < |ms| && ms[k] == pm) && forall k :: 0 <= k < |ms| ==> ms[k] <= pm
  {
    MaxOfIsGreatest(ms);
    if MaxOf(ms) == Some(pm) {
      var k :| 0 <= k < |ms| && ms[k] == pm;
    }
  }

  /** Against a minimum recorded from the masses, `player_smallest?` holds
      exactly when some form has the player's mass and none is lighter. */
  lemma SmallestIffLightest(ms: seq<real>, pm: real)
    ensures MinOf(ms) == Some(pm) <==>
            (exists k :: 0 <= k < |ms| && ms[k] == pm) && forall k :: 0 <= k < |ms| ==> pm <= ms[k]
  {
    MinOfIsLeast(ms);
    if MinOf(ms) == Some(pm) {
      var k :| 0 <= k < |ms| && ms[k] == pm;
    }
  }

  /** The random numbers one `random_lifeform` call draws, in the order it
      draws them: the position, the two velocity factors, the mass. */
  datatype Draw = Draw(ix: int, iy: int, ux: real, uy: real, mass: int)

  /** What `rand` can return for each draw in a window of size `w`. */
  predicate Drawable(w: Window, d: Draw)
  {
    0 <= d.ix < w.width - 2 * MARGIN && 0 <= d.iy < w.height - 2 * MARGIN &&
    0.0 <= d.ux < 1.0 && 0.0 <= d.uy < 1.0 && 0 <= d.mass < MAX_SIZE
  }

  /** The velocity `random_lifeform` gives. */
  function RandomVelocity(d: Draw): Vec
  {
    Vec(2.0 * MAX_VEL.x * d.ux - MAX_VEL.x, 2.0 * MAX_VEL.y * d.uy - MAX_VEL.y)
  }

  /** The state of a form made by `random_lifeform`: whole mass below
      MAX_SIZE, centre at least MARGIN inside the window, each velocity
      component in [−0.5, 0.5). */
  function RandomBirth(w: Window, d: Draw): (b: Body)
    ensures b == Newborn(d.mass as real, Vec((d.ix + MARGIN) as real, (d.iy + MARGIN) as real), RandomVelocity(d))
    ensures Drawable(w, d) ==>
              0.0 <= b.m < MAX_SIZE as real &&
              MARGIN as real <= b.x.x < (w.width - MARGIN) as real &&
              MARGIN as real <= b.x.y < (w.height - MARGIN) as real &&
              -MAX_VEL.x <= RandomVelocity(d).x < MAX_VEL.x &&
              -MAX_VEL.y <= RandomVelocity(d).y < MAX_VEL.y
  {
    Newborn(d.mass as real, Vec((d.ix + MARGIN) as real, (d.iy + MARGIN) as real), RandomVelocity(d))
  }

  class Universe {
    const player: LifeForm
    const window: Window
    const prims: Primitives
    /** The forms, in order (the Array itself). */
    var members: seq<LifeForm>
    var minM: Option<real>
    var maxM: Option<real>
    /** How many times `update` has run. */
    ghost var generation: nat

    /** The members are distinct live-or-new forms of this arena with no
        negative mass; the player, when present, comes first, and a player
        no longer present is dead. */
    ghost predicate Valid()
      reads this, player, members
    {
      ValidWith(members)
    }

    /** Valid, for the list of forms `ms`. */
    ghost predicate ValidWith(ms: seq<LifeForm>)
      reads player, ms
    {
      Distinct(ms) &&
      (forall k :: 0 <= k < |ms| ==>
         ms[k].Valid() && ms[k].prims == prims && ms[k].window == window && ms[k].m >= 0.0) &&
      player.Valid() && player.prims == prims && player.window == window &&
      (player in ms ==> ms[0] == player) &&
      (player !in ms ==> player.m <= TOL) &&
      prims.radius(0.0) == 0
    }

    /** `Universe.new(window, player)`: exactly the player. */
    constructor (player: LifeForm)
      requires player.Valid() && player.m >= 0.0 && player.prims.radius(0.0) == 0
      ensures Valid()
      ensures this.player == player && window == player.window && prims == player.prims
      ensures members == [player] && minM == None && maxM == None && generation == 0
    {
      this.player := player;
      window := player.window;
      prims := player.prims;
      members := [player];
      minM, maxM := None, None;
      generation := 0;
    }

    /** `AmbientUniverse.new(window, player, n)`: the player followed by one
        random form per draw. */
    constructor Ambient(player: LifeForm, draws: seq<Draw>)
      requires player.Valid() && player.m >= 0.0 && player.prims.radius(0.0) == 0
      requires forall k :: 0 <= k < |draws| ==> Drawable(player.window, draws[k])
      ensures Valid()
      ensures this.player == player && window == player.window && prims == player.prims
      ensures |members| == 1 + |draws| && members[0] == player
      ensures forall k :: 1 <= k < |members| ==>
                fresh(members[k]) && members[k].Body() == RandomBirth(window, draws[k - 1])
      ensures minM == None && maxM == None && generation == 0
    {
      this.player := player;
      window := player.window;
      prims := player.prims;
      members := [player];
      minM, maxM := None, None;
      generation := 0;
      new;
      Populate(draws);
    }

    /** `populate(n)`: append one random form per draw. */
    method Populate(draws: seq<Draw>)
      requires Valid()
      requires forall k :: 0 <= k < |draws| ==> Drawable(window, draws[k])
      modifies this`members
      ensures Valid()
      ensures |members| == |old(members)| + |draws| && members[..|old(members)|] == old(members)
      ensures forall k :: |old(members)| <= k < |members| ==>
                fresh(members[k]) && members[k].Body() == RandomBirth(window, draws[k - |old(members)|])
    {
      var k := 0;
      while k < |draws|
        invariant 0 <= k <= |draws|
        invariant Valid()
        invariant |members| == |old(members)| + k && members[..|old(members)|] == old(members)
        invariant forall j :: |old(members)| <= j < |members| ==>
                    fresh(members[j]) && members[j].Body() == RandomBirth(window, draws[j - |old(members)|])
      {
        var lf := RandomLifeform(draws[k]);
        members := members + [lf];
        k := k + 1;
      }
    }

    /** `random_lifeform`, with the random numbers given. */
    method RandomLifeform(d: Draw) returns (lf: LifeForm)
      requires Drawable(window, d)
      ensures fresh(lf) && lf.Valid() && lf.prims == prims && lf.window == window
      ensures lf.Body() == RandomBirth(window, d) && lf.m >= 0.0 && lf.fill == NoColor && lf.edge == NoColor
    {
      var at := Vec((d.ix + MARGIN) as real, (d.iy + MARGIN) as real);
      lf := new LifeForm(window, prims, d.mass as real, NoColor, at, RandomVelocity(d));
    }

    function PlayerDead(): bool
      reads player
    {
      player.m <= TOL
    }

    function PlayerWon(): bool
      reads this, player
    {
      maxM == Some(player.m)
    }

    function PlayerSmallest(): bool
      reads this, player
    {
      minM == Some(player.m)
    }

    /** With the extremes recorded for the current members, as `update`
        leaves them: the player has won exactly when some member has its
        mass and none is heavier, and is the smallest exactly when some
        member has its mass and none is lighter. */
    lemma ExtremesRead()
      requires maxM == MaxOf(Masses(members)) && minM == MinOf(Masses(members))
      ensures PlayerWon() <==>
              (exists k :: 0 <= k < |members| && members[k].m == player.m) &&
              forall k :: 0 <= k < |members| ==> members[k].m <= player.m
      ensures PlayerSmallest() <==>
              (exists k :: 0 <= k < |members| && members[k].m == player.m) &&
              forall k :: 0 <= k < |members| ==> player.m <= members[k].m
    {
      var ms := Masses(members);
      WonIffHeaviest(ms, player.m);
      SmallestIffLightest(ms, player.m);
    }

    /** `total_m`: the sum of the masses; nil for an empty universe. */
    function TotalM(): (r: Option<real>)
      reads this, members
      ensures r == if |members| == 0 then None else Some(Total(0.0, Masses(members), AddReal))
    {
      SumOfPresent(0.0, Masses(members), AddReal);
      Sum(Lift(Masses(members)), AddReal)
    }

    /** `total_p`: the sum of the momenta; nil for an empty universe. */
    function TotalP(): (r: Option<Vec>)
      reads this, members
      ensures r == if |members| == 0 then None else Some(Total(Zero, Momenta(members), AddVec))
    {
      SumOfPresent(Zero, Momenta(members), AddVec);
      Sum(Lift(Momenta(members)), AddVec)
    }

    /** `absorbable`: the total mass of the forms lighter than the player. */
    method Absorbable() returns (smaller: real)
      ensures smaller == Total(0.0, Below(Masses(members), player.m), AddReal)
    {
      ghost var ms := Masses(members);
      smaller := 0.0;
      var k := 0;
      while k < |members|
        invariant 0 <= k <= |members|
        invariant smaller == Total(0.0, Below(ms[..k], player.m), AddReal)
      {
        assert ms[..k + 1][..k] == ms[..k];
        var lf := members[k];
        var rest := Below(ms[..k], player.m);
        if lf.m < player.m {
          assert Below(ms[..k + 1], player.m) == rest + [lf.m];
          assert (rest + [lf.m])[..|rest|] == rest;
          smaller := smaller + lf.m;
        } else {
          assert Below(ms[..k + 1], player.m) == rest;
        }
        k := k + 1;
      }
      assert ms[..k] == ms;
    }

    /** `next_largest`, as written. */
    method NextLargest() returns (larger: real)
      ensures larger == LargerScan(Masses(members), player.m)
    {
      ghost var ms := Masses(members);
      larger := 0.0;
      var k := 0;
      while k < |members|
        invariant 0 <= k <= |members|
        invariant larger == LargerScan(ms[..k], player.m)
      {
        assert ms[..k + 1][..k] == ms[..k];
        var lf := members[k];
        if lf.m > player.m && lf.m < larger {
          larger := lf.m;
        }
        k := k + 1;
      }
      assert ms[..k] == ms;
    }

    /** `player_hopeless?`. */
    method PlayerHopeless() returns (h: bool)
      ensures h == Hopeless(minM, Masses(members), player.m)
    {
      if PlayerSmallest() {
        return true;
      }
      var a := Absorbable();
      var n := NextLargest();
      h := player.m + a < n;
    }

    /** `check_collisions`: every member stages its response to the whole
        list before any member moves. Only the staged deltas change. */
    method CollisionPass()
      requires Valid()
      modifies (set f | f in members)`deltaM, (set f | f in members)`deltaP
      ensures Valid()
      ensures Bodies(members) == AfterCollisions(prims, old(Bodies(members)))
      ensures forall k :: 0 <= k < |members| ==>
                members[k].fill == old(members[k].fill) && members[k].edge == old(members[k].edge)
    {
      ghost var ob := Bodies(members);
      assert forall j :: 0 <= j < |ob| ==> ob[j].m >= 0.0;
      ghost var cs := AfterCollisions(prims, ob);
      var k := 0;
      while k < |members|
        invariant 0 <= k <= |members| && Staging(k, ob, cs)
      {
        StageMember(members[k], k, ob, cs);
        k := k + 1;
      }
    }

    /** The collision pass after `k` members: the first `k` have staged their
        response `cs`, the others still have their states `ob`, and nobody
        has moved. */
    ghost predicate Staging(k: nat, ob: seq<Body>, cs: seq<Body>)
      reads this, members
    {
      k <= |members| && |ob| == |members| && |cs| == |members| &&
      (forall j :: 0 <= j < |members| ==> members[j].View() == ob[j].View()) &&
      (forall j :: 0 <= j < k ==> members[j].Body() == cs[j]) &&
      (forall j :: k <= j < |members| ==> members[j].Body() == ob[j])
    }

    /** One member's `check_collisions` against the whole list. */
    method StageMember(lf: LifeForm, k: nat, ghost ob: seq<Body>, ghost cs: seq<Body>)
      requires Distinct(members) && prims.radius(0.0) == 0 && lf.prims == prims
      requires k < |members| && lf == members[k] && Staging(k, ob, cs)
      requires forall j :: 0 <= j < |ob| ==> ob[j].m >= 0.0
      requires cs == AfterCollisions(prims, ob)
      modifies lf`deltaM, lf`deltaP
      ensures Staging(k + 1, ob, cs)
    {
      assert lf.Body() == ob[k] && cs[k] == Collided(prims, ob, k);
      assert Views(members) == PosesOf(ob);
      assert Marks(members, lf) == IndexMask(|members|, k);
      lf.CheckCollisions(members);
    }

    /** One visit of the `reject!` block: update the form, then recolour it
        unless it is the player or the player is dead. */
    method Visit(lf: LifeForm) returns (spawn: LifeForm?)
      requires lf.Valid() && lf.prims == prims && lf.window == window
      modifies lf
      ensures LookOf(lf) == Visited(prims, window, old(LookOf(lf)), lf == player, player.m)
      ensures spawn == null <==> Step(prims, window, old(lf.Body())).1.None?
      ensures spawn != null ==>
                fresh(spawn) && spawn.prims == prims && spawn.window == window &&
                LookOf(spawn) == Look(Step(prims, window, old(lf.Body())).1.value, NoColor, NoColor, true)
    {
      spawn := lf.Update();
      if !(lf == player || PlayerDead()) {
        lf.SetColor(MassToFill(lf.m, player.m));
        lf.SetEdge(MassToEdge(lf.m, player.m));
      }
    }

    /** The forms of the `reject!` loop over the list `q0` (whose states were
        `look0`): the visited list `q`, in the states `snap`, starts with `q0`
        and continues with forms from `spawned`; the player, first when it
        is a member (`pin`), is in the state the list says, or still in
        `pl0`. */
    ghost predicate Listed(q0: seq<LifeForm>, look0: seq<Look>, pin: bool, pl0: Look,
                           spawned: set<LifeForm>, q: seq<LifeForm>, snap: seq<Look>)
      reads q, player
    {
      |q| == |snap| && |look0| == |q0| <= |q| && Distinct(q) &&
      (forall k :: 0 <= k < |q| ==> LookOf(q[k]) == snap[k] && q[k].prims == prims && q[k].window == window) &&
      (forall k :: 0 <= k < |q0| ==> q[k] == q0[k]) &&
      (forall k :: |q0| <= k < |q| ==> q[k] in spawned) &&
      (pin <==> player in q) && (pin ==> 0 < |q0| && q[0] == player) &&
      LookOf(player) == (if pin then snap[0] else pl0)
    }

    /** The invariant of the loop after `i` visits: the forms are listed,
        well formed, `kept` holds the visited forms left alive, and the rest
        of the value-level pass from `snap` ends where the whole pass from
        `look0` ends. */
    ghost predicate PassInv(q0: seq<LifeForm>, look0: seq<Look>, pin: bool, pl0: Look,
                            spawned: set<LifeForm>, i: nat,
                            q: seq<LifeForm>, kept: seq<LifeForm>, snap: seq<Look>, final: seq<Look>)
      reads q, player
    {
      Listed(q0, look0, pin, pl0, spawned, q, snap) && i <= |q| &&
      (forall k :: 0 <= k < |snap| ==> snap[k].valid) &&
      kept == Keep(q[..i], LookMasses(snap)[..i]) &&
      Settled(|q0|, i, snap) &&
      Run(prims, window, |q0|, pin, pl0.body.m, snap, i) == final
    }

    /** The visit of entry `i` of the visited list, on the forms: only that
        form changes, as VisitEntry says, and a form it ejects joins the end
        of the list. */
    method VisitListed(ghost q0: seq<LifeForm>, ghost look0: seq<Look>, ghost pin: bool, ghost pl0: Look,
                       ghost spawned: set<LifeForm>, i: nat, q: seq<LifeForm>, ghost snap: seq<Look>)
        returns (q2: seq<LifeForm>, ghost snap2: seq<Look>, ghost news: set<LifeForm>)
      requires Listed(q0, look0, pin, pl0, spawned, q, snap) && i < |q|
      requires forall k :: 0 <= k < |snap| ==> snap[k].valid
      modifies q[i]
      ensures Listed(q0, look0, pin, pl0, spawned + news, q2, snap2)
      ensures snap2 == VisitEntry(prims, window, pin, pl0.body.m, snap, i)
      ensures |q| <= |q2| && forall k :: 0 <= k < |q| ==> q2[k] == q[k]
      ensures fresh(news)
    {
      var lf := q[i];
      var spawn := Visit(lf);
      forall k | 0 <= k < |q| && k != i
        ensures LookOf(q[k]) == snap[k]
      {
        assert q[k] != lf;
      }
      ghost var es := Ejected(prims, window, snap[i].body);
      snap2 := VisitEntry(prims, window, pin, pl0.body.m, snap, i);
      assert snap2 == snap[i := LookOf(lf)] + es;
      if spawn != null {
        q2 := q + [spawn];
        news := {spawn};
      } else {
        q2 := q;
        news := {};
      }
    }

    /** The visit of entry `i` of the visited list, and the removal decision:
        the loop's invariant moves on by one. */
    method VisitAt(ghost q0: seq<LifeForm>, ghost look0: seq<Look>, ghost pin: bool, ghost pl0: Look,
                   ghost spawned: set<LifeForm>, i: nat,
                   q: seq<LifeForm>, kept: seq<LifeForm>, ghost snap: seq<Look>, ghost final: seq<Look>)
        returns (q2: seq<LifeForm>, kept2: seq<LifeForm>, ghost snap2: seq<Look>, ghost news: set<LifeForm>)
      requires PassInv(q0, look0, pin, pl0, spawned, i, q, kept, snap, final) && i < |q|
      modifies q[i]
      ensures PassInv(q0, look0, pin, pl0, spawned + news, i + 1, q2, kept2, snap2, final)
      ensures |q2| <= |q| + 1 && (i >= |q0| ==> |q2| == |q|)
      ensures fresh(news)
    {
      var lf := q[i];
      q2, snap2, news := VisitListed(q0, look0, pin, pl0, spawned, i, q, snap);
      RunStep(prims, window, |q0|, pin, pl0.body.m, snap, i);
      KeepStep(q, q2, LookMasses(snap), LookMasses(snap2), i);
      kept2 := if lf.m > TOL then kept + [lf] else kept;
    }

    /** The loop of the `reject!` pass over the list `q0`: visits every entry
        in order, including the forms the visits append, and collects the
        forms left alive. */
    method VisitAll(q0: seq<LifeForm>, ghost look0: seq<Look>, ghost pin: bool, ghost pl0: Look, ghost final: seq<Look>)
        returns (q: seq<LifeForm>, kept: seq<LifeForm>, ghost snap: seq<Look>, ghost spawned: set<LifeForm>)
      requires PassInv(q0, look0, pin, pl0, {}, 0, q0, [], look0, final)
      modifies q0
      ensures PassInv(q0, look0, pin, pl0, spawned, |q|, q, kept, snap, final)
      ensures snap == final
      ensures fresh(spawned)
    {
      snap, spawned := look0, {};
      q := q0;
      kept := [];
      var i := 0;
      while i < |q|
        invariant PassInv(q0, look0, pin, pl0, spawned, i, q, kept, snap, final)
        invariant fresh(spawned)
        invariant |q| <= |q0| + Min(i, |q0|)
        decreases 2 * |q0| - i
      {
        ghost var news;
        q, kept, snap, news := VisitAt(q0, look0, pin, pl0, spawned, i, q, kept, snap, final);
        spawned := spawned + news;
        i := i + 1;
      }
    }

    /** The `reject!` pass: visit every member in order, then every form the
        visits eject (appended to the same list and visited in turn), and
        return the forms left alive, `kept`. `queue` is the whole visited
        list and `before` the members' states before the pass. */
    method UpdatePass() returns (kept: seq<LifeForm>, ghost queue: seq<LifeForm>, ghost before: seq<Look>)
      requires Valid()
      modifies members
      ensures before == old(Looks(members))
      ensures LookBodies(before) == old(Bodies(members))
      ensures forall k :: 0 <= k < |before| ==>
                before[k].fill == old(members[k].fill) && before[k].edge == old(members[k].edge)
      ensures ValidWith(kept) && kept == Survivors(queue)
      ensures forall k :: 0 <= k < |kept| ==> kept[k] in queue && kept[k].m > TOL
      ensures |old(members)| <= |queue| && queue[..|old(members)|] == old(members)
      ensures forall k :: |old(members)| <= k < |queue| ==> fresh(queue[k])
      ensures Bodies(queue) == Steps(prims, window, Births(prims, window, LookBodies(before)))
      ensures ColoursAfter(queue, before)
      ensures player.fill == old(player.fill) && player.edge == old(player.edge)
    {
      ghost var q0 := members;
      before := Looks(members);
      assert forall k :: 0 <= k < |before| ==> before[k].fill == members[k].fill && before[k].edge == members[k].edge;
      ghost var pin := player in members;
      ghost var pl0 := LookOf(player);
      ghost var final := Run(prims, window, |members|, pin, pl0.body.m, before, 0);
      ReadBack(members, before);
      PassStarts(before, pin, pl0, final);
      var q;
      ghost var snap, spawned;
      q, kept, snap, spawned := VisitAll(members, before, pin, pl0, final);
      PassEnds(q0, before, pin, pl0, spawned, q, kept, snap, final);
      queue := q;
    }

    /** The colours the pass leaves on the visited list `q`, whose first
        entries were in the states `look0`: with a live player, every other
        form shows its mass relative to the player's; with a dead one, the
        members keep the colours they had. */
    ghost predicate ColoursAfter(q: seq<LifeForm>, look0: seq<Look>)
      reads q, player
    {
      |look0| <= |q| &&
      (player.m > TOL ==>
         forall k :: 0 <= k < |q| && q[k] != player ==>
           q[k].fill == MassToFill(q[k].m, player.m) && q[k].edge == MassToEdge(q[k].m, player.m)) &&
      (player.m <= TOL ==>
         forall k :: 0 <= k < |look0| ==> q[k].fill == look0[k].fill && q[k].edge == look0[k].edge)
    }

    /** The end of `update`: the list keeps the forms `kept` (those of the
        visited list `q` left alive), one more update (after `g`) is done,
        and the extremes of the masses are recorded; no form changes. */
    method Commit(kept: seq<LifeForm>, ghost q: seq<LifeForm>, ghost look0: seq<Look>, ghost g: nat)
      requires ValidWith(kept) && kept == Survivors(q)
      requires forall k :: 0 <= k < |kept| ==> kept[k] in q && kept[k].m > TOL
      requires ColoursAfter(q, look0)
      modifies this`members, this`minM, this`maxM, this`generation
      ensures members == kept && Valid() && members == Survivors(q)
      ensures forall k :: 0 <= k < |members| ==> members[k] in q && members[k].m > TOL
      ensures minM == MinOf(Masses(members)) && maxM == MaxOf(Masses(members))
      ensures generation == g + 1
      ensures Bodies(q) == old(Bodies(q))
      ensures ColoursAfter(q, look0)
    {
      members := kept;
      generation := g + 1;
      RecordExtremes(q, look0);
    }

    /** The tail of `update`: record the smallest and largest mass of the
        members (the first and last of the sorted masses). The members and
        the forms, and what the pass said of them, do not change. */
    method RecordExtremes(ghost q: seq<LifeForm>, ghost look0: seq<Look>)
      requires Valid() && members == Survivors(q)
      requires forall k :: 0 <= k < |members| ==> members[k] in q && members[k].m > TOL
      requires ColoursAfter(q, look0)
      modifies this`minM, this`maxM
      ensures Valid() && members == Survivors(q)
      ensures forall k :: 0 <= k < |members| ==> members[k] in q && members[k].m > TOL
      ensures minM == MinOf(Masses(members)) && maxM == MaxOf(Masses(members))
      ensures Bodies(q) == old(Bodies(q))
      ensures ColoursAfter(q, look0)
    {
      minM := MinOf(Masses(members));
      maxM := MaxOf(Masses(members));
    }

    /** Before the first visit the loop's invariant holds of the members. */
    lemma PassStarts(look0: seq<Look>, pin: bool, pl0: Look, final: seq<Look>)
      requires Valid() && look0 == Looks(members)
      requires pin == (player in members) && pl0 == LookOf(player)
      requires final == Run(prims, window, |members|, pin, pl0.body.m, look0, 0)
      ensures PassInv(members, look0, pin, pl0, {}, 0, members, [], look0, final)
      ensures Settled(|members|, 0, look0) && forall k :: 0 <= k < |look0| ==> look0[k].valid
      ensures pl0.valid && (!pin ==> pl0.body.m <= TOL) && (pin ==> pl0 == look0[0])
    {
      assert members[..0] == [] && LookMasses(look0)[..0] == [];
    }

    /** The state after the last visit of the pass over `q0`, whose states
        were `look0`, and starting with the player in state `pl0`. */
    ghost predicate PassDone(q0: seq<LifeForm>, look0: seq<Look>, pin: bool, pl0: Look, spawned: set<LifeForm>,
                             q: seq<LifeForm>, kept: seq<LifeForm>, snap: seq<Look>, final: seq<Look>)
      reads q, player
    {
      PassInv(q0, look0, pin, pl0, spawned, |q|, q, kept, snap, final) && snap == final &&
      Settled(|q0|, 0, look0) &&
      final == Run(prims, window, |q0|, pin, pl0.body.m, look0, 0) &&
      (forall k :: 0 <= k < |look0| ==> look0[k].valid) &&
      pl0.valid && (!pin ==> pl0.body.m <= TOL) && (pin ==> pl0 == look0[0]) &&
      prims.radius(0.0) == 0 && player.prims == prims && player.window == window
    }

    /** After the last visit: what the loop's invariant and the value-level
        pass say of the visited list `q` and the kept forms. */
    lemma PassEnds(q0: seq<LifeForm>, look0: seq<Look>, pin: bool, pl0: Look, spawned: set<LifeForm>,
                   q: seq<LifeForm>, kept: seq<LifeForm>, snap: seq<Look>, final: seq<Look>)
      requires PassDone(q0, look0, pin, pl0, spawned, q, kept, snap, final)
      ensures ValidWith(kept) && kept == Survivors(q)
      ensures forall k :: 0 <= k < |kept| ==> kept[k] in q && kept[k].m > TOL
      ensures |q0| <= |q| && q[..|q0|] == q0
      ensures forall k :: |q0| <= k < |q| ==> q[k] in spawned
      ensures Bodies(q) == Steps(prims, window, Births(prims, window, LookBodies(look0)))
      ensures ColoursAfter(q, look0)
      ensures player.fill == pl0.fill && player.edge == pl0.edge
    {
      EndsKept(q0, look0, pin, pl0, spawned, q, kept, snap, final);
      EndsBodies(q0, look0, pin, pl0, spawned, q, kept, snap, final);
      EndsColours(q0, look0, pin, pl0, spawned, q, kept, snap, final);
    }

    /** The kept forms are the survivors, and make a valid universe. */
    lemma EndsKept(q0: seq<LifeForm>, look0: seq<Look>, pin: bool, pl0: Look, spawned: set<LifeForm>,
                   q: seq<LifeForm>, kept: seq<LifeForm>, snap: seq<Look>, final: seq<Look>)
      requires PassDone(q0, look0, pin, pl0, spawned, q, kept, snap, final)
      ensures ValidWith(kept) && kept == Survivors(q)
      ensures forall k :: 0 <= k < |kept| ==> kept[k] in q && kept[k].m > TOL
    {
      ReadBack(q, snap);
      SurvivorsKeep(q);
      assert q[..|q|] == q && LookMasses(snap)[..|q|] == LookMasses(snap);
      KeptValid(q, kept, snap, pin, pl0);
    }

    /** The visited list is the members, then forms spawned in the pass, and
        its bodies are those of the value-level pass. */
    lemma EndsBodies(q0: seq<LifeForm>, look0: seq<Look>, pin: bool, pl0: Look, spawned: set<LifeForm>,
                     q: seq<LifeForm>, kept: seq<LifeForm>, snap: seq<Look>, final: seq<Look>)
      requires PassDone(q0, look0, pin, pl0, spawned, q, kept, snap, final)
      ensures |q0| <= |q| && q[..|q0|] == q0
      ensures forall k :: |q0| <= k < |q| ==> q[k] in spawned
      ensures Bodies(q) == Steps(prims, window, Births(prims, window, LookBodies(look0)))
    {
      RunOfMembers(prims, window, pin, pl0.body.m, look0);
      ReadBack(q, snap);
      assert q[..|q0|] == q0;
    }

    /** The colours the pass leaves. */
    lemma EndsColours(q0: seq<LifeForm>, look0: seq<Look>, pin: bool, pl0: Look, spawned: set<LifeForm>,
                      q: seq<LifeForm>, kept: seq<LifeForm>, snap: seq<Look>, final: seq<Look>)
      requires PassDone(q0, look0, pin, pl0, spawned, q, kept, snap, final)
      ensures ColoursAfter(q, look0)
      ensures player.fill == pl0.fill && player.edge == pl0.edge
    {
      RunColours(prims, window, pin, pl0.body.m, look0);
      ColoursRead(q, snap, pin, player.m);
      KeptColours(q0, look0, q, snap);
    }

    /** The forms the pass keeps make a valid universe again. */
    lemma KeptValid(q: seq<LifeForm>, kept: seq<LifeForm>, snap: seq<Look>, pin: bool, pl0: Look)
      requires |q| == |snap| && Distinct(q) && prims.radius(0.0) == 0
      requires forall k :: 0 <= k < |q| ==> LookOf(q[k]) == snap[k] && q[k].prims == prims && q[k].window == window
      requires forall k :: 0 <= k < |snap| ==> snap[k].valid
      requires (pin <==> player in q) && (pin ==> 0 < |q| && q[0] == player)
      requires LookOf(player) == (if pin then snap[0] else pl0)
      requires pl0.valid && (!pin ==> pl0.body.m <= TOL)
      requires player.prims == prims && player.window == window
      requires kept == Survivors(q)
      ensures ValidWith(kept)
      ensures forall k :: 0 <= k < |kept| ==> kept[k] in q && kept[k].m > TOL
    {
      SurvivorsSpec(q);
    }

    /** With a live player, the colours the value-level pass gives are those
        of the forms. */
    lemma ColoursRead(q: seq<LifeForm>, snap: seq<Look>, pin: bool, pm: real)
      requires |q| == |snap| && forall k :: 0 <= k < |q| ==> LookOf(q[k]) == snap[k]
      requires pin ==> 0 < |q| && q[0] == player
      requires pm == player.m
      requires pm > TOL ==>
                 forall k :: 0 <= k < |snap| && !(pin && k == 0) ==>
                   snap[k].fill == MassToFill(snap[k].body.m, pm) && snap[k].edge == MassToEdge(snap[k].body.m, pm)
      ensures player.m > TOL ==>
                forall k :: 0 <= k < |q| && q[k] != player ==>
                  q[k].fill == MassToFill(q[k].m, player.m) && q[k].edge == MassToEdge(q[k].m, player.m)
    {
    }

    /** Members whose colours the value-level pass keeps keep them. */
    lemma KeptColours(q0: seq<LifeForm>, look0: seq<Look>, q: seq<LifeForm>, snap: seq<Look>)
      requires |q0| == |look0| <= |q| == |snap|
      requires forall k :: 0 <= k < |q0| ==> q[k] == q0[k]
      requires forall k :: 0 <= k < |q| ==> LookOf(q[k]) == snap[k]
      ensures (forall k :: 0 <= k < |look0| ==> snap[k].fill == look0[k].fill && snap[k].edge == look0[k].edge) ==>
              forall k :: 0 <= k < |look0| ==> q[k].fill == look0[k].fill && q[k].edge == look0[k].edge
    {
    }

    /** `update`: the collision pass, the update pass, then the extremes of
        the masses left. */
    method Update() returns (ghost queue: seq<LifeForm>, ghost before: seq<Look>)
      requires Valid()
      modifies this, members
      ensures Valid()
      ensures generation == old(generation) + 1
      ensures |old(members)| <= |queue| && queue[..|old(members)|] == old(members)
      ensures forall k :: |old(members)| <= k < |queue| ==> fresh(queue[k])
      ensures |before| == |old(members)| && LookBodies(before) == AfterCollisions(prims, old(Bodies(members)))
      ensures forall k :: 0 <= k < |before| ==>
                before[k].fill == old(members[k].fill) && before[k].edge == old(members[k].edge)
      ensures Bodies(queue) == Steps(prims, window, Births(prims, window, LookBodies(before)))
      ensures members == Survivors(queue)
      ensures forall k :: 0 <= k < |members| ==> members[k] in queue && members[k].m > TOL
      ensures minM == MinOf(Masses(members)) && maxM == MaxOf(Masses(members))
      ensures ColoursAfter(queue, before)
      ensures player.fill == old(player.fill) && player.edge == old(player.edge)
    {
      ghost var g := generation;
      CollisionPass();
      assert player.fill == old(player.fill) && player.edge == old(player.edge);
      var kept;
      kept, queue, before := UpdatePass();
      Commit(kept, queue, before, g);
    }
  }
}
