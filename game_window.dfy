/** The control state of the game window (game_window.rb): the time speed,
    the pause flag, whether the round is still being played, the message on
    screen, and the universe with its player. Key presses and the buttons
    held down reach the model as values; drawing is not modelled. */
module Game {
  import opened Vectors
  import opened MathUtils
  import opened Physics
  import opened LifeForms
  import opened Universes

  /** The number of random forms a round starts with. */
  const ENEMIES: nat := 15
  /** The player's mass at the start of a round. */
  const INITIAL_SIZE: real := 2000.0

  const WIN_MSG: string := "You Win!"
  const DEAD_MSG: string := "LifeForm Terminated"
  const HOPELESS_MSG: string := "It's Not Looking Good..."

  /** The keys `button_down` reacts to; every other key is ignored. */
  datatype Button = KbEscape | KbR | KbP | KbW | KbS | OtherButton

  /** What `button_down?` reports during one frame: the four arrow keys, and
      the mouse position when the left mouse button is held. */
  datatype Held = Held(up: bool, down: bool, left: bool, right: bool, click: Option<Vec>)

  function Pow2(k: nat): (r: nat)
    ensures r >= 1
  {
    if k == 0 then 1 else 2 * Pow2(k - 1)
  }

  ghost predicate IsPowerOfTwo(n: int)
  {
    exists k: nat :: Pow2(k) == n
  }

  lemma DoubleIsPowerOfTwo(n: int)
    requires IsPowerOfTwo(n)
    ensures IsPowerOfTwo(2 * n)
  {
    var k: nat :| Pow2(k) == n;
    assert Pow2(k + 1) == 2 * n;
  }

  /** A power of two other than 1 is even, and its half is a power of two. */
  lemma HalfIsPowerOfTwo(n: int)
    requires IsPowerOfTwo(n) && n != 1
    ensures n % 2 == 0 && IsPowerOfTwo(n / 2)
  {
    var k: nat :| Pow2(k) == n;
    assert Pow2(k - 1) == n / 2;
  }

  /** Whether the round is still being played, and the message shown. */
  datatype Status = Status(active: bool, msg: Option<string>)

  /** The checks after one universe update, in the order `update` runs
      them: "You Win!" when the player won, then the end of the round when
      it is dead, then, if the round is still on, the hopeless message.
      Nothing is checked once the round is over. */
  function Verdict(s: Status, won: bool, dead: bool, hopeless: bool): (t: Status)
    ensures !s.active ==> t == s
    ensures s.active && dead ==> t == Status(false, Some(DEAD_MSG))
    ensures s.active && !dead && hopeless ==> t == Status(true, Some(HOPELESS_MSG))
    ensures s.active && !dead && !hopeless && won ==> t == Status(true, Some(WIN_MSG))
    ensures s.active && !dead && !hopeless && !won ==> t == s
  {
    if !s.active then s
    else
      var afterWin := if won then s.(msg := Some(WIN_MSG)) else s;
      var afterDead := if dead then Status(false, Some(DEAD_MSG)) else afterWin;
      if afterDead.active && hopeless then afterDead.(msg := Some(HOPELESS_MSG)) else afterDead
  }

  /** A finished round is final: no later check changes its status (the
      death message included), whatever the universe does. */
  lemma {:induction false} DeathIsFinal(s: Status, outcomes: seq<(bool, bool, bool)>)
    requires !s.active
    ensures Verdicts(s, outcomes) == s
  {
    if |outcomes| > 0 {
      var n := |outcomes| - 1;
      DeathIsFinal(s, outcomes[..n]);
    }
  }

  /** The status after several updates, each with its own won, dead and
      hopeless outcomes, as `update`'s `@speed` loop reaches it. */
  function Verdicts(s: Status, outcomes: seq<(bool, bool, bool)>): Status
  {
    if |outcomes| == 0 then s
    else
      var n := |outcomes| - 1;
      var o := outcomes[n];
      Verdict(Verdicts(s, outcomes[..n]), o.0, o.1, o.2)
  }

  /** The player alone in the universe is both the heaviest and the lightest
      form, so the hopeless message replaces "You Win!". */
  lemma LonePlayerIsHopeless(s: Status, pm: real)
    requires s.active && pm > TOL
    ensures MaxOf([pm]) == Some(pm) && MinOf([pm]) == Some(pm)
    ensures Verdict(s, MaxOf([pm]) == Some(pm), pm <= TOL, Hopeless(MinOf([pm]), [pm], pm)) ==
            Status(true, Some(HOPELESS_MSG))
  {
    HopelessIffSmallest(MinOf([pm]), [pm], pm);
  }

  /** The player's pushes for the buttons held in one frame, in the order
      `update` applies them: up, down, left, right, then the mouse. */
  function Steer(pr: Primitives, b: Body, h: Held): (c: Body)
    ensures c.m == b.m && c.x == b.x && c.p == b.p && c.deltaM == b.deltaM && c.tick == b.tick
    ensures c.deltaP.Add(c.ejection) == b.deltaP.Add(b.ejection)
    ensures h == Held(false, false, false, false, None) ==> c == b
  {
    var b1 := if h.up then Impulse(b, UP) else b;
    var b2 := if h.down then Impulse(b1, DOWN) else b1;
    var b3 := if h.left then Impulse(b2, LEFT) else b2;
    var b4 := if h.right then Impulse(b3, RIGHT) else b3;
    match h.click
    case None => b4
    case Some(at) => Impulse(b4, pr.normalize(b4.x.Sub(at)).Scale(IMPULSE))
  }

  /** The state of the first of the members in states `ob` once a universe
      update is done: the first entry of the list the pass visits. */
  function PlayerAfter(pr: Primitives, w: Window, ob: seq<Body>): Body
    requires pr.radius(0.0) == 0 && 0 < |ob| && forall k :: 0 <= k < |ob| ==> ob[k].m >= 0.0
  {
    Steps(pr, w, Births(pr, w, AfterCollisions(pr, ob)))[0]
  }

  /** That first entry is the first member, so its new state is the update
      of its state after the collision pass against all the members' states
      from before. */
  lemma PlayerAfterPass(pr: Primitives, w: Window, ob: seq<Body>)
    requires pr.radius(0.0) == 0 && 0 < |ob| && forall k :: 0 <= k < |ob| ==> ob[k].m >= 0.0
    ensures PlayerAfter(pr, w, ob) == Step(pr, w, Collided(pr, ob, 0)).0
  {
    var bs := AfterCollisions(pr, ob);
    StepsEach(pr, w, Births(pr, w, bs));
    assert Births(pr, w, bs)[0] == bs[..|bs|][0] == Collided(pr, ob, 0);
  }

  class GameWindow {
    const window: Window
    const prims: Primitives

    var speed: int
    var paused: bool
    var active: bool
    var msg: Option<string>
    var msg2: Option<string>
    var universe: Universe
    var player: LifeForm

    /** The speed is a power of two, and the universe is a valid one of this
        window whose player is the window's player. */
    ghost predicate Valid()
      reads this, universe, universe.members, player
    {
      IsPowerOfTwo(speed) && universe.player == player && universe.Valid() &&
      universe.window == window && universe.prims == prims
    }

    /** What the checks of `update` read of the universe: won, dead and
        hopeless. */
    ghost function Outcome(): (bool, bool, bool)
      reads this, universe, universe.members, universe.player, player
    {
      (universe.PlayerWon(), universe.PlayerDead(),
       Universes.Hopeless(universe.minM, Masses(universe.members), player.m))
    }

    /** `GameWindow.new`: speed 1, then a fresh round. */
    constructor (window: Window, prims: Primitives, draws: seq<Draw>)
      requires prims.radius(0.0) == 0
      requires |draws| == ENEMIES && forall k :: 0 <= k < |draws| ==> Drawable(window, draws[k])
      ensures Valid()
      ensures this.window == window && this.prims == prims && speed == 1
      ensures active && !paused && msg == None && msg2 == None
      ensures fresh(player) && fresh(universe) && |universe.members| == 1 + ENEMIES && universe.members[0] == player
      ensures player.Body() == Newborn(INITIAL_SIZE, Vec((window.width / 2) as real, (window.height / 2) as real), Zero)
      ensures player.fill == White && player.edge == White
      ensures forall k :: 1 <= k < |universe.members| ==>
                fresh(universe.members[k]) && universe.members[k].Body() == RandomBirth(window, draws[k - 1])
    {
      this.window := window;
      this.prims := prims;
      speed := 1;
      active, paused := true, false;
      msg, msg2 := None, None;
      var pl, un := NewRound(window, prims, draws);
      player, universe := pl, un;
      new;
      assert Pow2(0) == speed;
    }

    /** The forms of a new round: the player, of mass INITIAL_SIZE, white, at
        rest at the centre of the window (halves rounded down), then one
        random form per draw. */
    static method NewRound(window: Window, prims: Primitives, draws: seq<Draw>)
        returns (player: LifeForm, universe: Universe)
      requires prims.radius(0.0) == 0
      requires forall k :: 0 <= k < |draws| ==> Drawable(window, draws[k])
      ensures fresh(player) && fresh(universe) && universe.Valid()
      ensures universe.player == player && universe.window == window && universe.prims == prims
      ensures player.Body() == Newborn(INITIAL_SIZE, Vec((window.width / 2) as real, (window.height / 2) as real), Zero)
      ensures player.fill == White && player.edge == White
      ensures |universe.members| == 1 + |draws| && universe.members[0] == player
      ensures forall k :: 1 <= k < |universe.members| ==>
                fresh(universe.members[k]) && universe.members[k].Body() == RandomBirth(window, draws[k - 1])
    {
      player := new LifeForm(window, prims, INITIAL_SIZE, White,
                             Vec((window.width / 2) as real, (window.height / 2) as real), Zero);
      universe := new Universe.Ambient(player, draws);
    }

    /** `init_universe`: the round is on, not paused, with no message. */
    method InitUniverse()
      modifies this`active, this`paused, this`msg, this`msg2
      ensures active && !paused && msg == None && msg2 == None
    {
      active := true;
      paused := false;
      msg, msg2 := None, None;
    }

    /** `init_ambient_universe`: a new round with ENEMIES random forms. */
    method InitAmbientUniverse(draws: seq<Draw>)
      requires IsPowerOfTwo(speed) && prims.radius(0.0) == 0
      requires |draws| == ENEMIES && forall k :: 0 <= k < |draws| ==> Drawable(window, draws[k])
      modifies this`active, this`paused, this`msg, this`msg2, this`player, this`universe
      ensures Valid()
      ensures active && !paused && msg == None && msg2 == None && speed == old(speed)
      ensures fresh(player) && fresh(universe) && |universe.members| == 1 + ENEMIES && universe.members[0] == player
      ensures player.Body() == Newborn(INITIAL_SIZE, Vec((window.width / 2) as real, (window.height / 2) as real), Zero)
      ensures player.fill == White && player.edge == White
      ensures forall k :: 1 <= k < |universe.members| ==>
                fresh(universe.members[k]) && universe.members[k].Body() == RandomBirth(window, draws[k - 1])
    {
      InitUniverse();
      player, universe := NewRound(window, prims, draws);
    }

    /** `toggle_pause`: only while the round is on. */
    method TogglePause()
      modifies this`paused
      ensures paused == if active then !old(paused) else old(paused)
    {
      if active {
        paused := !paused;
      }
    }

    /** `speed_up`: time runs twice as fast. */
    method SpeedUp()
      requires IsPowerOfTwo(speed)
      modifies this`speed
      ensures IsPowerOfTwo(speed) && speed == 2 * old(speed)
    {
      DoubleIsPowerOfTwo(speed);
      speed := speed * 2;
    }

    /** `slow_down`: time runs half as fast, but never slower than one
        universe update per frame. */
    method SlowDown()
      requires IsPowerOfTwo(speed)
      modifies this`speed
      ensures IsPowerOfTwo(speed)
      ensures old(speed) == 1 ==> speed == 1
      ensures old(speed) != 1 ==> 2 * speed == old(speed)
    {
      if speed != 1 {
        HalfIsPowerOfTwo(speed);
        speed := speed / 2;
      }
    }

    /** `dead`: the round is over. */
    method Dead()
      modifies this`active, this`msg
      ensures !active && msg == Some(DEAD_MSG)
    {
      active := false;
      msg := Some(DEAD_MSG);
    }

    method Hopeless()
      modifies this`msg
      ensures msg == Some(HOPELESS_MSG)
    {
      msg := Some(HOPELESS_MSG);
    }

    method Win()
      modifies this`msg
      ensures msg == Some(WIN_MSG)
    {
      msg := Some(WIN_MSG);
    }

    /** `button_down(id)`: Escape asks to close the window (`close`), R
        starts a new round from the random `draws`, P toggles the pause, W
        and S change the speed; other keys do nothing. */
    method ButtonDown(id: Button, draws: seq<Draw>) returns (close: bool)
      requires Valid()
      requires id == KbR ==> |draws| == ENEMIES && forall k :: 0 <= k < |draws| ==> Drawable(window, draws[k])
      modifies this
      ensures Valid()
      ensures close <==> id == KbEscape
      ensures id == KbR ==>
                active && !paused && msg == None && msg2 == None && speed == old(speed) &&
                fresh(player) && fresh(universe) && |universe.members| == 1 + ENEMIES
      ensures id == KbP ==>
                unchanged(this`speed, this`active, this`msg, this`msg2, this`universe, this`player) &&
                paused == if active then !old(paused) else old(paused)
      ensures id == KbW ==>
                unchanged(this`paused, this`active, this`msg, this`msg2, this`universe, this`player) && speed == 2 * old(speed)
      ensures id == KbS ==>
                unchanged(this`paused, this`active, this`msg, this`msg2, this`universe, this`player) &&
                speed == if old(speed) == 1 then 1 else old(speed) / 2
      ensures id == KbEscape || id == OtherButton ==> unchanged(this)
    {
      close := false;
      match id
      case KbEscape =>
        close := true;
      case KbR =>
        assert prims.radius(0.0) == 0;
        InitAmbientUniverse(draws);
      case KbP =>
        TogglePause();
      case KbW =>
        SpeedUp();
      case KbS =>
        SlowDown();
      case OtherButton =>
    }

    /** One of the `@speed` steps of `update`: the universe update, the
        win/death/hopeless checks of a round still on, then the player's
        pushes for the buttons held; nothing is pushed once the round is
        over. `mid` is the player's state right after the universe update. */
    method Tick(held: Held) returns (ghost mid: Body)
      requires Valid()
      modifies this`active, this`msg, universe, universe.members, player
      ensures Valid()
      ensures universe == old(universe) && player == old(player)
      ensures universe.generation == old(universe.generation) + 1
      ensures forall k :: 0 <= k < |universe.members| ==>
                universe.members[k] in old(universe.members) || fresh(universe.members[k])
      ensures old(player in universe.members) ==>
                0 < |old(universe.members)| && mid == PlayerAfter(prims, window, old(Bodies(universe.members)))
      ensures old(player !in universe.members) ==> mid == old(player.Body())
      ensures Status(active, msg) ==
              Verdict(old(Status(active, msg)), universe.PlayerWon(), universe.PlayerDead(),
                      Universes.Hopeless(universe.minM, Masses(universe.members), player.m))
      ensures player.Body() == if active then Steer(prims, mid, held) else mid
    {
      Advance(universe);
      mid := player.Body();
      Decide(held);
    }

    /** What `update` does once the universe is updated: the checks, then,
        on a round still on, the player's pushes for the buttons held. */
    method Decide(held: Held)
      requires Valid()
      modifies this`active, this`msg, player`deltaP, player`ejection
      ensures Valid()
      ensures Status(active, msg) ==
              Verdict(old(Status(active, msg)), universe.PlayerWon(), universe.PlayerDead(),
                      Universes.Hopeless(universe.minM, Masses(universe.members), player.m))
      ensures player.Body() == if active then Steer(prims, old(player.Body()), held) else old(player.Body())
    {
      ghost var s := Status(active, msg);
      Judge();
      if active {
        SteerKeeping(held, s);
      }
    }

    /** A form of `ms` taken from `q` is a form of `q0` or a new one when `q`
        is `q0` followed by new forms. */
    static twostate lemma OldOrFresh(q0: seq<LifeForm>, new q: seq<LifeForm>, new ms: seq<LifeForm>)
      requires |q0| <= |q| && q[..|q0|] == q0
      requires forall k :: |q0| <= k < |q| ==> fresh(q[k])
      requires forall k :: 0 <= k < |ms| ==> ms[k] in q
      ensures forall k :: 0 <= k < |ms| ==> ms[k] in q0 || fresh(ms[k])
    {
      forall k | 0 <= k < |ms|
        ensures ms[k] in q0 || fresh(ms[k])
      {
        var j :| 0 <= j < |q| && q[j] == ms[k];
        if j < |q0| {
          assert q[j] == q[..|q0|][j];
        }
      }
    }

    /** The universe update of one step (`Universe.Update`, whose contract
        states the whole update), with what the window reads of it: one more
        update is counted, the forms left are old members or new ones, and the
        player, when a member, is first in the list, so its new state is
        `PlayerAfter` of the members' states from before (`PlayerAfterPass`
        reads that as the update of its state after the collision pass). */
    static method Advance(u: Universe)
      requires u.Valid()
      modifies u, u.members
      ensures u.Valid()
      ensures u.generation == old(u.generation) + 1
      ensures forall k :: 0 <= k < |u.members| ==> u.members[k] in old(u.members) || fresh(u.members[k])
      ensures old(u.player in u.members) ==>
                0 < |old(u.members)| &&
                u.player.Body() == PlayerAfter(u.prims, u.window, old(Bodies(u.members)))
      ensures old(u.player !in u.members) ==> u.player.Body() == old(u.player.Body())
    {
      ghost var q0 := u.members;
      ghost var queue, before := u.Update();
      OldOrFresh(q0, queue, u.members);
      if u.player in q0 {
        assert queue[0] == q0[0] == u.player;
        assert Bodies(queue)[0] == u.player.Body();
      }
    }


    /** The checks of `update` on a round still on. */
    method Judge()
      requires Valid()
      modifies this`active, this`msg
      ensures Valid()
      ensures Status(active, msg) ==
              Verdict(old(Status(active, msg)), universe.PlayerWon(), universe.PlayerDead(),
                      Universes.Hopeless(universe.minM, Masses(universe.members), player.m))
    {
      if active {
        CheckEnd();
      }
      if active {
        CheckHopeless();
      }
    }

    /** The win and death checks of a round still on: "You Win!" when the
        player won, then the end of the round when it is dead. */
    method CheckEnd()
      requires Valid()
      modifies this`active, this`msg
      ensures Valid()
      ensures universe.PlayerDead() ==> !active && msg == Some(DEAD_MSG)
      ensures !universe.PlayerDead() ==>
                active == old(active) && msg == if universe.PlayerWon() then Some(WIN_MSG) else old(msg)
    {
      if universe.PlayerWon() {
        Win();
      }
      if universe.PlayerDead() {
        Dead();
      }
    }

    /** The hopeless check: the hopeless message when the player can no
        longer win. */
    method CheckHopeless()
      requires Valid()
      modifies this`msg
      ensures Valid()
      ensures msg == if Universes.Hopeless(universe.minM, Masses(universe.members), player.m)
                     then Some(HOPELESS_MSG) else old(msg)
    {
      var h := universe.PlayerHopeless();
      if h {
        Hopeless();
      }
    }

    /** The pushes leave the masses, so the verdict just reached stands. */
    method SteerKeeping(held: Held, ghost s: Status)
      requires Valid()
      requires Status(active, msg) ==
               Verdict(s, universe.PlayerWon(), universe.PlayerDead(),
                       Universes.Hopeless(universe.minM, Masses(universe.members), player.m))
      modifies player`deltaP, player`ejection
      ensures Valid()
      ensures player.Body() == Steer(prims, old(player.Body()), held)
      ensures Status(active, msg) ==
              Verdict(s, universe.PlayerWon(), universe.PlayerDead(),
                      Universes.Hopeless(universe.minM, Masses(universe.members), player.m))
    {
      ghost var ms := Masses(universe.members);
      Push(held);
      assert Masses(universe.members) == ms;
    }

    /** The player's pushes for the buttons held, as `update` applies them. */
    method Push(held: Held)
      requires player.Valid() && player.prims == prims
      modifies player`deltaP, player`ejection
      ensures player.Valid()
      ensures player.Body() == Steer(prims, old(player.Body()), held)
    {
      if held.up {
        player.Up();
      }
      if held.down {
        player.Down();
      }
      if held.left {
        player.Left();
      }
      if held.right {
        player.Right();
      }
      match held.click
      case None =>
      case Some(at) =>
        player.MouseClick(at);
    }

    /** One tick of `update` with its outcome recorded: the status reached
        from `s0` over the outcomes so far takes one more `Verdict`. */
    method TickRecorded(held: Held, ghost s0: Status, ghost outs: seq<(bool, bool, bool)>)
        returns (ghost outs2: seq<(bool, bool, bool)>)
      requires Valid() && Status(active, msg) == Verdicts(s0, outs)
      modifies this`active, this`msg, universe, universe.members, player
      ensures Valid()
      ensures universe == old(universe) && player == old(player)
      ensures universe.generation == old(universe.generation) + 1
      ensures forall k :: 0 <= k < |universe.members| ==>
                universe.members[k] in old(universe.members) || fresh(universe.members[k])
      ensures |outs2| == |outs| + 1 && outs2[..|outs|] == outs && outs2[|outs|] == Outcome()
      ensures Status(active, msg) == Verdicts(s0, outs2)
    {
      ghost var mid := Tick(held);
      outs2 := outs + [Outcome()];
      assert outs2[..|outs|] == outs;
    }

    /** `update`: nothing while paused; otherwise `@speed` ticks. */
    method Update(held: Held) returns (ghost outcomes: seq<(bool, bool, bool)>)
      requires Valid()
      modifies this`active, this`msg, universe, universe.members, player
      ensures Valid()
      ensures universe == old(universe) && player == old(player)
      ensures old(paused) ==> unchanged(this, universe, player) && unchanged(universe.members) && outcomes == []
      ensures !old(paused) ==> universe.generation == old(universe.generation) + speed && |outcomes| == speed
      ensures Status(active, msg) == Verdicts(old(Status(active, msg)), outcomes)
      ensures 0 < |outcomes| ==> outcomes[|outcomes| - 1] == Outcome()
      ensures !old(active) ==> !active && msg == old(msg)
      ensures active ==> old(active)
    {
      ghost var s0 := Status(active, msg);
      outcomes := [];
      if paused {
        return;
      }
      var n := 0;
      while n < speed
        invariant 0 <= n <= speed && |outcomes| == n
        invariant Valid()
        invariant universe == old(universe) && player == old(player)
        invariant universe.generation == old(universe.generation) + n
        invariant forall k :: 0 <= k < |universe.members| ==>
                    universe.members[k] in old(universe.members) || fresh(universe.members[k])
        invariant Status(active, msg) == Verdicts(s0, outcomes)
        invariant 0 < n ==> outcomes[n - 1] == Outcome()
      {
        outcomes := TickRecorded(held, s0, outcomes);
        n := n + 1;
      }
      if !s0.active {
        DeathIsFinal(s0, outcomes);
      }
    }
  }
}
