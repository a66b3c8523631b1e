# GosuOsmos simulation core in Dafny

GosuOsmos is an Osmos-like game. Circular life forms drift in a window.
When two forms overlap, the heavier one absorbs mass and momentum from the
lighter one. Pushing a form costs it mass, because the push ejects a small
new form in the opposite direction. This project models the simulation
engine and the game's control state, and proves properties of both.

The engine has two parts:

- **Life forms** (life_form.rb). Each form has a mass, a position, a
  momentum, staged changes of mass and momentum, a queued recoil and a
  counter modulo 10.
- **The universe** (universe.rb). This is the ordered list of forms, which
  owns the player. Its update runs three stages:
  1. a collision pass;
  2. the `reject!` pass, which updates, recolours and removes forms while
     appending the forms they eject;
  3. the recording of the smallest and largest mass.

Around the engine the project also models:

- the nil-aware `Enumerable#sum` (math_utils.rb);
- the window's control state (game_window.rb): time speed, pause, whether
  the round is on, the message shown, and the universe update loop.

Modules and files:

- `Vectors` (vectors.dfy): exact 2-D vectors, plus the irrational
  primitives the game takes from libraries, passed to the model as values.
- `MathUtils` (math_utils.dfy): `Enumerable#sum`, with a reference total.
- `Physics` (physics.dfy): one form on values. It defines:
  - what a form stages against one other form (`PairStage`) and against a
    whole list (`Staged`);
  - the steps of a form's update (`Grow`, `Move`, `NextTick`, `Ejecta`,
    `Recoil`) and their composition `Step`.
- `LifeForms` (life_form.dfy): the class `LifeForm`, with the source's
  fields. Each method is proved to change the form's state exactly as the
  matching `Physics` function says.
- `Universes` (universe.dfy): the class `Universe`. It also defines the
  value-level model of its update:
  - `AfterCollisions`: the collision pass;
  - `Run`: the `reject!` pass over a list that grows while it is visited;
  - `Births` and `Steps`: what that pass computes.
  Its methods are proved against these definitions.
- `Game` (game_window.dfy): the class `GameWindow`, with `Verdict` (the
  win/death/hopeless checks) and `Steer` (the player's pushes) as its
  specifications.

Modelling choices that shape the contracts:

- **Arithmetic.** Masses, positions and momenta are exact reals. The
  window size is whole pixels, and the window centre uses integer halves.
- **Irrational primitives.** The rounded radius, the circle-intersection
  area, the distance between centres, and the vector norm and normalisation
  are fields of the `Primitives` value. The engine carries them, and a
  proof assumes only the laws it states. Mostly that is `radius(0) = 0`;
  one lemma uses the full `Lawful` laws.
- **`reject!`.** The loop re-reads the array's length, so forms ejected
  during the pass are visited in the same pass. The model does the same.
  It proves that a form ejected in the pass never ejects on its own visit
  (its counter is at 0), so the pass ends.
- **Sorting.** `masses.sort` followed by `first`/`last` is modelled by the
  minimum and maximum of the masses (`MinOf`, `MaxOf`), which give the
  same values. They are nil when the universe is empty.
- **The source's own behaviour is kept, not fixed:**
  - A contained lighter form stages the loss of the *heavier* form's mass,
    so containment does not conserve mass.
  - An ejection only stages the parent's loss, which is applied at the next
    `grow`.
  - A dead form still advances its counter and may eject.
  - `next_largest` starts at 0 and can only accept a value below 0.
    `LargerScanOfLivePlayer` and `HopelessIffSmallest` prove what follows:
    for a live player, being hopeless means being the smallest form.

## Model

| member | source | states |
|---|---|---|
| MathUtils.Compact | math_utils.rb:5 | `compact` keeps no more elements than it is given, and keeps none exactly when every element is nil |
| MathUtils.Sum | math_utils.rb:4-7 | `sum` is nil exactly when the collection has no non-nil element |
| MathUtils.CompactAppend | math_utils.rb:5 | compacting a concatenation concatenates the compacted parts |
| MathUtils.InjectSnoc | math_utils.rb:6 | folding over one more element applies `+` to it last |
| MathUtils.SumIgnoresNil | math_utils.rb:5 | a nil element anywhere in the collection does not change the sum |
| MathUtils.SumSingle | math_utils.rb:6 | a collection with exactly one non-nil element sums to that element, since `inject` has no seed |
| MathUtils.SumSnoc | math_utils.rb:6 | a new last non-nil element is added last: the sum is a left fold in order, and starts from the first non-nil element |
| MathUtils.SumOfPresent | math_utils.rb:4-7 | for a nil-free collection and an addition with a neutral element, `sum` is nil exactly when the collection is empty, and is otherwise the reference total |
| Physics.VelocityMomentum | life_form.rb:58-60 | `delta_x` times the mass gives back the momentum |
| Physics.Velocity | life_form.rb:58-60 | `delta_x`, the momentum over the mass; `VelocityMomentum` states that the mass times it gives back the momentum |
| Physics.Impulse | life_form.rb:63-67 | `delta_p` gains the impulse, `delta_p + ejection` does not change, and nothing else changes |
| Physics.Newborn | life_form.rb:23-40 | the state `initialize` sets up; `LifeForms.LifeForm.constructor` states that a new form is in it, and `FreshFormDoesNotEject` that its counter at 0 keeps it from ejecting on its first update |
| Physics.PairStage | life_form.rb:100-121 | nothing is staged against a form of equal mass or one out of reach; under containment the heavier form stages `+other.m, +other.p` and the lighter `-other.m, -own p` |
| Physics.Staged | life_form.rb:95-123 | the responses `check_collisions` stages against a list, summed in list order with the receiver skipped; `StagedStep`, `StagedSnoc`, `StagedOfInert` and `StagedNothingWhenApart` state how it sums and when it stages nothing |
| Physics.StagedStep | life_form.rb:96-98 | the staged total over one more list entry adds that entry's pair effect, unless the entry is the receiver itself |
| Physics.StagedSnoc | life_form.rb:96-98 | the same, with the entry appended to the end of the list |
| Physics.ContainedExchange | life_form.rb:103-110 | under containment the two stagings of a pair cancel in momentum, and together change mass by the lighter's mass minus the heavier's |
| Physics.PartialExchange | life_form.rb:112-120 | under partial overlap the heavier form gains `overlap` and the lighter's velocity times it, the lighter loses the same, so the pair's staged mass and momentum add up to zero |
| Physics.StagedOfInert | life_form.rb:95-123 | if every other form of the list stages nothing, the list stages nothing |
| Physics.StagedNothingWhenApart | life_form.rb:98-121 | a form stages nothing when every other form is out of reach or of equal mass; its own entries are skipped whatever they hold |
| Physics.Grow | life_form.rb:216-227 | `grow` adds the staged mass and clears it, or changes nothing when nothing is staged |
| Physics.Reflect | life_form.rb:198-211 | crossing the low wall mirrors the edge back across it, crossing the high wall mirrors it across the far side, and either flips the momentum component; a coordinate that fits is unchanged |
| Physics.ReflectLandsInside | life_form.rb:198-211 | a form that fits the arena and overshoots a wall by less than its remaining room lands back inside |
| Physics.MoveSpec | life_form.rb:188-213 | a form of mass at most TOL stays as it is; otherwise the staged momentum is applied and cleared, the form advances by the new velocity, and each axis is reflected on its own |
| Physics.Move | life_form.rb:188-213 | `move` on values; its properties are stated by `MoveSpec` |
| Physics.NextTick | life_form.rb:172-174 | the counter stays in 0..9, and wraps from 9 to 0 |
| Physics.EjectMass | life_form.rb:178 | the mass `eject` sheds; `Ejecta` states that the new form has it, and `StepSpec` that the parent stages it as a loss |
| Physics.Recoil | life_form.rb:181-183 | the parent after `eject`; `StepSpec` states that its recoil is emptied and that it stages the shed mass as a loss |
| Physics.Ejecta | life_form.rb:177-182 | the ejected form has mass `norm(ejection)·m/16000`, carries the old recoil as momentum (when that mass is nonzero), and starts with nothing staged and its counter at 0 |
| Physics.Through | life_form.rb:127-129 | grow, move and the counter advance of `update`; `LifeForms.LifeForm.Advance` is proved against it, and `StepSpec` states its counter and mass |
| Physics.Step | life_form.rb:126-130 | `update` on values; its properties are stated by `StepSpec`, `EjectsIff` and `FreshFormDoesNotEject` |
| Physics.StepSpec | life_form.rb:126-130 | `update` advances the counter and applies the staged mass; it ejects exactly when the counter wraps to 0 with a recoil of positive norm, and then the recoil is emptied and the shed mass is staged as a loss; otherwise no form is made |
| Physics.EjectsIff | life_form.rb:168-170 | with lawful primitives, a form ejects exactly when its counter wraps to 0 and its recoil is nonzero |
| Physics.FreshFormDoesNotEject | life_form.rb:168-174 | a form whose counter is at 0, such as a newly made one, does not eject on its next update |
| Physics.EjectionOfTen | life_form.rb:177-183 | a worked ejection: a form of mass 4000 ejecting a recoil of 40 sheds a form of mass 10 moving at 4, and is itself 10 lighter after its next `grow` |
| LifeForms.LifeForm.constructor | life_form.rb:23-43 | a new form is in the newborn state for its mass, position and velocity, has both colours set, and has its radius cache filled |
| LifeForms.LifeForm.R | life_form.rb:46-55 | `r` returns the radius of the current mass, and leaves the cache clean and holding it |
| LifeForms.LifeForm.Impulse | life_form.rb:63-67 | the form's state becomes `Physics.Impulse` of the old state |
| LifeForms.LifeForm.Left | life_form.rb:70-72 | an impulse of LEFT = (-40, 0) |
| LifeForms.LifeForm.Right | life_form.rb:75-77 | an impulse of RIGHT = (40, 0) |
| LifeForms.LifeForm.Up | life_form.rb:80-82 | an impulse of UP = (0, -40) |
| LifeForms.LifeForm.Down | life_form.rb:85-87 | an impulse of DOWN = (0, 40) |
| LifeForms.LifeForm.MouseClick | life_form.rb:90-92 | the form takes the impulse `normalize(x − at)` scaled by IMPULSE, pointing away from the clicked point; the primitive `normalize` is not assumed to return a unit vector |
| LifeForms.LifeForm.CheckCollisions | life_form.rb:95-123 | only the receiver's staged mass and momentum change, and they gain the staged total of the whole list as it was before the call; the entries skipped are exactly those identical to the receiver (the `next if` of line 98) |
| LifeForms.LifeForm.Update | life_form.rb:126-130 | the form's new state is that of `Physics.Step`; a form is returned exactly when `Step` ejects one, and it is new, uncoloured and in the ejected state; the colours do not change |
| LifeForms.LifeForm.SetColor | life_form.rb:132-135 | sets the fill and marks it changed |
| LifeForms.LifeForm.SetEdge | life_form.rb:137-140 | sets the edge colour and marks it changed |
| LifeForms.LifeForm.Advance | life_form.rb:127-129 | grow, move and `eject?` leave the form in the state `Physics.Through` gives, and report whether it ejects: its counter wrapped to 0 with a nonzero recoil norm |
| LifeForms.LifeForm.ShouldEject | life_form.rb:168-170 | `eject?` advances the counter, and holds exactly when it wrapped to 0 with a nonzero recoil norm |
| LifeForms.LifeForm.Tick | life_form.rb:172-174 | the counter advances modulo 10, and its new value is returned |
| LifeForms.LifeForm.Eject | life_form.rb:177-185 | the parent becomes `Recoil` of its state, and the returned form is new, uncoloured and in the `Ejecta` state |
| LifeForms.LifeForm.Move | life_form.rb:188-213 | the form's new state is `Physics.Move` with the radius of its mass |
| LifeForms.LifeForm.Grow | life_form.rb:216-231 | the form's new state is `Physics.Grow`; with nothing staged the radius cache is untouched, otherwise the cache is dirty exactly when the form died |
| Universes.Survivors | universe.rb:34-47 | no more forms are kept than are visited |
| Universes.SurvivorsSpec | universe.rb:46 | the forms kept are exactly the live visited ones, distinct when the list is, with a live first entry staying first |
| Universes.SurvivorsLive | universe.rb:46 | every kept form is a visited form of mass above TOL |
| Universes.SurvivorsComplete | universe.rb:46 | every visited form of mass above TOL is kept |
| Universes.SurvivorsDistinct | universe.rb:34 | removing forms from a list without repeats leaves no repeats |
| Universes.SurvivorsHead | universe.rb:46 | a live first form stays first |
| Universes.SurvivorsKeep | universe.rb:46 | keeping the live forms is the same as keeping by the masses read at each visit |
| Universes.AfterCollisions | universe.rb:89-91 | entry `k` after the collision pass is form `k` with its response to the whole list of states from before the pass staged on top |
| Universes.Collided | universe.rb:90 | one form after its `check_collisions`: its own deltas plus `Staged` over the whole list with itself skipped; `AfterCollisions` and `LoneFormStagesNothing` state the pass built from it |
| Universes.LoneFormStagesNothing | universe.rb:89-91 | a form alone in its universe leaves the collision pass exactly as it was (the pass returns the one-element list unchanged) |
| Universes.Steps | universe.rb:36 | the `lf.update` of each visited state, in order; it keeps the length, and `StepsEach` states that entry `k` is the update of entry `k` |
| Universes.StepsEach | universe.rb:36 | entry `k` of the updated bodies is the update of entry `k` |
| Universes.SpawnsOf | universe.rb:36-37 | the forms a pass ejects are no more than the forms visited, and each starts with its counter at 0 |
| Universes.Births | universe.rb:34-37 | the visited list is the members followed by the forms they eject |
| Universes.SpawnsDoNotSpawn | universe.rb:34-37 | the forms ejected in a pass eject nothing when visited, so the growing list is finite |
| Universes.MassToFill | universe.rb:102-107 | the fill's red part is m/pm − 0.5 clamped to [0, 1] (0 at or below half the player's mass, 1 from one and a half times on), the blue part is the rest, and there is no green |
| Universes.MassToEdge | universe.rb:110-112 | the edge is red exactly for a heavier form and blue otherwise |
| Universes.FillMonotone | universe.rb:102-107 | for a live player a heavier form is at least as red |
| Universes.BlueEdgeAtMostHalfRed | universe.rb:102-112 | a blue-edged form is at most half red |
| Universes.EjectedSpec | universe.rb:36-37 | a visit appends exactly one form when the counter wraps to 0 with a recoil of positive norm, and none otherwise; the form is uncoloured, starts its counter at 0, carries the mass its parent stages as lost, and is the form `SpawnsOf` collects for that state |
| Universes.VisitEntry | universe.rb:34-47 | a visit changes only its own entry and appends what the form ejected |
| Universes.Run | universe.rb:34-47 | the `reject!` pass on values, over a list that grows while it is visited; `RunStep`, `RunOfMembers` and `RunColours` state what it visits and leaves |
| Universes.RunStep | universe.rb:34-47 | one visit moves the pass on by one entry, and keeps the unvisited ejected forms at counter 0 and every entry well formed |
| Universes.RunOfMembers | universe.rb:34-47 | the pass visits exactly the members, then the forms they eject, each taking one update from its state before the pass, and leaves every form well formed |
| Universes.RunColours | universe.rb:39-43 | after the pass the player keeps its colours; with a live player every other form has the colours of its new mass against the player's new mass, and with a dead player the members keep their colours |
| Universes.BelowSpec | universe.rb:76 | the masses counted by `absorbable` are exactly those below the player's |
| Universes.Below | universe.rb:76 | the masses `absorbable` adds; `BelowSpec` states that they are exactly those below the player's |
| Universes.AbsorbableBounds | universe.rb:74-78 | with no negative mass, what the player can absorb is between nothing and the total mass |
| Universes.LargerScan | universe.rb:80-84 | the scan as written returns 0, or a member mass between the player's mass and 0 that is no larger than any other such mass |
| Universes.LargerScanOfLivePlayer | universe.rb:80-84 | for a player of nonnegative mass `next_largest` is 0 |
| Universes.HopelessIffSmallest | universe.rb:19-21 | with no negative mass, the player is hopeless exactly when it is the smallest form |
| Universes.Hopeless | universe.rb:19-21 | `player_hopeless?` on values; `HopelessIffSmallest` states when it holds |
| Universes.MinOf | universe.rb:51-52 | the recorded minimum is nil exactly for an empty universe |
| Universes.MaxOf | universe.rb:51-53 | the recorded maximum is nil exactly for an empty universe |
| Universes.MinOfIsLeast | universe.rb:51-52 | the recorded minimum is one of the masses, and no mass is smaller |
| Universes.MaxOfIsGreatest | universe.rb:51-53 | the recorded maximum is one of the masses, and no mass is larger |
| Universes.WonIffHeaviest | universe.rb:14-16 | `player_won?` holds exactly when some form has the player's mass and none is heavier |
| Universes.SmallestIffLightest | universe.rb:93-95 | `player_smallest?` holds exactly when some form has the player's mass and none is lighter |
| Universes.RandomBirth | universe.rb:134-140 | a random form has a whole mass below MAX_SIZE, its centre at least MARGIN inside the window, and each velocity component in [-0.5, 0.5) |
| Universes.Universe.constructor | universe.rb:7-11 | a new universe holds exactly the player, and nothing is recorded yet |
| Universes.Universe.Ambient | universe.rb:124-127 | an ambient universe holds the player first, then one new random form per draw |
| Universes.Universe.Populate | universe.rb:130-132 | `populate` appends one new random form per draw and keeps the forms before them |
| Universes.Universe.RandomLifeform | universe.rb:134-140 | the new form is uncoloured and born in the state `RandomBirth` gives for the draw |
| Universes.Universe.TotalM | universe.rb:66-68 | `total_m` is nil for an empty universe and otherwise the total of the masses |
| Universes.Universe.TotalP | universe.rb:70-72 | `total_p` is nil for an empty universe and otherwise the total of the momenta |
| Universes.Universe.PlayerDead | universe.rb:24-26 | `player_dead?`, the player's mass at most TOL; `Game.Verdict` ends the round on it and `Game.DeathIsFinal` keeps the round ended |
| Universes.Universe.PlayerWon | universe.rb:14-16 | `player_won?`, through `player_largest?`; `ExtremesRead` states what it means once the extremes are recorded |
| Universes.Universe.PlayerSmallest | universe.rb:93-95 | `player_smallest?`; `ExtremesRead` states what it means once the extremes are recorded |
| Universes.Universe.ExtremesRead | universe.rb:93-99 | with the extremes recorded for the current members, the player has won exactly when some member has its mass and none is heavier, and is the smallest exactly when some member has its mass and none is lighter |
| Universes.Universe.Absorbable | universe.rb:74-78 | `absorbable` is the total of the member masses strictly below the player's |
| Universes.Universe.NextLargest | universe.rb:80-84 | `next_largest` is the scan as written |
| Universes.Universe.PlayerHopeless | universe.rb:19-21 | `player_hopeless?` is the player being the smallest, or its mass plus what it can absorb being below `next_largest` |
| Universes.Universe.CollisionPass | universe.rb:89-91 | every member stages its response to the whole list before any member moves; only staged deltas change, and the universe stays valid |
| Universes.Universe.StageMember | universe.rb:90 | one member's `check_collisions` stages its entry of `AfterCollisions` and leaves every other member as it was |
| Universes.Universe.Visit | universe.rb:35-43 | one visit: the form takes its update, and is recoloured for its new mass unless it is the player or the player is dead; the ejected form, if any, is new and uncoloured |
| Universes.Universe.VisitListed | universe.rb:34-44 | on the forms, the visit of entry `i` does what `VisitEntry` says, and an ejected form joins the end of the list |
| Universes.Universe.VisitAt | universe.rb:34-47 | a visit and its removal decision move the loop's invariant on by one entry |
| Universes.Universe.VisitAll | universe.rb:34-47 | the loop visits every entry, including the forms appended during it, and ends in the state of the value-level pass |
| Universes.Universe.PassStarts | universe.rb:34 | before the first visit the loop's invariant holds of the members |
| Universes.Universe.PassEnds | universe.rb:34-47 | after the last visit the kept forms are the live visited ones and form a valid universe again; the visited list is the members followed by new forms, with the bodies and colours the value-level pass gives |
| Universes.Universe.UpdatePass | universe.rb:34-47 | the `reject!` pass keeps exactly the live forms of the visited list (the members followed by the new forms they ejected, each updated once) and leaves the colours `RunColours` describes |
| Universes.Universe.RecordExtremes | universe.rb:51-53 | the recorded minimum and maximum are those of the members' masses, and no form changes |
| Universes.Universe.Commit | universe.rb:46-53 | the universe holds the kept forms, one more update is counted, and the extremes of their masses are recorded |
| Universes.Universe.Update | universe.rb:28-54 | after collisions, updates and removal: the members are the live forms among the old members and the forms ejected in the pass, their states are `Steps(Births(AfterCollisions(...)))` of the old states, the extremes are recorded, and the colours are those of the pass |
| Game.Pow2 | game_window.rb:96-103 | every power of two is at least 1 |
| Game.DoubleIsPowerOfTwo | game_window.rb:96-98 | doubling a power of two gives a power of two |
| Game.HalfIsPowerOfTwo | game_window.rb:101-103 | halving a power of two other than 1 gives a power of two |
| Game.Verdict | game_window.rb:39-47 | nothing is checked once the round is over; the death message overrides "You Win!", and while the round is on the hopeless message overrides "You Win!" |
| Game.Verdicts | game_window.rb:31-48 | the status the `@speed` loop reaches over a sequence of outcomes; `GameWindow.Update` is stated through it and `DeathIsFinal` states its finality |
| Game.DeathIsFinal | game_window.rb:39-47 | once the round is over (the player dead) the status never changes again, whatever outcomes later updates find |
| Game.LonePlayerIsHopeless | game_window.rb:39-47 | a player alone in its universe is both heaviest and lightest, so the hopeless message replaces "You Win!" |
| Game.Steer | game_window.rb:50-56 | the player's pushes change only its staged momentum and recoil, keep their sum, and do nothing when no button is held |
| Game.GameWindow.constructor | game_window.rb:17-27 | a new window has speed 1 and a fresh round, on and unpaused with no message: a new white player of mass 2000 at rest at the centre, first in a new universe, followed by ENEMIES new forms born as `RandomBirth` gives for the draws |
| Game.GameWindow.NewRound | game_window.rb:147-155 | the player is a new white form of mass 2000 at rest at the window's centre, first in a new universe followed by one random form per draw |
| Game.GameWindow.InitUniverse | game_window.rb:141-145 | the round is on, not paused, with no messages |
| Game.GameWindow.InitAmbientUniverse | game_window.rb:147-155 | a new round: on, unpaused, no message, the speed kept, a new white player of mass 2000 at the centre, and 15 new random forms after it |
| Game.GameWindow.TogglePause | game_window.rb:91-93 | the pause flips only while the round is on |
| Game.GameWindow.SpeedUp | game_window.rb:96-98 | the speed doubles and stays a power of two |
| Game.GameWindow.SlowDown | game_window.rb:101-103 | the speed halves unless it is 1, and stays a power of two |
| Game.GameWindow.Dead | game_window.rb:106-109 | the round is over, with the death message |
| Game.GameWindow.Hopeless | game_window.rb:112-114 | the hopeless message |
| Game.GameWindow.Win | game_window.rb:117-119 | the winning message |
| Game.GameWindow.ButtonDown | game_window.rb:75-88 | Escape asks to close, R starts a new round, P toggles the pause, W and S change the speed, and each key changes nothing else; other keys do nothing |
| Game.GameWindow.Judge | game_window.rb:39-47 | the status becomes the `Verdict` of the universe's won, dead and hopeless predicates |
| Game.GameWindow.CheckEnd | game_window.rb:39-42 | a dead player ends the round with the death message; otherwise the round stays on and the message becomes "You Win!" exactly when the player won |
| Game.GameWindow.CheckHopeless | game_window.rb:45-47 | the message becomes the hopeless one exactly when `player_hopeless?` holds, and is otherwise kept |
| Game.GameWindow.Push | game_window.rb:50-56 | the player's state becomes `Steer` of its state for the buttons held |
| Game.GameWindow.SteerKeeping | game_window.rb:50-56 | the pushes leave every mass as it was, so the verdict just reached still holds |
| Game.GameWindow.Decide | game_window.rb:39-56 | the status becomes the `Verdict` of the universe as it stands; the player takes `Steer` for the buttons held if the round is still on after the checks, and is left untouched, with no input read, once it is over |
| Game.GameWindow.Advance | game_window.rb:36 | one universe update, counted; the forms left are old members or new forms; a player still a member becomes `PlayerAfter` of the old bodies (entry 0 of `Steps(Births(AfterCollisions(...)))`), a player no longer a member keeps its state |
| Game.PlayerAfterPass | universe.rb:28-37 | the player's state after the update is the update `Step` of its state after the collision pass: no form the pass creates comes before it |
| Game.PlayerAfter | universe.rb:28-37 | the player's state after one universe update; `PlayerAfterPass` states that it is `Step` of its state after the collision pass, and `GameWindow.Advance` and `GameWindow.Tick` that the player reaches it |
| Game.GameWindow.Tick | game_window.rb:36-56 | one step of the speed loop: a universe update after which the player's state `mid` is `PlayerAfter` of the old bodies (or unchanged when it is no longer a member); the status becomes the `Verdict` of the updated universe; the player then ends as `Steer(mid)` for the buttons held while the round is still on, and as `mid` once it is over, with no input read |
| Game.GameWindow.TickRecorded | game_window.rb:31-57 | one pass of the `@speed` loop with its outcome recorded: the status over the outcomes so far takes one more `Verdict`, for the won, dead and hopeless outcome of the universe just updated |
| Game.GameWindow.Update | game_window.rb:29-59 | nothing changes while paused; otherwise the universe is updated exactly `speed` times, and the status is `Verdicts` of the old status over one outcome per step, the last being that of the final universe; a finished round stays finished with its message, and a round that ends never restarts itself |

## Left out

- Drawing and its bookkeeping are not modelled (I/O): `LifeForm#draw`,
  `Universe#draw`, `GameWindow#draw`, the debug console, the FPS timer,
  fonts, the background image and the `to_s` strings. The images made in
  `initialize` and `grow` appear only as the radius read that fills the
  cache. `@r_changed` is not modelled. The colour-changed flags are set
  but nothing reads them.
- The square root and rounding of `mass_to_radius`, the circle-intersection
  area, `Gosu.distance`, and GSL's `norm` and `normalize` are not computed.
  They are parameters of the model (`Primitives`), and only stated laws are
  assumed of them.
- Floating point is not modelled: arithmetic is exact, with no rounding,
  NaN or infinity.
- An ejection from a form whose mass is exactly 0 divides by a zero ejected
  mass, which in the source gives a NaN velocity. The model gives the
  ejected form zero velocity instead.
- The radius of a negative mass is not an error in the model. In the source,
  `Math.sqrt` raises for a form killed with an overshoot that then ejects;
  the model's radius primitive is total.
- `rand` is not modelled: `random_lifeform` takes its random numbers as a
  `Draw` value, and `populate` and a new round take one draw per form.
- Gosu input polling is not modelled. The buttons held in a frame are a
  `Held` value, a key press is a `Button` value, and `close` is the flag
  `ButtonDown` returns. The window's lifecycle, caption and cursor are left
  out.
- The radius cache of the *other* forms is not refreshed by
  `check_collisions`. The model reads the radius of the current mass
  directly; the cached `r` returns the same value.
- main.rb (start-up only) and the empty subclasses `Organism` and
  `Attractor` are not part of this model.
- LifeForms.LifeForm.CheckCollisions: requires that the primitive radius
  of 0 is 0 and that no mass is negative. Every universe member satisfies
  this, and the partial-overlap velocity needs it.
- Universes.Universe.Update: also requires the universe invariant `Valid`:
  distinct members, every mass nonnegative, and the player first when
  present. Every constructor establishes it and every operation keeps it.
- Game.GameWindow.Update: states the number of universe updates and the
  status over the outcomes of its steps. Only the last outcome is tied to
  a universe, the final one; the earlier outcomes, the player's states and
  the universe contents are not composed across its `speed` steps.
- Game.GameWindow.Advance: of the universe update it states the count, the
  old-or-new members and the player's new state. The rest (the members
  kept, the states of the other forms, the extremes, the colours) is
  stated by `Universes.Universe.Update`, which it calls.
- Game.GameWindow.Tick: states what `Advance` states of the universe,
  plus the status and the player's final state; the other forms' states
  are again those of `Universes.Universe.Update`.
- Game.GameWindow.ButtonDown: for R it states the new round's flags and
  size. The new player's state and the random forms are stated by
  `InitAmbientUniverse`.
